/** Text the comparison produces for its output files: the decimal rendering
    of a page index (what `std::format("{}", index)` prints for a
    non-negative integer) and the POSIX behaviour of `std::filesystem::path`'s
    `operator/` on the two paths it joins. */
module Format {
  import opened Types

  predicate IsDigit(c: char) {
    '0' <= c <= '9'
  }

  predicate AllDigits(s: string) {
    forall i :: 0 <= i < |s| ==> IsDigit(s[i])
  }

  function DigitChar(d: nat): (c: char)
    requires d < 10
    ensures IsDigit(c)
  {
    (48 + d) as char
  }

  function DigitValue(c: char): (d: nat)
    requires IsDigit(c)
    ensures d < 10 && DigitChar(d) == c
  {
    c as int - 48
  }

  /** Base-ten digits of `n`, most significant first, without leading zeros. */
  function Decimal(n: nat): (s: string)
    ensures |s| >= 1 && AllDigits(s)
    ensures s[0] == '0' ==> n == 0 && s == "0"
    decreases n
  {
    if n < 10 then [DigitChar(n)] else Decimal(n / 10) + [DigitChar(n % 10)]
  }

  /** The number a string of digits denotes. */
  function ParseDecimal(s: string): nat
    requires AllDigits(s)
  {
    if s == [] then 0 else ParseDecimal(s[..|s| - 1]) * 10 + DigitValue(s[|s| - 1])
  }

  /** Reading the printed index back gives the index. */
  lemma {:induction false} DecimalRoundTrip(n: nat)
    ensures ParseDecimal(Decimal(n)) == n
    decreases n
  {
    if n >= 10 {
      DecimalRoundTrip(n / 10);
      var s := Decimal(n);
      assert s[..|s| - 1] == Decimal(n / 10);
      assert DigitValue(s[|s| - 1]) == n % 10;
    }
  }

  /** Distinct indices print differently. */
  lemma DecimalInjective(m: nat, n: nat)
    ensures Decimal(m) == Decimal(n) ==> m == n
  {
    DecimalRoundTrip(m);
    DecimalRoundTrip(n);
  }

  /** A POSIX path is absolute when it begins at the root directory. */
  predicate IsAbsolute(p: Path) {
    |p| > 0 && p[0] == '/'
  }

  /** `dir / name`: an absolute `name` replaces `dir`; otherwise `name` is
      appended, after a separator unless `dir` is empty or already ends in one
      (a path that has no file name part). */
  function Join(dir: Path, name: Path): (p: Path)
    ensures IsAbsolute(name) ==> p == name
    ensures !IsAbsolute(name) ==> |dir| + |name| <= |p| <= |dir| + 1 + |name|
  {
    if IsAbsolute(name) then name
    else if dir == [] || dir[|dir| - 1] == '/' then dir + name
    else dir + "/" + name
  }

  /** The joined path ends with `name`; a relative `name` lands under `dir`,
      with at most one separator between them. */
  lemma JoinPlacesName(dir: Path, name: Path)
    ensures IsAbsolute(name) ==> Join(dir, name) == name
    ensures var p := Join(dir, name); |name| <= |p| && p[|p| - |name|..] == name
    ensures !IsAbsolute(name) ==> var p := Join(dir, name);
      |dir| <= |p| <= |dir| + 1 + |name| && p[..|dir|] == dir
  {
  }

  /** Joining two relative names, or two absolute ones, onto one directory
      gives the same path only for the same name. */
  lemma JoinInjective(dir: Path, x: Path, y: Path)
    requires IsAbsolute(x) == IsAbsolute(y)
    ensures Join(dir, x) == Join(dir, y) ==> x == y
  {
    if Join(dir, x) == Join(dir, y) && !IsAbsolute(x) {
      var sep := if dir == [] || dir[|dir| - 1] == '/' then "" else "/";
      assert Join(dir, x) == (dir + sep) + x;
      assert Join(dir, y) == (dir + sep) + y;
      assert x == Join(dir, x)[|dir + sep|..];
    }
  }
}
