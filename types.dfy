/** The value types shared by the comparison library and the command line
    tool (include/pdf.hpp): the error and algorithm enumerations, the
    comparison options with their defaults, and the expected-or-error result. */
module Types {

  /** An unsigned 8-bit value, the width of the enumerations' underlying type
      and of the `method` command-line argument. */
  type byte = x: int | 0 <= x < 256

  /** A filesystem path, as its textual form. */
  type Path = string

  datatype Option<T> = None | Some(value: T)

  /** The three failures the library reports. */
  datatype Error = BadFile | BadDirectory | MismatchingPages

  /** `tl::expected<T, error>`: a value or one of the library's errors. */
  datatype Result<T> = Ok(value: T) | Err(error: Error)

  /** The highlighting strategies, in declaration order. */
  datatype Algorithm = Simple | Difference | DoubleCompare

  /** The numeric value of each enumerator: its position in the declaration. */
  function Code(a: Algorithm): (c: byte)
    ensures c <= 2
    ensures c == 0 <==> a == Simple
    ensures c == 1 <==> a == Difference
  {
    match a
    case Simple => 0
    case Difference => 1
    case DoubleCompare => 2
  }

  /** The enumerator a byte stands for, when it names one. */
  function AlgorithmOf(c: byte): (a: Option<Algorithm>)
    ensures a.Some? <==> c <= 2
    ensures a.Some? ==> Code(a.value) == c
  {
    if c == 0 then Some(Simple)
    else if c == 1 then Some(Difference)
    else if c == 2 then Some(DoubleCompare)
    else None
  }

  /** Casting an enumerator's own number back gives the enumerator. */
  lemma CodeRoundTrip(a: Algorithm)
    ensures AlgorithmOf(Code(a)) == Some(a)
  {
  }

  /** The three enumerators have three distinct numbers. */
  lemma CodeInjective(a: Algorithm, b: Algorithm)
    ensures Code(a) == Code(b) ==> a == b
  {
  }

  /** The options one comparison runs with (the `method` member is called
      `algorithm` here, `method` being a keyword). */
  datatype Options = Options(
    fuzz: real,
    tolerance: real,
    algorithm: Algorithm,
    prefix: string,
    output: Option<Path>)

  /** The default member initialisers of `options`. */
  const DefaultOptions: Options := Options(0.0, 0.0, Simple, "", None)
}
