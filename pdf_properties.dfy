/** What `pdf::compare` promises, stated over its specification
    (CompareResult and CompareLog, which the method Pdf.Compare is proved to
    follow). */
module PdfProperties {
  import opened Types
  import opened Magick
  import opened Pdf

  /** The pages whose score exceeds the tolerance. */
  function RenderedPages(a: Document, b: Document, opts: Options, m: Backend): seq<nat>
    requires Pages(a) == Pages(b)
  {
    Rendered(Scores(a.pages, b.pages, opts.fuzz, m), opts.tolerance)
  }

  // ---------------------------------------------------------------------
  // Files written by a sequence of effects

  lemma {:induction false} NoWrites(log: seq<Effect>)
    requires forall k :: 0 <= k < |log| ==> !log[k].Wrote?
    ensures Writes(log) == []
    decreases |log|
  {
    if log != [] {
      NoWrites(log[..|log| - 1]);
    }
  }

  lemma WritesOfStep(a: seq<Image>, b: seq<Image>, opts: Options, dir: Path, m: Backend, i: nat)
    requires i < |a| && i < |b|
    ensures Writes(RenderStep(a, b, opts, dir, m, i)) == [FileWrite(FilePath(dir, opts.prefix, i), 3 * a[i].width, a[i].height)]
  {
    var step := RenderStep(a, b, opts, dir, m, i);
    var head := step[..1];
    assert head[..0] == [];
    assert Writes(head) == Writes(head[..0]);
    assert Writes(step) == Writes(head) + [FileWrite(FilePath(dir, opts.prefix, i), 3 * a[i].width, a[i].height)];
  }

  /** Rendering the pages `idx` writes one file per page, in the order of
      `idx`, at the page's path and three page widths wide. */
  lemma {:induction false} WritesOfRenderLog(a: seq<Image>, b: seq<Image>, opts: Options, dir: Path, m: Backend, idx: seq<nat>)
    requires forall j :: 0 <= j < |idx| ==> idx[j] < |a| && idx[j] < |b|
    ensures |Writes(RenderLog(a, b, opts, dir, m, idx))| == |idx|
    ensures forall j :: 0 <= j < |idx| ==>
      Writes(RenderLog(a, b, opts, dir, m, idx))[j] ==
      FileWrite(FilePath(dir, opts.prefix, idx[j]), 3 * a[idx[j]].width, a[idx[j]].height)
    decreases |idx|
  {
    if idx != [] {
      var n := |idx| - 1;
      WritesOfRenderLog(a, b, opts, dir, m, idx[..n]);
      WritesAppend(RenderLog(a, b, opts, dir, m, idx[..n]), RenderStep(a, b, opts, dir, m, idx[n]));
      WritesOfStep(a, b, opts, dir, m, idx[n]);
    }
  }

  /** A strategy is run on page i, with algorithm `alg`, exactly when i is one
      of the pages being rendered and `alg` is the configured algorithm. */
  lemma HighlightedInRenderLog(a: seq<Image>, b: seq<Image>, opts: Options, dir: Path, m: Backend, idx: seq<nat>,
                               i: nat, alg: Algorithm)
    requires forall j :: 0 <= j < |idx| ==> idx[j] < |a| && idx[j] < |b|
    ensures Highlighted(i, alg) in RenderLog(a, b, opts, dir, m, idx) <==> i in idx && alg == opts.algorithm
  {
    var log := RenderLog(a, b, opts, dir, m, idx);
    RenderLogLength(a, b, opts, dir, m, idx);
    if Highlighted(i, alg) in log {
      var k :| 0 <= k < |log| && log[k] == Highlighted(i, alg);
      var j := k / 2;
      RenderLogAt(a, b, opts, dir, m, idx, j);
      assert log[2 * j + 1].Wrote?;
      assert k == 2 * j;
    }
    if i in idx && alg == opts.algorithm {
      var j :| 0 <= j < |idx| && idx[j] == i;
      RenderLogAt(a, b, opts, dir, m, idx, j);
      assert log[2 * j] == Highlighted(i, alg);
    }
  }

  // ---------------------------------------------------------------------
  // The result

  /** Documents of different lengths are never compared: the result is
      `MismatchingPages`, no page is scored and nothing is written. It is the
      only way to obtain that error, and `BadFile` never comes from here. */
  lemma MismatchedPages(a: Document, b: Document, opts: Options, m: Backend, fs: FileSystem)
    ensures CompareResult(a, b, opts, m, fs) == Err(MismatchingPages) <==> Pages(a) != Pages(b)
    ensures Pages(a) != Pages(b) ==> CompareLog(a, b, opts, m, fs) == []
    ensures CompareResult(a, b, opts, m, fs) != Err(BadFile)
  {
  }

  /** A successful comparison returns the sum, from the first page to the
      last and starting from 0, of the per-page scores. */
  lemma TotalIsSumOfScores(a: Document, b: Document, opts: Options, m: Backend, fs: FileSystem)
    requires CompareResult(a, b, opts, m, fs).Ok?
    ensures Pages(a) == Pages(b)
    ensures var s := Scores(a.pages, b.pages, opts.fuzz, m);
      CompareResult(a, b, opts, m, fs).value == Sum(s) &&
      forall i :: 0 <= i < Pages(a) ==> s[i] == m.metric(a.pages[i], b.pages[i], opts.fuzz)
  {
  }

  /** The tolerance and the output directory decide only what is rendered:
      two successful comparisons with the same fuzz return the same total. */
  lemma ToleranceGatesOnlyRendering(a: Document, b: Document, o1: Options, o2: Options, m: Backend, fs: FileSystem)
    requires o1.fuzz == o2.fuzz
    requires CompareResult(a, b, o1, m, fs).Ok? && CompareResult(a, b, o2, m, fs).Ok?
    ensures CompareResult(a, b, o1, m, fs).value == CompareResult(a, b, o2, m, fs).value
  {
  }

  /** Without an output directory the total is returned after the scoring
      loop: the filesystem is not touched and no strategy runs. */
  lemma WithoutOutput(a: Document, b: Document, opts: Options, m: Backend, fs: FileSystem)
    requires Pages(a) == Pages(b) && opts.output.None?
    ensures CompareResult(a, b, opts, m, fs) == Ok(Sum(Scores(a.pages, b.pages, opts.fuzz, m)))
    ensures var log := CompareLog(a, b, opts, m, fs);
      |log| == Pages(a) && forall k :: 0 <= k < |log| ==> log[k] == Measured(k)
    ensures Writes(CompareLog(a, b, opts, m, fs)) == []
  {
    NoWrites(CompareLog(a, b, opts, m, fs));
  }

  /** An output path that is not a directory once creation has been attempted
      fails the comparison with `BadDirectory`, whatever the scores, after the
      scoring loop and the creation attempt and before any file is written. */
  lemma BadOutputDirectory(a: Document, b: Document, opts: Options, m: Backend, fs: FileSystem)
    requires Pages(a) == Pages(b) && opts.output.Some?
    requires !fs.isDirectoryAfterCreate(opts.output.value)
    ensures CompareResult(a, b, opts, m, fs) == Err(BadDirectory)
    ensures CompareLog(a, b, opts, m, fs) == MeasureLog(Pages(a)) + [CreatedDirectories(opts.output.value)]
    ensures Writes(CompareLog(a, b, opts, m, fs)) == []
  {
    NoWrites(CompareLog(a, b, opts, m, fs));
  }

  // ---------------------------------------------------------------------
  // Rendering

  /** A strategy runs on page i exactly when the documents have equal length,
      the output directory is usable and the page's score is strictly greater
      than the tolerance; it is always the configured one. */
  lemma HighlightedExactly(a: Document, b: Document, opts: Options, m: Backend, fs: FileSystem, i: nat, alg: Algorithm)
    ensures Highlighted(i, alg) in CompareLog(a, b, opts, m, fs) <==>
      Pages(a) == Pages(b) && opts.output.Some? && fs.isDirectoryAfterCreate(opts.output.value) &&
      i < Pages(a) && Scores(a.pages, b.pages, opts.fuzz, m)[i] > opts.tolerance && alg == opts.algorithm
  {
    var log := CompareLog(a, b, opts, m, fs);
    if Pages(a) == Pages(b) {
      var head := MeasureLog(Pages(a));
      assert Highlighted(i, alg) !in head;
      match opts.output
      case None =>
      case Some(dir) =>
        if fs.isDirectoryAfterCreate(dir) {
          var r := RenderedPages(a, b, opts, m);
          var tail := RenderLog(a.pages, b.pages, opts, dir, m, r);
          assert log == head + [CreatedDirectories(dir)] + tail;
          HighlightedInRenderLog(a.pages, b.pages, opts, dir, m, r, i, alg);
          RenderedExactly(Scores(a.pages, b.pages, opts.fuzz, m), opts.tolerance);
        }
    }
  }

  /** The files a comparison writes: none unless the documents have equal
      length and the output directory is usable; otherwise one per page whose
      score exceeds the tolerance, in page order, at
      `output / (prefix + index + ".png")`, as wide as three pages and as tall
      as one. */
  lemma CompareWrites(a: Document, b: Document, opts: Options, m: Backend, fs: FileSystem)
    ensures var w := Writes(CompareLog(a, b, opts, m, fs));
      if Pages(a) == Pages(b) && opts.output.Some? && fs.isDirectoryAfterCreate(opts.output.value) then
        var r := RenderedPages(a, b, opts, m);
        |w| == |r| &&
        forall j :: 0 <= j < |r| ==>
          w[j] == FileWrite(FilePath(opts.output.value, opts.prefix, r[j]), 3 * a.pages[r[j]].width, a.pages[r[j]].height)
      else w == []
  {
    var log := CompareLog(a, b, opts, m, fs);
    if Pages(a) == Pages(b) && opts.output.Some? && fs.isDirectoryAfterCreate(opts.output.value) {
      var dir := opts.output.value;
      var head := MeasureLog(Pages(a)) + [CreatedDirectories(dir)];
      var r := RenderedPages(a, b, opts, m);
      assert log == head + RenderLog(a.pages, b.pages, opts, dir, m, r);
      NoWrites(head);
      WritesAppend(head, RenderLog(a.pages, b.pages, opts, dir, m, r));
      WritesOfRenderLog(a.pages, b.pages, opts, dir, m, r);
    } else {
      NoWrites(log);
    }
  }

  /** With a usable output directory, a file is written for page i if and only
      if its score is strictly greater than the tolerance, and no two writes
      go to the same path. */
  lemma OneFilePerPageAboveTolerance(a: Document, b: Document, opts: Options, m: Backend, fs: FileSystem, i: nat)
    requires Pages(a) == Pages(b) && opts.output.Some? && fs.isDirectoryAfterCreate(opts.output.value)
    requires i < Pages(a)
    ensures var w := Writes(CompareLog(a, b, opts, m, fs));
      (exists j :: 0 <= j < |w| && w[j].path == FilePath(opts.output.value, opts.prefix, i)) <==>
      Scores(a.pages, b.pages, opts.fuzz, m)[i] > opts.tolerance
    ensures var w := Writes(CompareLog(a, b, opts, m, fs));
      forall j1, j2 :: 0 <= j1 < j2 < |w| ==> w[j1].path != w[j2].path
  {
    var dir := opts.output.value;
    var w := Writes(CompareLog(a, b, opts, m, fs));
    var s := Scores(a.pages, b.pages, opts.fuzz, m);
    var r := RenderedPages(a, b, opts, m);
    CompareWrites(a, b, opts, m, fs);
    RenderedExactly(s, opts.tolerance);
    if exists j :: 0 <= j < |w| && w[j].path == FilePath(dir, opts.prefix, i) {
      var j :| 0 <= j < |w| && w[j].path == FilePath(dir, opts.prefix, i);
      FilePathInjective(dir, opts.prefix, r[j], i);
      assert r[j] in r;
    }
    if s[i] > opts.tolerance {
      assert i in r;
      var j :| 0 <= j < |r| && r[j] == i;
      assert w[j].path == FilePath(dir, opts.prefix, i);
    }
    RenderedAscending(s, opts.tolerance);
    forall j1, j2 | 0 <= j1 < j2 < |w| ensures w[j1].path != w[j2].path {
      FilePathInjective(dir, opts.prefix, r[j1], r[j2]);
    }
  }

  /** The t-th effect of rendering `idx`, when it is a write, is the write
      for the j-th index, right after that index's strategy run. */
  lemma WroteInRenderLog(a: seq<Image>, b: seq<Image>, opts: Options, dir: Path, m: Backend, idx: seq<nat>, t: nat)
    returns (j: nat)
    requires forall j :: 0 <= j < |idx| ==> idx[j] < |a| && idx[j] < |b|
    requires t < |RenderLog(a, b, opts, dir, m, idx)| && RenderLog(a, b, opts, dir, m, idx)[t].Wrote?
    ensures j < |idx| && t == 2 * j + 1
  {
    RenderLogLength(a, b, opts, dir, m, idx);
    j := t / 2;
    RenderLogAt(a, b, opts, dir, m, idx, j);
  }

  /** The scoring steps and the directory creation write nothing: a write can
      only come after them, and only when the output directory is usable. */
  lemma WritesFollowDirectory(a: Document, b: Document, opts: Options, m: Backend, fs: FileSystem, k: nat)
    requires k < |CompareLog(a, b, opts, m, fs)|
    ensures CompareLog(a, b, opts, m, fs)[k].Wrote? ==>
      Pages(a) == Pages(b) && opts.output.Some? && fs.isDirectoryAfterCreate(opts.output.value) && k > Pages(a)
    ensures Pages(a) == Pages(b) && opts.output.Some? ==>
      |CompareLog(a, b, opts, m, fs)| > Pages(a) &&
      CompareLog(a, b, opts, m, fs)[Pages(a)] == CreatedDirectories(opts.output.value)
  {
    var log := CompareLog(a, b, opts, m, fs);
    var n := Pages(a);
    if opts.output.None? {
      assert log[k] == Measured(k);
    } else if k < n {
      assert log[k] == MeasureLog(n)[k];
    } else if k == n {
      assert log[k] == CreatedDirectories(opts.output.value);
    }
  }

  /** Every write in a comparison belongs to one page above the tolerance
      and comes right after that page's strategy ran: it writes the page's
      canvas to the page's path in the output directory. */
  lemma WriteInCompareLog(a: Document, b: Document, opts: Options, m: Backend, fs: FileSystem, k: nat) returns (i: nat)
    requires k < |CompareLog(a, b, opts, m, fs)| && CompareLog(a, b, opts, m, fs)[k].Wrote?
    ensures Pages(a) == Pages(b) && opts.output.Some? && fs.isDirectoryAfterCreate(opts.output.value)
    ensures i < Pages(a) && Scores(a.pages, b.pages, opts.fuzz, m)[i] > opts.tolerance
    ensures 0 < k && CompareLog(a, b, opts, m, fs)[k - 1] == Highlighted(i, opts.algorithm)
    ensures CompareLog(a, b, opts, m, fs)[k] ==
      Wrote(FilePath(opts.output.value, opts.prefix, i), PageCanvas(a.pages[i], PanelsFor(opts.algorithm, a.pages[i], b.pages[i], opts.fuzz, m)))
  {
    WritesFollowDirectory(a, b, opts, m, fs, k);
    i := WriteInRendering(a.pages, b.pages, Scores(a.pages, b.pages, opts.fuzz, m), opts, opts.output.value, m,
                          CompareLog(a, b, opts, m, fs), k);
  }

  /** The same, for a log made of the scoring steps, the directory creation and
      the rendering of the pages that `diffs` puts above the tolerance. */
  lemma WriteInRendering(a: seq<Image>, b: seq<Image>, diffs: seq<real>, opts: Options, dir: Path, m: Backend,
                         log: seq<Effect>, k: nat) returns (i: nat)
    requires |a| == |b| == |diffs|
    requires log == MeasureLog(|a|) + [CreatedDirectories(dir)] + RenderLog(a, b, opts, dir, m, Rendered(diffs, opts.tolerance))
    requires |a| < k < |log| && log[k].Wrote?
    ensures i < |a| && diffs[i] > opts.tolerance
    ensures log[k - 1] == Highlighted(i, opts.algorithm)
    ensures log[k] == Wrote(FilePath(dir, opts.prefix, i), PageCanvas(a[i], PanelsFor(opts.algorithm, a[i], b[i], opts.fuzz, m)))
  {
    var r := Rendered(diffs, opts.tolerance);
    var tail := RenderLog(a, b, opts, dir, m, r);
    var head := MeasureLog(|a|) + [CreatedDirectories(dir)];
    var t := k - |head|;
    assert log[k] == tail[t];
    var j := WroteInRenderLog(a, b, opts, dir, m, r, t);
    RenderLogAt(a, b, opts, dir, m, r, j);
    RenderedExactly(diffs, opts.tolerance);
    i := r[j];
    assert i in r;
    assert log[k - 1] == tail[2 * j];
  }

  /** Each canvas written is the unmodified page extended to three page
      widths at the page's height, with the strategy's centre panel drawn at
      x = width and its right panel at x = 2 * width. */
  lemma WrittenCanvas(a: Document, b: Document, opts: Options, m: Backend, fs: FileSystem, k: nat) returns (i: nat)
    requires k < |CompareLog(a, b, opts, m, fs)| && CompareLog(a, b, opts, m, fs)[k].Wrote?
    ensures Pages(a) == Pages(b) && i < Pages(a)
    ensures var c := CompareLog(a, b, opts, m, fs)[k].canvas;
      var first := a.pages[i];
      var p := PanelsFor(opts.algorithm, first, b.pages[i], opts.fuzz, m);
      c.background == first &&
      c.width == 3 * first.width && c.height == first.height &&
      c.layers == [Layer(p.middle, first.width, 0), Layer(p.right, 2 * first.width, 0)]
  {
    i := WriteInCompareLog(a, b, opts, m, fs, k);
  }

  // ---------------------------------------------------------------------
  // Consequences under assumptions about the metric

  /** If the metric of a page against itself at zero fuzz is 0, comparing a
      document with itself at zero fuzz totals 0 and, for a non-negative
      tolerance, writes no file. */
  lemma SelfComparison(a: Document, opts: Options, m: Backend, fs: FileSystem)
    requires opts.fuzz == 0.0
    requires forall i :: 0 <= i < |a.pages| ==> m.metric(a.pages[i], a.pages[i], 0.0) == 0.0
    ensures CompareResult(a, a, opts, m, fs).Ok? ==> CompareResult(a, a, opts, m, fs).value == 0.0
    ensures opts.tolerance >= 0.0 ==> Writes(CompareLog(a, a, opts, m, fs)) == []
  {
    var s := Scores(a.pages, a.pages, opts.fuzz, m);
    SumZero(s);
    CompareWrites(a, a, opts, m, fs);
    RenderedExactly(s, opts.tolerance);
    if opts.tolerance >= 0.0 {
      var r := RenderedPages(a, a, opts, m);
      assert forall j :: 0 <= j < |r| ==> r[j] in r;
    }
  }

  /** If the metric is never negative, a comparison that writes a file
      returns a total strictly above the tolerance. */
  lemma WritingImpliesExceeded(a: Document, b: Document, opts: Options, m: Backend, fs: FileSystem)
    requires forall i :: 0 <= i < |a.pages| && i < |b.pages| ==> m.metric(a.pages[i], b.pages[i], opts.fuzz) >= 0.0
    requires Writes(CompareLog(a, b, opts, m, fs)) != []
    ensures CompareResult(a, b, opts, m, fs).Ok?
    ensures CompareResult(a, b, opts, m, fs).value > opts.tolerance
  {
    CompareWrites(a, b, opts, m, fs);
    var s := Scores(a.pages, b.pages, opts.fuzz, m);
    var r := RenderedPages(a, b, opts, m);
    RenderedExactly(s, opts.tolerance);
    assert r[0] in r;
    SumBoundsEach(s, r[0]);
  }
}
