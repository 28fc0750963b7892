/** The comparison library (src/pdf.cpp): loading a document, the three
    highlighting strategies and the page-by-page comparison. */
module Pdf {
  import opened Types
  import opened Magick
  import Format

  /** A loaded document: its pages, in order. */
  datatype Document = Document(pages: seq<Image>)

  /** `pdf::pages`: the number of pages. */
  function Pages(d: Document): (n: nat)
    ensures n == |d.pages|
  {
    |d.pages|
  }

  /** `pdf::from`: canonicalise the path, then decode it at `density`; either
      step failing is reported as `BadFile`. */
  function From(path: Path, density: string, m: Backend, fs: FileSystem): (r: Result<Document>)
    ensures r.Err? ==> r.error == BadFile
    ensures r.Ok? <==> fs.canonical(path).Some? && m.readImages(fs.canonical(path).value, density).Some?
    ensures r.Ok? ==> r.value.pages == m.readImages(fs.canonical(path).value, density).value
  {
    match fs.canonical(path)
    case None => Err(BadFile)
    case Some(canonical) =>
      match m.readImages(canonical, density)
      case None => Err(BadFile)
      case Some(pages) => Ok(Document(pages))
  }

  // ---------------------------------------------------------------------
  // Highlighting strategies

  /** The centre and right panels of one output canvas. */
  datatype Panels = Panels(middle: Image, right: Image)

  /** Simple: the second page recoloured; the centre is the first page's
      difference image against it, the right is the recoloured page itself. */
  function SimplePanels(first: Image, second: Image, fuzz: real, m: Backend): (p: Panels)
    ensures p.right == m.recolored(second)
    ensures p.middle == m.highlighted(first, p.right, fuzz)
  {
    var recolored := m.recolored(second);
    Panels(m.highlighted(first, recolored, fuzz), recolored)
  }

  /** Difference: the centre is the change mask of the second page over an
      untouched copy of the first; the right is the difference image of the
      first page, low-light cleared, against the second. */
  function DifferencePanels(first: Image, second: Image, fuzz: real, m: Backend): (p: Panels)
    ensures p.middle == m.changeMask(first, second, fuzz)
    ensures p.right == m.highlighted(m.lowlightCleared(first), second, fuzz)
  {
    Panels(m.changeMask(first, second, fuzz), m.highlighted(m.lowlightCleared(first), second, fuzz))
  }

  /** DoubleCompare: the second page recoloured; the centre compares the first
      page against it, the right compares it against the first page. */
  function DoubleComparePanels(first: Image, second: Image, fuzz: real, m: Backend): (p: Panels)
    ensures p.middle == m.highlighted(first, m.recolored(second), fuzz)
    ensures p.right == m.highlighted(m.recolored(second), first, fuzz)
  {
    var recolored := m.recolored(second);
    Panels(m.highlighted(first, recolored, fuzz), m.highlighted(recolored, first, fuzz))
  }

  /** The `switch` on the configured algorithm: each algorithm runs its own
      strategy. */
  function PanelsFor(algorithm: Algorithm, first: Image, second: Image, fuzz: real, m: Backend): (p: Panels)
    ensures algorithm == Simple ==> p == SimplePanels(first, second, fuzz, m)
    ensures algorithm == Difference ==> p == DifferencePanels(first, second, fuzz, m)
    ensures algorithm == DoubleCompare ==> p == DoubleComparePanels(first, second, fuzz, m)
  {
    match algorithm
    case Simple => SimplePanels(first, second, fuzz, m)
    case Difference => DifferencePanels(first, second, fuzz, m)
    case DoubleCompare => DoubleComparePanels(first, second, fuzz, m)
  }

  /** Simple and DoubleCompare draw the same centre panel and differ only on
      the right, where Simple shows the recoloured second page and
      DoubleCompare the comparison in the opposite direction. */
  lemma StrategiesShareCentre(first: Image, second: Image, fuzz: real, m: Backend)
    ensures PanelsFor(Simple, first, second, fuzz, m).middle == PanelsFor(DoubleCompare, first, second, fuzz, m).middle
    ensures PanelsFor(Simple, first, second, fuzz, m).right == m.recolored(second)
    ensures PanelsFor(DoubleCompare, first, second, fuzz, m).right == m.highlighted(m.recolored(second), first, fuzz)
  {
  }

  /** The output canvas of one page: the page extended to three times its
      width, with the centre panel drawn at x = width and the right panel at
      x = 2 * width. */
  function PageCanvas(first: Image, p: Panels): Canvas {
    Canvas(first, 3 * first.width, first.height,
           [Layer(p.middle, first.width, 0), Layer(p.right, 2 * first.width, 0)])
  }

  // ---------------------------------------------------------------------
  // Output files

  /** `prefix` followed by the decimal page index and `.png`. */
  function FileName(prefix: string, index: nat): string {
    prefix + Format.Decimal(index) + ".png"
  }

  /** `output / FileName(prefix, index)`. */
  function FilePath(dir: Path, prefix: string, index: nat): Path {
    Format.Join(dir, FileName(prefix, index))
  }

  /** Different pages are written to different files. */
  lemma FilePathInjective(dir: Path, prefix: string, i: nat, j: nat)
    ensures FilePath(dir, prefix, i) == FilePath(dir, prefix, j) ==> i == j
  {
    var x, y := FileName(prefix, i), FileName(prefix, j);
    if prefix == [] {
      assert x[0] == Format.Decimal(i)[0] && y[0] == Format.Decimal(j)[0];
    } else {
      assert x[0] == prefix[0] && y[0] == prefix[0];
    }
    Format.JoinInjective(dir, x, y);
    if x == y {
      assert x[|prefix|..|x| - 4] == Format.Decimal(i);
      assert y[|prefix|..|y| - 4] == Format.Decimal(j);
      Format.DecimalInjective(i, j);
    }
  }

  // ---------------------------------------------------------------------
  // What one comparison does

  /** The observable steps of a comparison, in the order they happen. */
  datatype Effect =
    | Measured(index: nat)                          // metric of page `index`
    | CreatedDirectories(dir: Path)                 // `fs::create_directories`
    | Highlighted(index: nat, algorithm: Algorithm) // strategy run on page `index`
    | Wrote(path: Path, canvas: Canvas)             // `canvas.write(path)`

  /** A written file: its path and the size of the image in it. */
  datatype FileWrite = FileWrite(path: Path, width: nat, height: nat)

  /** The files a sequence of effects writes, in order. */
  function Writes(log: seq<Effect>): seq<FileWrite> {
    if log == [] then []
    else
      var e := log[|log| - 1];
      Writes(log[..|log| - 1]) + if e.Wrote? then [FileWrite(e.path, e.canvas.width, e.canvas.height)] else []
  }

  lemma {:induction false} WritesAppend(x: seq<Effect>, y: seq<Effect>)
    ensures Writes(x + y) == Writes(x) + Writes(y)
    decreases |y|
  {
    if y == [] {
      assert x + y == x;
    } else {
      WritesAppend(x, y[..|y| - 1]);
      assert (x + y)[..|x + y| - 1] == x + y[..|y| - 1];
    }
  }

  /** The per-page scores, page by page. */
  function Scores(a: seq<Image>, b: seq<Image>, fuzz: real, m: Backend): (r: seq<real>)
    requires |a| == |b|
    ensures |r| == |a|
    ensures forall i :: 0 <= i < |a| ==> r[i] == m.metric(a[i], b[i], fuzz)
  {
    if a == [] then [] else [m.metric(a[0], b[0], fuzz)] + Scores(a[1..], b[1..], fuzz, m)
  }

  /** `std::accumulate(..., 0.0)`: the sum of the scores, added from the first
      to the last. */
  function Sum(xs: seq<real>): (s: real)
    ensures xs == [] ==> s == 0.0
    ensures |xs| == 1 ==> s == xs[0]
  {
    if xs == [] then 0.0 else Sum(xs[..|xs| - 1]) + xs[|xs| - 1]
  }

  lemma {:induction false} SumAppend(xs: seq<real>, ys: seq<real>)
    ensures Sum(xs + ys) == Sum(xs) + Sum(ys)
    decreases |ys|
  {
    if ys == [] {
      assert xs + ys == xs;
    } else {
      SumAppend(xs, ys[..|ys| - 1]);
      assert (xs + ys)[..|xs + ys| - 1] == xs + ys[..|ys| - 1];
    }
  }

  /** A sum of non-negative scores is at least each of them. */
  lemma {:induction false} SumBoundsEach(xs: seq<real>, k: nat)
    requires forall i :: 0 <= i < |xs| ==> xs[i] >= 0.0
    requires k < |xs|
    ensures Sum(xs) >= xs[k] >= 0.0
    decreases |xs|
  {
    var n := |xs| - 1;
    SumNonNegative(xs[..n]);
    if k < n {
      SumBoundsEach(xs[..n], k);
    }
  }

  lemma {:induction false} SumNonNegative(xs: seq<real>)
    requires forall i :: 0 <= i < |xs| ==> xs[i] >= 0.0
    ensures Sum(xs) >= 0.0
    decreases |xs|
  {
    if xs != [] {
      SumNonNegative(xs[..|xs| - 1]);
    }
  }

  lemma {:induction false} SumZero(xs: seq<real>)
    requires forall i :: 0 <= i < |xs| ==> xs[i] == 0.0
    ensures Sum(xs) == 0.0
    decreases |xs|
  {
    if xs != [] {
      SumZero(xs[..|xs| - 1]);
    }
  }

  /** The indices of the pages to render: those whose score is strictly above
      the tolerance, in ascending order (see RenderedExactly). */
  function Rendered(diffs: seq<real>, tolerance: real): (r: seq<nat>)
    ensures |r| <= |diffs|
    ensures forall j :: 0 <= j < |r| ==> r[j] < |diffs|
  {
    if diffs == [] then []
    else
      var n := |diffs| - 1;
      Rendered(diffs[..n], tolerance) + if diffs[n] > tolerance then [n] else []
  }

  /** A page is rendered if and only if its score is strictly greater than the
      tolerance; a score equal to it is not rendered. */
  lemma {:induction false} RenderedExactly(diffs: seq<real>, tolerance: real)
    ensures forall k: nat :: k in Rendered(diffs, tolerance) <==> k < |diffs| && diffs[k] > tolerance
    decreases |diffs|
  {
    if diffs != [] {
      var n := |diffs| - 1;
      RenderedExactly(diffs[..n], tolerance);
      var r0 := Rendered(diffs[..n], tolerance);
      assert Rendered(diffs, tolerance) == r0 + if diffs[n] > tolerance then [n] else [];
      forall k: nat ensures k in Rendered(diffs, tolerance) <==> k < |diffs| && diffs[k] > tolerance {
        if k < n {
          assert diffs[..n][k] == diffs[k];
        }
      }
    }
  }

  /** The rendered pages come in ascending page order, so each comes once. */
  lemma {:induction false} RenderedAscending(diffs: seq<real>, tolerance: real)
    ensures forall i, j :: 0 <= i < j < |Rendered(diffs, tolerance)| ==>
      Rendered(diffs, tolerance)[i] < Rendered(diffs, tolerance)[j]
    decreases |diffs|
  {
    if diffs != [] {
      var n := |diffs| - 1;
      RenderedAscending(diffs[..n], tolerance);
      var r0 := Rendered(diffs[..n], tolerance);
      var r := Rendered(diffs, tolerance);
      assert r == r0 + if diffs[n] > tolerance then [n] else [];
      forall i, j | 0 <= i < j < |r| ensures r[i] < r[j] {
        assert r[i] == r0[i];
        if j < |r0| {
          assert r[j] == r0[j];
          assert r0[i] < r0[j];
        } else {
          assert r0[i] < |diffs[..n]|;
          assert r[j] == n;
        }
      }
    }
  }

  /** The effects of rendering one page. */
  function RenderStep(a: seq<Image>, b: seq<Image>, opts: Options, dir: Path, m: Backend, i: nat): seq<Effect>
    requires i < |a| && i < |b|
  {
    [Highlighted(i, opts.algorithm),
     Wrote(FilePath(dir, opts.prefix, i), PageCanvas(a[i], PanelsFor(opts.algorithm, a[i], b[i], opts.fuzz, m)))]
  }

  /** The effects of rendering the pages `idx`, in that order: for each, the
      strategy run and then the one file written for it. */
  function RenderLog(a: seq<Image>, b: seq<Image>, opts: Options, dir: Path, m: Backend, idx: seq<nat>): seq<Effect>
    requires forall j :: 0 <= j < |idx| ==> idx[j] < |a| && idx[j] < |b|
  {
    if idx == [] then []
    else RenderLog(a, b, opts, dir, m, idx[..|idx| - 1]) + RenderStep(a, b, opts, dir, m, idx[|idx| - 1])
  }

  lemma {:induction false} RenderLogLength(a: seq<Image>, b: seq<Image>, opts: Options, dir: Path, m: Backend, idx: seq<nat>)
    requires forall j :: 0 <= j < |idx| ==> idx[j] < |a| && idx[j] < |b|
    ensures |RenderLog(a, b, opts, dir, m, idx)| == 2 * |idx|
    decreases |idx|
  {
    if idx != [] {
      RenderLogLength(a, b, opts, dir, m, idx[..|idx| - 1]);
    }
  }

  /** Position by position: the strategy run for the j-th index is followed by
      the file written for it. */
  lemma {:induction false} RenderLogAt(a: seq<Image>, b: seq<Image>, opts: Options, dir: Path, m: Backend, idx: seq<nat>, j: nat)
    requires forall j :: 0 <= j < |idx| ==> idx[j] < |a| && idx[j] < |b|
    requires j < |idx|
    ensures |RenderLog(a, b, opts, dir, m, idx)| == 2 * |idx|
    ensures RenderLog(a, b, opts, dir, m, idx)[2 * j] == Highlighted(idx[j], opts.algorithm)
    ensures RenderLog(a, b, opts, dir, m, idx)[2 * j + 1] ==
      Wrote(FilePath(dir, opts.prefix, idx[j]), PageCanvas(a[idx[j]], PanelsFor(opts.algorithm, a[idx[j]], b[idx[j]], opts.fuzz, m)))
    decreases |idx|
  {
    var n := |idx| - 1;
    RenderLogLength(a, b, opts, dir, m, idx);
    RenderLogLength(a, b, opts, dir, m, idx[..n]);
    if j < n {
      RenderLogAt(a, b, opts, dir, m, idx[..n], j);
    }
  }

  lemma RenderedSnoc(diffs: seq<real>, index: nat, tolerance: real)
    requires index < |diffs|
    ensures Rendered(diffs[..index + 1], tolerance) ==
      if diffs[index] > tolerance then Rendered(diffs[..index], tolerance) + [index]
      else Rendered(diffs[..index], tolerance)
  {
    assert diffs[..index + 1][..index] == diffs[..index];
    var r := Rendered(diffs[..index], tolerance);
    assert r + [] == r;
  }

  lemma RenderLogSnoc(a: seq<Image>, b: seq<Image>, opts: Options, dir: Path, m: Backend, idx: seq<nat>, i: nat)
    requires forall j :: 0 <= j < |idx| ==> idx[j] < |a| && idx[j] < |b|
    requires i < |a| && i < |b|
    ensures RenderLog(a, b, opts, dir, m, idx + [i]) == RenderLog(a, b, opts, dir, m, idx) + RenderStep(a, b, opts, dir, m, i)
  {
    assert (idx + [i])[..|idx|] == idx;
  }

  /** Taking one more score into account appends that page's step exactly
      when the score exceeds the tolerance. */
  lemma RenderLogGrows(a: seq<Image>, b: seq<Image>, diffs: seq<real>, opts: Options, dir: Path, m: Backend, index: nat)
    requires |a| == |b| == |diffs| && index < |diffs|
    ensures RenderLog(a, b, opts, dir, m, Rendered(diffs[..index + 1], opts.tolerance)) ==
      RenderLog(a, b, opts, dir, m, Rendered(diffs[..index], opts.tolerance)) +
      (if diffs[index] > opts.tolerance then RenderStep(a, b, opts, dir, m, index) else [])
  {
    var done := Rendered(diffs[..index], opts.tolerance);
    RenderedSnoc(diffs, index, opts.tolerance);
    if diffs[index] > opts.tolerance {
      RenderLogSnoc(a, b, opts, dir, m, done, index);
    } else {
      var log := RenderLog(a, b, opts, dir, m, done);
      assert log + [] == log;
    }
  }

  /** The metric is taken once per page, in page order. */
  function MeasureLog(n: nat): seq<Effect> {
    seq(n, i requires 0 <= i < n => Measured(i))
  }

  /** What `compare` returns. */
  function CompareResult(a: Document, b: Document, opts: Options, m: Backend, fs: FileSystem): (r: Result<real>)
    ensures r == Err(MismatchingPages) <==> Pages(a) != Pages(b)
    ensures r == Err(BadDirectory) <==>
      Pages(a) == Pages(b) && opts.output.Some? && !fs.isDirectoryAfterCreate(opts.output.value)
    ensures r != Err(BadFile)
    ensures r.Ok? ==> Pages(a) == Pages(b) && r.value == Sum(Scores(a.pages, b.pages, opts.fuzz, m))
  {
    if Pages(a) != Pages(b) then Err(MismatchingPages)
    else
      var total := Sum(Scores(a.pages, b.pages, opts.fuzz, m));
      match opts.output
      case None => Ok(total)
      case Some(dir) => if fs.isDirectoryAfterCreate(dir) then Ok(total) else Err(BadDirectory)
  }

  /** What `compare` does, step by step. */
  function CompareLog(a: Document, b: Document, opts: Options, m: Backend, fs: FileSystem): (r: seq<Effect>)
    ensures Pages(a) != Pages(b) ==> r == []
    ensures Pages(a) == Pages(b) ==> Pages(a) <= |r| && r[..Pages(a)] == MeasureLog(Pages(a))
    ensures Pages(a) == Pages(b) && opts.output.None? ==> |r| == Pages(a)
  {
    if Pages(a) != Pages(b) then []
    else
      match opts.output
      case None => MeasureLog(Pages(a))
      case Some(dir) =>
        if fs.isDirectoryAfterCreate(dir)
        then MeasureLog(Pages(a)) + [CreatedDirectories(dir)] +
             RenderLog(a.pages, b.pages, opts, dir, m, Rendered(Scores(a.pages, b.pages, opts.fuzz, m), opts.tolerance))
        else MeasureLog(Pages(a)) + [CreatedDirectories(dir)]
  }

  /** The scoring loop of `compare`: the metric of each page pair, in page
      order. */
  method MeasurePages(a: seq<Image>, b: seq<Image>, fuzz: real, m: Backend)
    returns (diffs: seq<real>, log: seq<Effect>)
    requires |a| == |b|
    ensures diffs == Scores(a, b, fuzz, m)
    ensures log == MeasureLog(|a|)
  {
    diffs, log := [], [];
    var i := 0;
    while i < |a|
      invariant 0 <= i <= |a|
      invariant |diffs| == i
      invariant forall j :: 0 <= j < i ==> diffs[j] == m.metric(a[j], b[j], fuzz)
      invariant log == MeasureLog(i)
    {
      diffs := diffs + [m.metric(a[i], b[i], fuzz)];
      log := log + [Measured(i)];
      i := i + 1;
    }
  }

  /** Copy the page, extend it to three page widths and draw the two panels
      over it with `Atop`, the centre one a page width to the right and the
      other two page widths to the right. */
  method ComposeCanvas(first: Image, panels: Panels) returns (canvas: Canvas)
    ensures canvas == PageCanvas(first, panels)
  {
    canvas := Canvas(first, first.width, first.height, []);
    canvas := canvas.(width := first.width * 3);
    canvas := canvas.(layers := canvas.layers + [Layer(panels.middle, first.width, 0)]);
    canvas := canvas.(layers := canvas.layers + [Layer(panels.right, first.width * 2, 0)]);
  }

  /** One pass of the rendering loop for a page above the tolerance: run the
      configured strategy, compose the canvas and write it to
      `output / (prefix + index + ".png")`. */
  method RenderPage(a: seq<Image>, b: seq<Image>, opts: Options, output: Path, m: Backend, index: nat)
    returns (step: seq<Effect>)
    requires index < |a| && index < |b|
    ensures step == RenderStep(a, b, opts, output, m, index)
  {
    var first, second := a[index], b[index];
    var panels := PanelsFor(opts.algorithm, first, second, opts.fuzz, m);
    var canvas := ComposeCanvas(first, panels);
    var path := Format.Join(output, opts.prefix + Format.Decimal(index) + ".png");
    step := [Highlighted(index, opts.algorithm), Wrote(path, canvas)];
  }

  /** The rendering loop of `compare`: every page whose score is above the
      tolerance gets its panels and a canvas written to the output directory;
      the others are skipped. */
  method RenderPages(a: seq<Image>, b: seq<Image>, diffs: seq<real>, opts: Options, output: Path, m: Backend)
    returns (log: seq<Effect>)
    requires |a| == |b| == |diffs|
    ensures log == RenderLog(a, b, opts, output, m, Rendered(diffs, opts.tolerance))
  {
    log := [];
    var index := 0;
    while index < |diffs|
      invariant 0 <= index <= |diffs|
      invariant log == RenderLog(a, b, opts, output, m, Rendered(diffs[..index], opts.tolerance))
    {
      RenderLogGrows(a, b, diffs, opts, output, m, index);
      if diffs[index] > opts.tolerance {
        var step := RenderPage(a, b, opts, output, m, index);
        log := log + step;
      }
      index := index + 1;
    }
    assert diffs[..|diffs|] == diffs;
  }

  /** `pdf::compare`: score every page pair, sum the scores and, when an output
      directory is given, write a three-panel image for each page whose score
      exceeds the tolerance. */
  method Compare(a: Document, b: Document, opts: Options, m: Backend, fs: FileSystem)
    returns (r: Result<real>, log: seq<Effect>)
    ensures r == CompareResult(a, b, opts, m, fs)
    ensures log == CompareLog(a, b, opts, m, fs)
  {
    if |a.pages| != |b.pages| {
      return Err(MismatchingPages), [];
    }

    var diffs;
    diffs, log := MeasurePages(a.pages, b.pages, opts.fuzz, m);
    var total := Sum(diffs);
    if opts.output.None? {
      return Ok(total), log;
    }

    var output := opts.output.value;
    log := log + [CreatedDirectories(output)];
    if !fs.isDirectoryAfterCreate(output) {
      return Err(BadDirectory), log;
    }

    var rendered := RenderPages(a.pages, b.pages, diffs, opts, output, m);
    log := log + rendered;
    return Ok(total), log;
  }
}
