# pdfcomp — a verified model of the comparison core

pdfcomp compares two PDF (or image) files page by page. It loads both
documents with ImageMagick at a common density and scores each page pair with
the absolute-error metric at a configurable fuzz. The scores are summed. When
an output directory is given, every page whose score is above the tolerance
gets a three-panel diff image: the page, a centre panel and a right panel,
chosen by one of three highlighting strategies. The command-line tool exits
with 0 when the total is within the tolerance and 2 when it exceeds it. It
exits with 1 when a document fails to load, the method value is out of range,
or the comparison reports an error.

This project models that core in Dafny and proves what it promises:

- `types.dfy` (module `Types`) holds the value types of `include/pdf.hpp`:
  - the `error` enumeration, as `Error`;
  - the `algorithm` enumeration with its numbering, as `Algorithm`, `Code` and `AlgorithmOf`;
  - the comparison `options` and their defaults, as `Options` and `DefaultOptions`;
  - `tl::expected`, as `Result`.
- `magick.dfy` (module `Magick`) is the interface to ImageMagick and the
  filesystem:
  - an `Image` has a geometry and an opaque raster;
  - a `Canvas` is a background extended to a size, with layers drawn over it;
  - every pixel operation, the document decoder, `fs::canonical` and "is a
    directory after `create_directories`" are function-valued fields of the
    `Backend` and `FileSystem` records, passed in as parameters.
- `format.dfy` (module `Format`) holds the text of the output paths:
  - the decimal printing of a page index, with its parser and a round-trip proof;
  - the POSIX behaviour of `std::filesystem::path::operator/`.
- `pdf.dfy` (module `Pdf`) holds `src/pdf.cpp`:
  - `pdf::from` and `pdf::pages`;
  - the three strategies, as abstract panel constructors;
  - `pdf::compare` as the method `Compare`, which returns the result and the
    sequence of effects it performs: page scored, directories created,
    strategy run, file written.
  - `Compare` is proved equal to two specification functions, `CompareResult`
    and `CompareLog`. It is built from the methods `MeasurePages`,
    `RenderPages`, `RenderPage` and `ComposeCanvas`, each with its own loop
    invariants or contract.
- `pdf_properties.dfy` (module `PdfProperties`) proves about
  `CompareResult` and `CompareLog`:
  - the mismatch error;
  - the sum;
  - the output gating;
  - the exact set of rendered pages and their order;
  - the files written, their paths and sizes;
  - the canvas geometry.
- `cli.dfy` (module `Cli`) covers `main` after argument parsing:
  - the load order;
  - the method check;
  - the options passed on;
  - the mapping of outcomes to exit codes.

Where the code and its documentation disagree, the model follows the code:
- `main` rejects every method value greater than 1 (`src/main.cpp:96`).
  This includes 2, which the help text offers as "double compare". So
  DoubleCompare is reachable only through the library, never from the
  command line. `Cli.Run` states this.

## Model

| member | source | states |
|---|---|---|
| Types.DefaultOptions | include/pdf.hpp:31-40 | The options default to fuzz 0, tolerance 0, the simple algorithm, an empty prefix and no output. |
| Types.Code | include/pdf.hpp:24-29 | The enumerators are numbered by declaration order: simple is 0, difference 1, double_compare 2. |
| Types.AlgorithmOf | src/main.cpp:107 | A byte names an enumerator exactly when it is at most 2, and that enumerator's number is the byte. |
| Types.CodeRoundTrip | src/main.cpp:107 | Casting an enumerator's number back yields the same enumerator. |
| Types.CodeInjective | include/pdf.hpp:24-29 | Distinct enumerators have distinct numbers. |
| Format.Decimal | src/pdf.cpp:155 | The printed index is a non-empty string of decimal digits with no leading zero, except for "0" itself. |
| Format.DecimalRoundTrip | src/pdf.cpp:155 | Parsing the printed index gives the index back. |
| Format.DecimalInjective | src/pdf.cpp:155 | Distinct indices print as distinct strings. |
| Format.Join | src/pdf.cpp:155 | `dir / name` is `name` itself when `name` is absolute. Otherwise it is `dir`, at most one separator, then `name`. |
| Format.JoinPlacesName | src/pdf.cpp:155 | `dir / name` ends with `name`. An absolute name replaces the directory. A relative one follows the directory with at most one separator. |
| Format.JoinInjective | src/pdf.cpp:155 | Joining two names, both relative or both absolute, onto one directory gives equal paths only for equal names. |
| Pdf.Pages | src/pdf.cpp:40-43 | The page count is the length of the page sequence. |
| Pdf.From | src/pdf.cpp:162-196 | Loading fails only with `bad_file`. It succeeds exactly when the path canonicalises and the decoder reads it at the given density. The document's pages are the decoded images. |
| Pdf.SimplePanels | src/pdf.cpp:45-57 | The right panel is the second page recoloured (transparent low-light, blue highlight). The centre panel is the difference image of the first page against it, at the fuzz the scoring loop left on the first page. |
| Pdf.DifferencePanels | src/pdf.cpp:59-71 | The centre panel is the change mask of the second page over a copy of the first. The right panel is the difference image of the first page, low-light cleared, against the second. Both carry the first page's fuzz. |
| Pdf.DoubleComparePanels | src/pdf.cpp:73-85 | The second page is recoloured. The centre panel compares the first page against it, and the right panel compares it against the first page, both at the first page's fuzz. |
| Pdf.PanelsFor | src/pdf.cpp:129-142 | Each configured algorithm runs its own strategy on the page pair. |
| Pdf.StrategiesShareCentre | src/pdf.cpp:45-85 | Simple and double-compare draw the same centre panel (the first page against the recoloured second). Simple shows the recoloured second page on the right. Double-compare shows the comparison in the other direction on the right. |
| Pdf.FilePathInjective | src/pdf.cpp:155 | Different page indices are written to different paths, for every directory and prefix. |
| Pdf.WritesAppend | src/pdf.cpp:156 | The files written by two effect sequences run one after the other are those of the first, then those of the second. |
| Pdf.Scores | src/pdf.cpp:94-100 | There is one score per page pair. Score i is the metric of page i of the first document against page i of the second, at the configured fuzz. |
| Pdf.Sum | src/pdf.cpp:102 | The accumulation starts from 0: no scores sum to 0 and a single score sums to itself. |
| Pdf.SumAppend | src/pdf.cpp:102 | The left-to-right sum from 0 distributes over concatenation. |
| Pdf.SumBoundsEach | src/pdf.cpp:102 | A sum of non-negative scores is at least each of them, and is itself non-negative. |
| Pdf.SumNonNegative | src/pdf.cpp:102 | A sum of non-negative scores is non-negative. |
| Pdf.SumZero | src/pdf.cpp:102 | A sum of zero scores is zero. |
| Pdf.Rendered | src/pdf.cpp:119-124 | The list of rendered pages is no longer than the score list and names only existing pages. |
| Pdf.RenderedExactly | src/pdf.cpp:119-124 | Page k is rendered if and only if its score is strictly greater than the tolerance. A score equal to the tolerance is not rendered. |
| Pdf.RenderedAscending | src/pdf.cpp:119 | Rendered pages come in strictly ascending order, so each page comes once. |
| Pdf.RenderLogLength | src/pdf.cpp:119-157 | Rendering n pages performs exactly 2n effects. |
| Pdf.RenderLogAt | src/pdf.cpp:126-156 | For the j-th rendered page, effect 2j runs the configured strategy on it. Effect 2j+1 writes its canvas to `output / (prefix + index + ".png")`. |
| Pdf.RenderedSnoc | src/pdf.cpp:119-124 | One more score adds its index to the rendered list exactly when it exceeds the tolerance. |
| Pdf.RenderLogSnoc | src/pdf.cpp:119-157 | Rendering one more page appends exactly that page's strategy run and write. |
| Pdf.RenderLogGrows | src/pdf.cpp:119-157 | One loop pass adds the page's two effects when its score exceeds the tolerance, and nothing otherwise. |
| Pdf.CompareResult | src/pdf.cpp:87-160 | The result is `mismatching_pages` exactly when the page counts differ. It is `bad_directory` exactly when the counts agree and the output is given but is not a directory after creation. It is never `bad_file`. A success is the sum of the per-page scores. |
| Pdf.CompareLog | src/pdf.cpp:87-160 | Nothing happens when the page counts differ. Otherwise the comparison begins by scoring every page once, in page order, and without an output it does nothing more. |
| Pdf.MeasurePages | src/pdf.cpp:94-100 | The scoring loop returns the per-page scores and measures the pages once each, in page order. |
| Pdf.ComposeCanvas | src/pdf.cpp:144-153 | The canvas is the page extended to 3 × width at the page's height. The centre panel is drawn at (width, 0), then the right panel at (2 × width, 0). |
| Pdf.RenderPage | src/pdf.cpp:126-156 | Rendering one page runs the configured strategy, then writes that page's canvas to its path. |
| Pdf.RenderPages | src/pdf.cpp:119-157 | The rendering loop runs and writes exactly the pages whose score exceeds the tolerance, in index order. |
| Pdf.Compare | src/pdf.cpp:87-160 | The method returns `CompareResult` and performs exactly the effects of `CompareLog`. |
| PdfProperties.NoWrites | src/pdf.cpp:156 | A sequence of effects with no write writes no file. |
| PdfProperties.WritesOfStep | src/pdf.cpp:147-156 | Rendering one page writes one file, at its path, 3 × page width wide and one page high. |
| PdfProperties.WritesOfRenderLog | src/pdf.cpp:119-157 | Rendering a list of pages writes one file per page, in list order, each at its page's path with the canvas size. |
| PdfProperties.HighlightedInRenderLog | src/pdf.cpp:126-142 | A strategy runs on page i with algorithm `alg` exactly when i is rendered and `alg` is the configured algorithm. |
| PdfProperties.MismatchedPages | src/pdf.cpp:89-92 | The result is `mismatching_pages` if and only if the page counts differ. Then no page is scored and nothing is written. `compare` never returns `bad_file`. |
| PdfProperties.TotalIsSumOfScores | src/pdf.cpp:94-102 | A successful result is the sum, from 0 and in page order, of the metric of each page pair at the configured fuzz. |
| PdfProperties.ToleranceGatesOnlyRendering | src/pdf.cpp:102-159 | Two successful comparisons with the same fuzz return the same total, whatever their tolerance, prefix, algorithm or output. |
| PdfProperties.WithoutOutput | src/pdf.cpp:104-107 | Without output, the total is returned after the scoring loop. The only effects are the page scores, in order. No strategy runs and no file is written. |
| PdfProperties.BadOutputDirectory | src/pdf.cpp:111-117 | An output that is not a directory after the creation attempt gives `bad_directory`, whatever the scores. The creation attempt follows the scoring loop, and nothing is written. |
| PdfProperties.WritesFollowDirectory | src/pdf.cpp:104-119 | With equal page counts and an output given, the step right after the scoring loop creates the output directories, whether or not any page exceeds the tolerance. A write happens only when the page counts agree and the output is a usable directory, and only after that step. |
| PdfProperties.HighlightedExactly | src/pdf.cpp:119-142 | A strategy runs on page i exactly when the page counts agree, a usable output directory is given and the page's score is strictly greater than the tolerance. It is always the configured strategy. |
| PdfProperties.CompareWrites | src/pdf.cpp:119-157 | No file is written unless the page counts agree and the output is usable. Otherwise one file is written per page above the tolerance, in ascending page order, at `output / (prefix + index + ".png")`, 3 × page width by page height. |
| PdfProperties.OneFilePerPageAboveTolerance | src/pdf.cpp:119-156 | With a usable output, a file is written at page i's path if and only if its score exceeds the tolerance. No two writes share a path. |
| PdfProperties.WroteInRenderLog | src/pdf.cpp:126-156 | In a rendering log every write is the second effect of some page's pair. |
| PdfProperties.WriteInCompareLog | src/pdf.cpp:119-156 | Every write in a comparison belongs to a page above the tolerance. It comes right after the configured strategy ran on that page, and writes that page's canvas to that page's path. |
| PdfProperties.WriteInRendering | src/pdf.cpp:119-156 | The same, for a log made of the scoring steps, the directory creation and the rendering loop. |
| PdfProperties.WrittenCanvas | src/pdf.cpp:144-153 | Every written canvas is page i extended to 3 × width at its height. It carries the strategy's centre panel at (width, 0) and its right panel at (2 × width, 0). |
| PdfProperties.SelfComparison | src/pdf.cpp:94-124 | If the metric of a page against itself at zero fuzz is 0, comparing a document with itself at zero fuzz totals 0. With a non-negative tolerance it writes no file. |
| PdfProperties.WritingImpliesExceeded | src/pdf.cpp:94-124 | If the metric is never negative, a comparison that writes any file succeeds with a total strictly above the tolerance. |
| Cli.DefaultsAgree | src/main.cpp:12-53 | With no option given, `main` passes the library's default options: fuzz 0, tolerance 0, simple, empty prefix, no output. It loads at density "100%x100%". |
| Cli.Run | src/main.cpp:79-138 | The first document is loaded first; if it fails, the exit is 1 and nothing else happens. The second is loaded next at the same density; if it fails, the exit is 1. The method is checked only after both loads, and a value above 1 exits 1 before comparing. Otherwise `compare` runs once with the parsed fuzz, tolerance, prefix and method, and with the output only when its flag was given. Its error exits 1. A total above the tolerance exits 2, any other total 0. Whenever `main` returns, the exit code is 0, 1 or 2. |
| Cli.OptionsOf | src/main.cpp:102-110 | `compare` gets the parsed fuzz, tolerance and prefix and the method cast to the enumeration. It gets the output path only when the output flag was given. |
| Cli.ExitCode | src/main.cpp:112-138 | The exit code is 0, 1 or 2. It is 1 exactly for a comparison error, 2 exactly for a total above the tolerance, and 0 otherwise. |
| Cli.CompareNeverBadFile | src/main.cpp:112-128 | Once both documents have loaded, `compare` can fail only with `bad_directory` or `mismatching_pages`, so the unreachable default branch is never taken. |
| Cli.WrittenFilesMeanExitTwo | src/main.cpp:130-134 | If the metric is never negative, a comparison that writes any diff image ends with exit code 2. |

## Left out

- ImageMagick's pixel semantics are not modelled:
  - the metric, the difference images, `composite` with `ChangeMask` and `Atop`, `extent` and the PNG encoding are opaque functions or records;
  - a `Canvas` records the background, size and layers, not pixels.
- Image settings that the code changes in place are not modelled as state:
  - the colour fuzz that the scoring loop sets on each page of the first document stays on that page, so every strategy's difference images and the change mask are computed with it. The model passes the configured fuzz to those operations explicitly;
  - `lowlightColor` and `highlightColor` in the strategies are folded into the opaque `recolored` and `lowlightCleared` operations.
  - As a result the model does not distinguish a page from the same page with changed settings. That includes the canvas background, which is a copy of the page carrying its fuzz and, after the Difference strategy, its cleared low-light colour. It also does not capture that these changes persist in the loaded documents after `compare` returns.
- `std::call_once` with `InitializeMagick` is process-wide startup whose point is concurrency.
- The exception `fs::create_directories` may throw is not modelled. Only the result of the directory check that follows it is.
- Command-line parsing with clap, the help and version exits, and every message printed to stdout or stderr are left out. `Run` starts from the parsed `args` record.
- Scores, fuzz and tolerance are Dafny `real`: IEEE `double` rounding in the sum and in the comparisons is not modelled.
- NaN is not modelled. Because the loop skips a page only when `difference <= tolerance`, a NaN tolerance or score would render that page. The final `total > tolerance` test is then false, so `main` would still exit 0. The model's `>` gate and its exit rule agree with this for every real value, but not for NaN.
- Exceptions thrown by ImageMagick are not modelled. This covers `compare`, `extent`, `composite` and `write`, for example on an output file that cannot be written. Nothing catches them, so they escape `compare` and `main` and end the process in `std::terminate`. The files already written stay, and there is no exit code 0, 1 or 2. The model treats these operations as total.
- `size.width() * 3`, `* 2` and the `ssize_t` casts are unbounded integers: `size_t` overflow is not modelled.
- The pimpl copy and move constructors are not modelled; `Document` is a value.
- Paired pages of different sizes: the code does not check it, and the model leaves it unspecified.
- `Format.Join` models POSIX path joining only: Windows root names and `\` separators are not modelled.
- Monotonicity of the result in the fuzz value is a property of the metric, which is opaque here, so it is not stated.
