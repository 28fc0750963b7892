/** The command-line tool (src/main.cpp) after its arguments are parsed: load
    both documents, check the method, compare, and choose the exit code. */
module Cli {
  import opened Types
  import opened Magick
  import opened Pdf
  import PdfProperties

  /** One parsed option: its value (the default when not given) and whether
      it was given. */
  datatype Setting<T> = Setting(value: T, enabled: bool)

  /** The `args` record the parser fills. */
  datatype Args = Args(
    first: Path,
    second: Path,
    output: Setting<Path>,
    density: Setting<string>,
    prefix: Setting<string>,
    fuzz: Setting<real>,
    tolerance: Setting<real>,
    algorithm: Setting<byte>)

  const DefaultDensity: string := "100%x100%"

  /** `args` as initialised, before any option is parsed. */
  function DefaultArgs(first: Path, second: Path): Args {
    Args(first, second,
         Setting("", false), Setting(DefaultDensity, false), Setting("", false),
         Setting(0.0, false), Setting(0.0, false), Setting(0, false))
  }

  /** The options `main` builds for `compare`: the output directory only when
      the flag was given, and the method cast to the enumeration. */
  function OptionsOf(args: Args): (opts: Options)
    requires args.algorithm.value <= 2
    ensures opts.fuzz == args.fuzz.value && opts.tolerance == args.tolerance.value && opts.prefix == args.prefix.value
    ensures Code(opts.algorithm) == args.algorithm.value
    ensures opts.output.Some? <==> args.output.enabled
    ensures opts.output.Some? ==> opts.output.value == args.output.value
  {
    Options(args.fuzz.value, args.tolerance.value, AlgorithmOf(args.algorithm.value).value, args.prefix.value,
            if args.output.enabled then Some(args.output.value) else None)
  }

  /** With no options given, `main` compares with the library's default
      options, and reads both documents at 100% density. */
  lemma DefaultsAgree(first: Path, second: Path)
    ensures DefaultArgs(first, second).algorithm.value <= 2
    ensures OptionsOf(DefaultArgs(first, second)) == DefaultOptions
    ensures DefaultArgs(first, second).density.value == "100%x100%"
  {
  }

  /** The steps of `main` that reach the library. */
  datatype Stage =
    | Loading(path: Path, density: string)
    | Comparing(opts: Options)

  function FirstDocument(args: Args, m: Backend, fs: FileSystem): Result<Document> {
    From(args.first, args.density.value, m, fs)
  }

  function SecondDocument(args: Args, m: Backend, fs: FileSystem): Result<Document> {
    From(args.second, args.density.value, m, fs)
  }

  /** The exit status for a comparison outcome. */
  function ExitCode(diff: Result<real>, tolerance: real): (code: int)
    ensures code == 0 || code == 1 || code == 2
    ensures code == 1 <==> diff.Err?
    ensures code == 2 <==> diff.Ok? && diff.value > tolerance
  {
    if diff.Err? then 1 else if diff.value > tolerance then 2 else 0
  }

  /** `main` from the end of argument parsing on. */
  method Run(args: Args, m: Backend, fs: FileSystem) returns (code: int, stages: seq<Stage>, effects: seq<Effect>)
    ensures code == 0 || code == 1 || code == 2
    // the first document is always loaded first; when it fails nothing else happens
    ensures 1 <= |stages| <= 3 && stages[0] == Loading(args.first, args.density.value)
    ensures FirstDocument(args, m, fs).Err? ==> code == 1 && |stages| == 1 && effects == []
    // the second is loaded next, at the same density
    ensures FirstDocument(args, m, fs).Ok? ==> |stages| >= 2 && stages[1] == Loading(args.second, args.density.value)
    ensures FirstDocument(args, m, fs).Ok? && SecondDocument(args, m, fs).Err? ==>
      code == 1 && |stages| == 2 && effects == []
    // the method is checked only once both documents are loaded
    ensures FirstDocument(args, m, fs).Ok? && SecondDocument(args, m, fs).Ok? && args.algorithm.value > 1 ==>
      code == 1 && |stages| == 2 && effects == []
    ensures |stages| == 3 <==>
      FirstDocument(args, m, fs).Ok? && SecondDocument(args, m, fs).Ok? && args.algorithm.value <= 1
    // what is passed to `compare`
    ensures |stages| == 3 ==> stages[2].Comparing?
    ensures |stages| == 3 ==>
      var opts := stages[2].opts;
      opts.fuzz == args.fuzz.value && opts.tolerance == args.tolerance.value && opts.prefix == args.prefix.value &&
      Code(opts.algorithm) == args.algorithm.value &&
      (opts.output.Some? <==> args.output.enabled) &&
      (opts.output.Some? ==> opts.output.value == args.output.value)
    // how its outcome decides the exit code
    ensures |stages| == 3 ==>
      var first, second := FirstDocument(args, m, fs).value, SecondDocument(args, m, fs).value;
      var diff := CompareResult(first, second, stages[2].opts, m, fs);
      effects == CompareLog(first, second, stages[2].opts, m, fs) &&
      code == ExitCode(diff, args.tolerance.value) &&
      (diff.Err? ==> code == 1) &&
      (diff.Ok? ==> (code == 2 <==> diff.value > args.tolerance.value))
    ensures code == 2 ==> |stages| == 3
  {
    var density := args.density.value;
    stages, effects := [Loading(args.first, density)], [];
    var first := From(args.first, density, m, fs);
    if first.Err? {
      return 1, stages, effects;
    }

    stages := stages + [Loading(args.second, density)];
    var second := From(args.second, density, m, fs);
    if second.Err? {
      return 1, stages, effects;
    }

    if args.algorithm.value > 1 {
      return 1, stages, effects;
    }

    var opts := OptionsOf(args);
    stages := stages + [Comparing(opts)];
    var diff;
    diff, effects := Compare(first.value, second.value, opts, m, fs);
    if diff.Err? {
      return 1, stages, effects;
    }
    if diff.value > args.tolerance.value {
      return 2, stages, effects;
    }
    return 0, stages, effects;
  }

  /** Whatever the arguments and the environment, `compare` never reports
      `bad_file` to `main`, so its error switch needs no case for it. */
  lemma CompareNeverBadFile(args: Args, m: Backend, fs: FileSystem)
    requires FirstDocument(args, m, fs).Ok? && SecondDocument(args, m, fs).Ok? && args.algorithm.value <= 1
    ensures var diff := CompareResult(FirstDocument(args, m, fs).value, SecondDocument(args, m, fs).value,
                                      OptionsOf(args), m, fs);
      diff.Err? ==> diff.error == BadDirectory || diff.error == MismatchingPages
  {
    PdfProperties.MismatchedPages(FirstDocument(args, m, fs).value, SecondDocument(args, m, fs).value,
                                  OptionsOf(args), m, fs);
  }

  /** If the metric is never negative, a comparison that writes any diff image
      also ends with exit code 2. */
  lemma WrittenFilesMeanExitTwo(a: Document, b: Document, opts: Options, m: Backend, fs: FileSystem)
    requires forall i :: 0 <= i < |a.pages| && i < |b.pages| ==> m.metric(a.pages[i], b.pages[i], opts.fuzz) >= 0.0
    requires Writes(CompareLog(a, b, opts, m, fs)) != []
    ensures ExitCode(CompareResult(a, b, opts, m, fs), opts.tolerance) == 2
  {
    PdfProperties.WritingImpliesExceeded(a, b, opts, m, fs);
  }
}
