/**
 * What `parse_args` in src/cli.rs does once the argument parser has split
 * the command line: resolve the exclusions, turn `-` into standard input,
 * run the traversal over the other inputs collecting the files it returns,
 * and refuse line bounds together with more than one input.
 */
module Cli {
  import opened Wrappers
  import opened Fs
  import opened Options
  import Traversal
  import opened Reachability
  import Measure
  import LineNumbers

  /** The raw values of the command line's arguments. */
  datatype RawArgs = RawArgs(
    inputs: seq<string>,    // positional inputs: files, directories, or `-`
    excludes: seq<string>,  // the values of `--exclude`
    check: bool,            // whether `--check` is present
    from: Option<string>,   // the value of `--from`
    upto: Option<string>)   // the value of `--upto`

  const StdinMarker: string := "-"

  const ConflictMessage: string := "--from and --upto cannot be used with more than one input file."

  /** The message of the argument parser's validator for a line bound that is not a line number. */
  const InvalidLineMessage: string := "not a valid line number"

  /**
   * The argument parser runs `validate_line` on each bound before anything
   * else and stops the program when one fails.
   */
  predicate BoundsValid(args: RawArgs) {
    && (args.from.Some? ==> LineNumbers.ValidateLine(args.from.value).Ok?)
    && (args.upto.Some? ==> LineNumbers.ValidateLine(args.upto.value).Ok?)
  }

  /** A line-bound argument as a number: an absent value gives none. */
  function LineArg(v: Option<string>): Option<nat> {
    if v.Some? then LineNumbers.ParseUsize(v.value) else None
  }

  predicate BoundsGiven(args: RawArgs) {
    LineArg(args.from).Some? || LineArg(args.upto).Some?
  }

  /** The excluded paths: the canonical forms of the `--exclude` values that resolve. */
  function ExcludedPaths(fs: FileSystem, args: RawArgs): set<Path> {
    CanonicalizeAll(fs, set s | s in args.excludes)
  }

  /** Where the traversal starts: the canonical forms of the inputs other than `-` that resolve. */
  function Roots(fs: FileSystem, args: RawArgs): set<Path> {
    CanonicalizeAll(fs, (set s | s in args.inputs) - {StdinMarker})
  }

  /**
   * An input the command line resolves to: standard input when `-` was
   * given, and every non-excluded regular file reachable from the other
   * inputs through non-excluded directories.
   */
  ghost predicate Resolves(fs: FileSystem, args: RawArgs, i: Input) {
    match i
    case Stdin => StdinMarker in args.inputs
    case File(p) => Reached(fs, ExcludedPaths(fs, args), Roots(fs, args), p) && Emittable(fs, ExcludedPaths(fs, args), p)
  }

  /**
   * A file named on the command line is resolved whatever its extension, as
   * long as it is not excluded: the `.v` filter applies only to what a
   * directory contributes.
   */
  lemma ExplicitFileResolves(fs: FileSystem, args: RawArgs, raw: string, p: Path)
    requires raw in args.inputs && raw != StdinMarker && Canonicalize(fs, raw) == Some(p)
    requires IsFile(fs, p) && p !in ExcludedPaths(fs, args)
    ensures Resolves(fs, args, File(p))
  {
    assert p in Roots(fs, args);
    assert ReachableFrom(fs, ExcludedPaths(fs, args), p, p);
  }

  /** A set that holds exactly the resolved inputs has more than one element exactly when two distinct inputs resolve. */
  lemma MoreThanOneResolved(fs: FileSystem, args: RawArgs, inputs: set<Input>)
    requires forall i :: i in inputs <==> Resolves(fs, args, i)
    ensures |inputs| > 1 <==> exists a, b :: a != b && Resolves(fs, args, a) && Resolves(fs, args, b)
  {
    if |inputs| > 1 {
      var a :| a in inputs;
      assert |inputs - {a}| == |inputs| - 1;
      var b :| b in inputs - {a};
      assert Resolves(fs, args, a) && Resolves(fs, args, b);
    }
    if exists a, b :: a != b && Resolves(fs, args, a) && Resolves(fs, args, b) {
      var a, b :| a != b && Resolves(fs, args, a) && Resolves(fs, args, b);
      assert {a, b} <= inputs;
      assert |inputs - {a}| == |inputs| - 1;
      assert b in inputs - {a};
    }
  }

  /**
   * What the collecting loop keeps: every file collected is a non-excluded
   * regular file reached from the roots, and every such file is collected
   * or still reached from the worklist, which reaches nothing new.
   */
  ghost predicate Collected(fs: FileSystem, excludes: set<Path>, roots: set<Path>, found: set<Input>, worklist: set<Path>) {
    && (forall p | File(p) in found :: Reached(fs, excludes, roots, p) && Emittable(fs, excludes, p))
    && (forall p | Reached(fs, excludes, roots, p) && Emittable(fs, excludes, p) ::
          File(p) in found || Reached(fs, excludes, worklist, p))
    && (forall p | Reached(fs, excludes, worklist, p) :: Reached(fs, excludes, roots, p))
  }

  /** Collecting what one call of `next` returns keeps the loop's invariant. */
  lemma CollectStep(fs: FileSystem, excludes: set<Path>, roots: set<Path>, found: set<Input>,
                    before: set<Path>, res: Option<Traversal.ExcludeRes>, skipped: set<Path>, after: set<Path>)
    requires Collected(fs, excludes, roots, found, before)
    requires Traversal.Step(fs, excludes, before, res, skipped, after)
    ensures res.Some? && res.value.File? ==> Collected(fs, excludes, roots, found + {File(res.value.path)}, after)
    ensures !(res.Some? && res.value.File?) ==> Collected(fs, excludes, roots, found, after)
  {
    StepReach(fs, excludes, before, res, skipped, after);
  }

  /** Once the worklist is empty, the inputs collected are exactly the resolved ones. */
  lemma CollectDone(fs: FileSystem, args: RawArgs, found: set<Input>)
    requires Collected(fs, ExcludedPaths(fs, args), Roots(fs, args), found, {})
    requires Stdin in found <==> StdinMarker in args.inputs
    ensures forall i :: i in found <==> Resolves(fs, args, i)
  {
  }

  method ParseArgs(fs: FileSystem, args: RawArgs) returns (r: Result<Opts, string>)
    ensures r.Ok? ==> forall i :: i in r.value.inputs <==> Resolves(fs, args, i)
    ensures r.Ok? ==> r.value.from == LineArg(args.from) && r.value.upto == LineArg(args.upto)
    ensures r.Ok? ==> r.value.check == args.check
    ensures !BoundsValid(args) ==> r == Err(InvalidLineMessage)
    ensures r.Ok? ==> BoundsValid(args)
    ensures r.Ok? ==> (args.from.Some? <==> r.value.from.Some?) && (args.upto.Some? <==> r.value.upto.Some?)
    ensures BoundsValid(args) ==>
      (r.Err? <==> BoundsGiven(args) && exists a, b :: a != b && Resolves(fs, args, a) && Resolves(fs, args, b))
    ensures BoundsValid(args) && r.Err? ==> r.error == ConflictMessage
  {
    if args.from.Some? {
      var valid := LineNumbers.ValidateLine(args.from.value);
      if valid.Err? {
        return Err(valid.error);
      }
    }
    if args.upto.Some? {
      var valid := LineNumbers.ValidateLine(args.upto.value);
      if valid.Err? {
        return Err(valid.error);
      }
    }

    var opts := Opts.New();
    var from := LineArg(args.from);
    if from.Some? {
      opts := opts.From(from.value);
    }
    var upto := LineArg(args.upto);
    if upto.Some? {
      opts := opts.Upto(upto.value);
    }
    if args.check {
      opts := opts.Check();
    }

    var excludes := CanonicalizeAll(fs, set s | s in args.excludes);

    var inputs := set s | s in args.inputs;
    if StdinMarker in inputs {
      opts := opts.AddStdin();
    }

    var files := new Traversal.ExcludeFiles(fs, inputs - {StdinMarker}, excludes);
    ghost var roots := files.candidates;
    assert roots == Roots(fs, args);
    assert Collected(fs, excludes, roots, opts.inputs, roots);
    while true
      invariant files.fs == fs && files.excludes == excludes
      invariant opts.from == from && opts.upto == upto && opts.check == args.check
      invariant Stdin in opts.inputs <==> StdinMarker in args.inputs
      invariant Collected(fs, excludes, roots, opts.inputs, files.candidates)
      decreases Measure.Total(fs, files.candidates)
    {
      ghost var before := files.candidates;
      var res;
      ghost var skipped;
      res, skipped := files.Next();
      CollectStep(fs, excludes, roots, opts.inputs, before, res, skipped, files.candidates);
      if res.None? {
        break;
      }
      Measure.StepDecreases(fs, excludes, before, res, skipped, files.candidates);
      if res.value.File? {
        opts := opts.AddFile(res.value.path);
      }
    }

    CollectDone(fs, args, opts.inputs);
    MoreThanOneResolved(fs, args, opts.inputs);
    if (opts.from.Some? || opts.upto.Some?) && |opts.inputs| > 1 {
      return Err(ConflictMessage);
    }
    return Ok(opts);
  }
}
