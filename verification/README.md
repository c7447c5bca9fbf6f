# perroquet input resolution, modelled in Dafny

perroquet indents Coq sources. Before it indents anything, its command line
(`src/cli.rs`) turns the raw arguments into an `Opts` value. That value holds a set of
inputs, each either a canonical file path or standard input, plus two optional line
bounds and a check-only flag. This project models that resolution:

- **`Fs`**: the filesystem and path functions the command line calls, as a finite
  in-memory filesystem. `nodes` maps each existing path to what is found there once
  symbolic links are followed: a regular file, a directory, or something else. A
  directory's listing may fail as a whole, and single entries may fail. `canon` is the
  partial canonicalisation function. This module also holds the path helpers the
  traversal uses: `Join` for `entry.path()`, and `FileName` and `Extension` for
  `Path::extension`.
- **`Options`**: `Input` and `Opts`, and the value-returning builders `new`, `from`,
  `upto`, `check`, `add_file` and `add_stdin`.
- **`LineNumbers`**: `validate_line`, and the `usize` parsing behind it. The text is an
  optional `+` followed by decimal digits, and its value must be at most 2^64 − 1.
- **`Traversal`**: `ExcludeFiles` as a class. Its `candidates` field is the worklist
  that `next` changes in place. `Next` is proved against `Step`, a relation between the
  worklist before a call, the result, the candidates taken and dropped, and the
  worklist after. `Step` is a relation because the source takes candidates in hash-set
  order, which the model leaves unspecified.
- **`Reachability`**: what the traversal finds. A path is reachable when it can be
  reached from a root by expanding only non-excluded directories. Among the reachable
  paths, the traversal returns the non-excluded regular files.
- **`Measure`**: why the traversal ends. Each path has a weight: the size of its
  expansion tree. Every call of `next` that returns something lowers the total weight
  of the worklist. This holds because entries lie strictly below their directory and
  the filesystem is finite.
- **`Cli`**: `parse_args` after argument splitting, as `ParseArgs`. Its contract is the
  complete result:
  - an input is in `opts.inputs` exactly when it is standard input and `-` was given,
    or it is a non-excluded regular file reachable from the other inputs;
  - the call is rejected when a line bound is not a line number, and otherwise
    exactly when a line bound is set and two distinct inputs resolve.

Behaviour of the code that a reader might not expect, as the model keeps it:

- The iterator does not remember what it returned. It can return the same file twice
  (`Traversal.DuplicateEmission`). Duplicates disappear only because `Opts.inputs` is
  a set.
- Directory entries are not canonicalised. Exclusion compares paths, so an excluded
  directory that is reached through a symbolic link under another name is still
  traversed (`Reachability.ExcludedDirThroughAlias`).
- The `.v` filter applies only to entries found in a directory. A file named on the
  command line is kept whatever its extension (`Cli.ExplicitFileResolves`).
- Line bounds accept `0`.
- The conflict check counts standard input as an input. It runs after the traversal,
  not before it.

## Model

| member | source | states |
|---|---|---|
| `Options.Opts.New` | src/cli.rs:23-30 | fresh options have no inputs, no bounds, and check mode off |
| `Options.Opts.From` | src/cli.rs:32-35 | sets the first line and leaves every other field unchanged |
| `Options.Opts.Upto` | src/cli.rs:37-40 | sets the last line and leaves every other field unchanged |
| `Options.Opts.Check` | src/cli.rs:42-45 | turns on check mode and leaves every other field unchanged |
| `Options.Opts.AddFile` | src/cli.rs:47-53 | the file is then an input; at most that one input is new; the other fields are unchanged |
| `Options.Opts.AddStdin` | src/cli.rs:55-58 | standard input is then an input; at most that one input is new; the other fields are unchanged |
| `Options.AddInputIdempotent` | src/cli.rs:47-58 | adding an input that is already present changes nothing; adding twice equals adding once; the input count grows by one exactly when the input is new |
| `Options.BuildersIndependent` | src/cli.rs:32-58 | every pair of builders on different fields commutes (all nine pairs); the order of adding files does not matter; a later bound overrides an earlier one |
| `LineNumbers.ParseUsize` | src/cli.rs:150 | an accepted value fits in a 64-bit `usize` |
| `LineNumbers.ValidateLine` | src/cli.rs:149-155 | succeeds exactly when the text parses as a `usize` |
| `LineNumbers.ParseDecimal` | src/cli.rs:149-155 | every `usize`, written in decimal with or without `+` or a leading zero, is accepted and parses back to itself |
| `LineNumbers.RejectsMalformed` | src/cli.rs:149-155 | rejects empty text, a lone sign, any text starting with `-`, any text holding a character that is not a digit other than one leading `+` (`abc`, `1.5`, ` 3`, `++1`), and every value past the `usize` range; with `ParseDecimal`, a decimal parses exactly when it fits in a `usize` |
| `Fs.CanonicalizeAllSound` | src/cli.rs:81-96 | two spellings of one path give one element; under the assumption that canonicalisation only succeeds on existing paths and is idempotent, resolved paths exist and resolving again changes nothing |
| `Fs.JoinIsChild` | src/cli.rs:137 | an entry's path lies strictly below its directory, and its file name is the entry name |
| `Fs.ExtensionIsV` | src/cli.rs:138 | a path's extension is exactly `v` if and only if its file name ends in `.v` after a non-empty stem |
| `Traversal.AdmittedMembership` | src/cli.rs:135-141 | a path is admitted from a listing exactly when a readable entry names it and it passes the filter |
| `Traversal.ExpansionMembership` | src/cli.rs:133-143 | a directory adds a path exactly when its listing is readable, a readable entry names the path, and the path is not a regular file or has a `.v` name; every added path lies strictly below the directory |
| `Traversal.ExcludeFiles.constructor` | src/cli.rs:76-102 | the worklist is the set of canonical forms of the inputs that resolve; the excluded set is kept as given |
| `Traversal.ExcludeFiles.Next` | src/cli.rs:108-146 | one call is a `Step`: the dropped candidates were excluded, or were neither a file nor a directory; a result is a non-excluded file or directory taken from the worklist; the new worklist is the old one minus what was taken, plus the admitted entries when the result is a directory |
| `Traversal.StepSound` | src/cli.rs:112-126 | a returned path was a candidate, is not excluded, and is a regular file when tagged `File` and a directory when tagged `Dir`; only a directory's entries are added |
| `Traversal.StepNoneIffExhausted` | src/cli.rs:123-129 | a call returns nothing exactly when no candidate is a non-excluded file or directory; the worklist is then empty, and on an empty worklist every later call returns nothing |
| `Traversal.UnreadableDirAddsNothing` | src/cli.rs:133-143 | a directory that cannot be listed is still returned and adds no entries |
| `Traversal.DuplicateEmission` | src/cli.rs:108-146 | the same file can be returned by one call, re-added by expanding its directory, and returned again |
| `Reachability.StepReach` | src/cli.rs:108-146 | a call neither invents nor loses reachable files: the new worklist reaches nothing new, and each non-excluded regular file reached before is either the file returned or still reached |
| `Reachability.ExcludedDirThroughAlias` | src/cli.rs:134-140 | a file inside an excluded directory is still reached through a symbolic-link alias of that directory |
| `Measure.StepDecreases` | src/cli.rs:224-228 | every call that returns something strictly lowers the total weight of the worklist, so the collecting loop ends |
| `Cli.CollectStep` | src/cli.rs:224-228 | collecting the file a call returns keeps the loop invariant: collected files are exactly the reached non-excluded files no longer in reach of the worklist |
| `Cli.CollectDone` | src/cli.rs:219-228 | when the worklist is empty, the collected inputs are exactly the resolved ones |
| `Cli.MoreThanOneResolved` | src/cli.rs:230-236 | the input set has more than one element exactly when two distinct inputs resolve |
| `Cli.ExplicitFileResolves` | src/cli.rs:222-228 | a non-excluded regular file named on the command line is resolved whatever its extension |
| `Cli.ParseArgs` | src/cli.rs:200-238 | a bound that is not a line number is rejected first with the validator's message, as the parser's `validate_line` check does; otherwise the inputs are standard input exactly when `-` was given, plus exactly the non-excluded regular files reachable from the other inputs; bounds and the check flag are passed through; the call is rejected with the conflict message exactly when a bound is set and two distinct inputs resolve |

## Left out

- Argument-parser construction, help text, `get_matches` and the `value_t!`
  conversions (src/cli.rs:159-198): `Cli.RawArgs` holds the raw values the parser would
  produce. The parser's `validate_line` check on `--from` and `--upto` is kept:
  `Cli.ParseArgs` rejects an invalid bound with the validator's message before doing
  anything else.
- The warning that `ExcludeFiles::new` prints for an input that does not resolve, and
  the process exit on the argument conflict: the input is dropped, and the conflict is
  an `Err` carrying the message.
- The real filesystem: `canonicalize`, `is_file`, `is_dir` and `read_dir` read the
  finite map `Fs.FileSystem`, which does not change during a run. A symbolic-link
  cycle cannot be written as a finite map. On a real system such a cycle makes the
  traversal go as deep as the operating system's limit on links per lookup. Past that
  limit `is_file` and `is_dir` fail and the path is dropped. With several links per
  directory the work grows exponentially. Termination is proved only for finite
  filesystems.
- Hash-set iteration order: the order in which `next` takes candidates is a
  nondeterministic choice, and `Traversal.Step` allows any order.
- `Fs.FileName` takes the text after the last `/`. This agrees with the standard
  library for canonical paths and for joined directory entries, which are the only
  paths the traversal asks about. A listing never yields `.` or `..`, so `Fs.Name`
  excludes them and a joined entry never ends in such a segment. Input paths with `.`
  segments or a trailing separator are not modelled.
- `LineNumbers.ParseUsize` assumes a 64-bit `usize`.
- `ExcludeFiles::new` accepts any iterator of strings. The model takes a set, which is
  what `parse_args` passes.
- `src/main.rs`, which only calls `parse_args` and prints the result.
