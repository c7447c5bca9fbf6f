/**
 * The exclusion-aware traversal (`ExcludeFiles` in src/cli.rs): a worklist
 * of candidate paths that yields, one call at a time, a non-excluded regular
 * file or a non-excluded directory, and feeds a directory's admitted entries
 * back into the worklist.
 */
module Traversal {
  import opened Wrappers
  import opened Fs

  datatype ExcludeRes =
    | File(path: Path)  // a non-excluded regular file
    | Dir(path: Path)   // a non-excluded directory, whose entries were added to the worklist

  /** A candidate the traversal stops at: not excluded, and a regular file or a directory. */
  predicate Selectable(fs: FileSystem, excludes: set<Path>, p: Path) {
    p !in excludes && (IsFile(fs, p) || IsDir(fs, p))
  }

  /** The extension of a path, or the empty string when it has none. */
  function ExtensionOrEmpty(p: Path): string {
    match Extension(p)
    case Some(e) => e
    case None => ""
  }

  /** Whether a directory entry joins the worklist: anything but a regular file, or a file with extension `v`. */
  predicate Admit(fs: FileSystem, p: Path) {
    !IsFile(fs, p) || ExtensionOrEmpty(p) == "v"
  }

  /** The admitted paths among a directory's listed entries; unreadable entries are dropped. */
  function Admitted(fs: FileSystem, dir: Path, entries: seq<Entry>): set<Path> {
    if entries == [] then {}
    else
      var last := entries[|entries| - 1];
      Admitted(fs, dir, entries[..|entries| - 1]) +
        if last.Named? && Admit(fs, Join(dir, last.name)) then {Join(dir, last.name)} else {}
  }

  /** The paths a directory contributes to the worklist; nothing when it cannot be listed. */
  function Expansion(fs: FileSystem, dir: Path): set<Path> {
    match ReadDir(fs, dir)
    case None => {}
    case Some(entries) => Admitted(fs, dir, entries)
  }

  lemma {:induction false} AdmittedMembership(fs: FileSystem, dir: Path, entries: seq<Entry>, c: Path)
    ensures c in Admitted(fs, dir, entries) <==>
      exists i | 0 <= i < |entries| :: entries[i].Named? && c == Join(dir, entries[i].name) && Admit(fs, c)
  {
    if entries != [] {
      var init := entries[..|entries| - 1];
      AdmittedMembership(fs, dir, init, c);
      if exists i | 0 <= i < |init| :: init[i].Named? && c == Join(dir, init[i].name) && Admit(fs, c) {
        var i :| 0 <= i < |init| && init[i].Named? && c == Join(dir, init[i].name) && Admit(fs, c);
        assert entries[i] == init[i];
      }
    }
  }

  /**
   * A path joins the worklist from a directory exactly when the directory can
   * be listed, one of its readable entries names that path, and the path is
   * not a regular file or is one whose name ends in `.v` after a non-empty
   * stem. Every such path lies strictly below the directory.
   */
  lemma ExpansionMembership(fs: FileSystem, dir: Path, c: Path)
    ensures c in Expansion(fs, dir) <==>
      ReadDir(fs, dir).Some? &&
      exists i | 0 <= i < |ReadDir(fs, dir).value| ::
        ReadDir(fs, dir).value[i].Named? && c == Join(dir, ReadDir(fs, dir).value[i].name) &&
        (!IsFile(fs, c) || IsCoqSourceName(ReadDir(fs, dir).value[i].name))
    ensures c in Expansion(fs, dir) ==> |c| > |dir| && c[..|dir|] == dir
  {
    ExtensionIsV(c);
    if ReadDir(fs, dir).Some? {
      var entries := ReadDir(fs, dir).value;
      AdmittedMembership(fs, dir, entries, c);
      forall i | 0 <= i < |entries| && entries[i].Named? && c == Join(dir, entries[i].name)
        ensures |c| > |dir| && c[..|dir|] == dir
        ensures Admit(fs, c) <==> !IsFile(fs, c) || IsCoqSourceName(entries[i].name)
      {
        JoinIsChild(dir, entries[i].name);
      }
    }
  }

  lemma ExpansionLonger(fs: FileSystem, dir: Path)
    ensures forall c | c in Expansion(fs, dir) :: |c| >= |dir| + 1
  {
    forall c | c in Expansion(fs, dir)
      ensures |c| >= |dir| + 1
    {
      ExpansionMembership(fs, dir, c);
    }
  }

  /** Expanding a directory only adds paths that rank strictly lower in the finite filesystem. */
  lemma ExpansionRanksBelow(fs: FileSystem, dir: Path)
    requires IsDir(fs, dir)
    ensures forall c | c in Expansion(fs, dir) :: Above(fs, |c|) < Above(fs, |dir|)
  {
    AboveStrict(fs, dir);
    forall c | c in Expansion(fs, dir)
      ensures Above(fs, |c|) < Above(fs, |dir|)
    {
      ExpansionLonger(fs, dir);
      AboveShrinks(fs, |dir| + 1, |c|);
    }
  }

  /**
   * One call of `next`: from the worklist `before`, the candidates in
   * `skipped` were taken and dropped (each excluded, or neither a regular
   * file nor a directory), then either the worklist ran dry, or one more
   * candidate was taken and returned; the worklist is now `after`.
   */
  ghost predicate Step(fs: FileSystem, excludes: set<Path>, before: set<Path>,
                       res: Option<ExcludeRes>, skipped: set<Path>, after: set<Path>)
  {
    && skipped <= before
    && (forall q | q in skipped :: !Selectable(fs, excludes, q))
    && match res
       case None =>
         skipped == before && after == {}
       case Some(File(p)) =>
         p in before - skipped && p !in excludes && IsFile(fs, p) &&
         after == before - skipped - {p}
       case Some(Dir(d)) =>
         d in before - skipped && d !in excludes && IsDir(fs, d) &&
         after == (before - skipped - {d}) + Expansion(fs, d)
  }

  class ExcludeFiles {
    /** The worklist of canonical paths still to classify. */
    var candidates: set<Path>
    /** The canonical paths never to return or expand. */
    const excludes: set<Path>
    /** The filesystem the traversal observes. */
    const fs: FileSystem

    /** Starts from the canonical forms of `inputs`; inputs that do not resolve are dropped. */
    constructor (fs: FileSystem, inputs: set<string>, excludes: set<Path>)
      ensures this.fs == fs && this.excludes == excludes
      ensures candidates == CanonicalizeAll(fs, inputs)
    {
      this.fs := fs;
      this.excludes := excludes;
      candidates := CanonicalizeAll(fs, inputs);
    }

    /**
     * Takes candidates in an unspecified order until one is a non-excluded
     * file or directory; a directory's admitted entries join the worklist.
     * `skipped` names the candidates that were taken and dropped.
     */
    method Next() returns (res: Option<ExcludeRes>, ghost skipped: set<Path>)
      modifies this
      ensures Step(fs, excludes, old(candidates), res, skipped, candidates)
    {
      var rest := candidates;
      skipped := {};
      res := None;
      while rest != {}
        invariant rest !! skipped && rest + skipped == candidates
        invariant forall q | q in skipped :: !Selectable(fs, excludes, q)
        invariant res.None?
        decreases rest
      {
        var path :| path in rest;
        rest := rest - {path};
        if path in excludes {
          skipped := skipped + {path};
          continue;
        }
        if IsFile(fs, path) {
          res := Some(File(path));
          break;
        } else if IsDir(fs, path) {
          res := Some(Dir(path));
          break;
        }
        skipped := skipped + {path};
      }

      candidates := rest;

      if res.Some? && res.value.Dir? {
        var dir := res.value.path;
        match ReadDir(fs, dir) {
          case None =>
          case Some(entries) =>
            for i := 0 to |entries|
              invariant candidates == rest + Admitted(fs, dir, entries[..i])
            {
              assert entries[..i + 1][..i] == entries[..i];
              if entries[i].Named? {
                var path := Join(dir, entries[i].name);
                if Admit(fs, path) {
                  candidates := candidates + {path};
                }
              }
            }
            assert entries[..|entries|] == entries;
        }
      }
    }
  }

  /** A returned path was a candidate, is not excluded, and is of the kind its tag says. */
  lemma StepSound(fs: FileSystem, excludes: set<Path>, before: set<Path>,
                  res: Option<ExcludeRes>, skipped: set<Path>, after: set<Path>)
    requires Step(fs, excludes, before, res, skipped, after)
    ensures res.Some? ==> res.value.path in before && res.value.path !in excludes
    ensures res.Some? && res.value.File? ==> IsFile(fs, res.value.path)
    ensures res.Some? && res.value.Dir? ==> IsDir(fs, res.value.path)
    ensures after - before <= (if res.Some? && res.value.Dir? then Expansion(fs, res.value.path) else {})
  {
  }

  /**
   * A call comes back empty exactly when no candidate is a non-excluded file
   * or directory, and then the worklist is empty, so every later call comes
   * back empty too.
   */
  lemma StepNoneIffExhausted(fs: FileSystem, excludes: set<Path>, before: set<Path>,
                             res: Option<ExcludeRes>, skipped: set<Path>, after: set<Path>)
    requires Step(fs, excludes, before, res, skipped, after)
    ensures res.None? <==> forall q | q in before :: !Selectable(fs, excludes, q)
    ensures res.None? ==> after == {}
    ensures before == {} ==> res.None?
  {
  }

  /** A directory that cannot be listed is still returned, and contributes nothing. */
  lemma UnreadableDirAddsNothing(fs: FileSystem, excludes: set<Path>, before: set<Path>,
                                 res: Option<ExcludeRes>, skipped: set<Path>, after: set<Path>)
    requires Step(fs, excludes, before, res, skipped, after)
    requires res.Some? && res.value.Dir? && ReadDir(fs, res.value.path).None?
    ensures after == before - skipped - {res.value.path}
    ensures after < before
  {
  }

  /** A directory `/a` holding one file, `x.v`. */
  function OneFileTree(): FileSystem {
    FileSystem(map["/a" := Directory(Some([Named("x.v")])), "/a/x.v" := RegularFile], map[])
  }

  lemma OneFileTreeExpansion()
    ensures Expansion(OneFileTree(), "/a") == {"/a/x.v"}
  {
    var fs := OneFileTree();
    var name: Name := "x.v";
    var child := Join("/a", name);
    assert child == "/a/x.v";
    assert Admit(fs, child) by {
      JoinIsChild("/a", name);
      ExtensionIsV(child);
    }
    var entries := [Named(name)];
    assert ReadDir(fs, "/a") == Some(entries);
    assert Admitted(fs, "/a", entries) == Admitted(fs, "/a", []) + {child} by {
      assert entries[..0] == [];
    }
  }

  /**
   * The traversal does not remember what it returned: starting from `/a` and
   * `/a/x.v`, the file `/a/x.v` can be returned, then `/a` expanded, then
   * `/a/x.v` returned again.
   */
  lemma DuplicateEmission()
    ensures Step(OneFileTree(), {}, {"/a", "/a/x.v"}, Some(File("/a/x.v")), {}, {"/a"})
    ensures Step(OneFileTree(), {}, {"/a"}, Some(Dir("/a")), {}, {"/a/x.v"})
    ensures Step(OneFileTree(), {}, {"/a/x.v"}, Some(File("/a/x.v")), {}, {})
  {
    OneFileTreeExpansion();
    assert {"/a", "/a/x.v"} - {} - {"/a/x.v"} == {"/a"};
    assert ({"/a"} - {} - {"/a"}) + {"/a/x.v"} == {"/a/x.v"};
  }
}
