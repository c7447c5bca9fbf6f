/**
 * What the traversal finds: the paths reachable from the starting worklist
 * by expanding non-excluded directories, and among them the non-excluded
 * regular files, which are exactly the files it returns.
 */
module Reachability {
  import opened Wrappers
  import opened Fs
  import opened Traversal

  /** `q` is `x`, or lies in the expansion tree of the non-excluded directory `x`. */
  ghost predicate ReachableFrom(fs: FileSystem, excludes: set<Path>, x: Path, q: Path)
    decreases Above(fs, |x|)
  {
    || q == x
    || (x !in excludes && IsDir(fs, x) &&
        (ExpansionRanksBelow(fs, x);
         exists c | c in Expansion(fs, x) :: ReachableFrom(fs, excludes, c, q)))
  }

  ghost predicate Reached(fs: FileSystem, excludes: set<Path>, roots: set<Path>, q: Path) {
    exists x | x in roots :: ReachableFrom(fs, excludes, x, q)
  }

  /** What the traversal is to return: a non-excluded regular file. */
  predicate Emittable(fs: FileSystem, excludes: set<Path>, q: Path) {
    q !in excludes && IsFile(fs, q)
  }

  /**
   * One call of `next` neither invents nor loses reachable files: what the
   * new worklist reaches, the old one reached; every non-excluded regular
   * file the old worklist reached is either the file returned or still
   * reached; and a returned file is such a file.
   */
  lemma StepReach(fs: FileSystem, excludes: set<Path>, before: set<Path>,
                  res: Option<ExcludeRes>, skipped: set<Path>, after: set<Path>)
    requires Step(fs, excludes, before, res, skipped, after)
    ensures forall q | Reached(fs, excludes, after, q) :: Reached(fs, excludes, before, q)
    ensures forall q | Reached(fs, excludes, before, q) && Emittable(fs, excludes, q) ::
      Reached(fs, excludes, after, q) || res == Some(File(q))
    ensures res.Some? && res.value.File? ==>
      Reached(fs, excludes, before, res.value.path) && Emittable(fs, excludes, res.value.path)
  {
    forall q | Reached(fs, excludes, after, q)
      ensures Reached(fs, excludes, before, q)
    {
      var x :| x in after && ReachableFrom(fs, excludes, x, q);
      if x !in before {
        var d := res.value.path;
        assert x in Expansion(fs, d);
        assert ReachableFrom(fs, excludes, d, q);
      }
    }
    forall q | Reached(fs, excludes, before, q) && Emittable(fs, excludes, q)
      ensures Reached(fs, excludes, after, q) || res == Some(File(q))
    {
      var x :| x in before && ReachableFrom(fs, excludes, x, q);
      if x in after {
        assert Reached(fs, excludes, after, q);
      } else if x != q {
        var c :| c in Expansion(fs, x) && ReachableFrom(fs, excludes, c, q);
        assert c in after;
      }
    }
    if res.Some? && res.value.File? {
      assert ReachableFrom(fs, excludes, res.value.path, res.value.path);
    }
  }

  /**
   * Exclusion compares paths, not files: children are not canonicalised, so
   * with `/a/link` a symbolic link to the excluded directory `/e`, excluding
   * `/e` still lets the traversal reach `/e/x.v` as `/a/link/x.v`.
   */
  function AliasTree(): FileSystem {
    FileSystem(
      map[
        "/a" := Directory(Some([Named("link")])),
        "/a/link" := Directory(Some([Named("x.v")])),
        "/a/link/x.v" := RegularFile,
        "/e" := Directory(Some([Named("x.v")])),
        "/e/x.v" := RegularFile],
      map["/a" := "/a", "/e" := "/e", "/a/link" := "/e", "/a/link/x.v" := "/e/x.v", "/e/x.v" := "/e/x.v"])
  }

  lemma ExcludedDirThroughAlias()
    ensures Canonicalize(AliasTree(), "/a/link/x.v") == Some("/e/x.v")
    ensures Reached(AliasTree(), {"/e"}, {"/a"}, "/a/link/x.v")
    ensures Emittable(AliasTree(), {"/e"}, "/a/link/x.v")
  {
    var fs := AliasTree();
    var link: Name := "link";
    var file: Name := "x.v";
    assert Join("/a", link) == "/a/link";
    assert Join("/a/link", file) == "/a/link/x.v";
    assert "/a/link/x.v" in Expansion(fs, "/a/link") by {
      assert ReadDir(fs, "/a/link") == Some([Named(file)]);
      assert Admit(fs, "/a/link/x.v") by {
        JoinIsChild("/a/link", file);
        ExtensionIsV("/a/link/x.v");
      }
      assert [Named(file)][..0] == [];
    }
    assert "/a/link" in Expansion(fs, "/a") by {
      assert ReadDir(fs, "/a") == Some([Named(link)]);
      assert !IsFile(fs, "/a/link");
      assert [Named(link)][..0] == [];
    }
    assert ReachableFrom(fs, {"/e"}, "/a/link/x.v", "/a/link/x.v");
    assert ReachableFrom(fs, {"/e"}, "/a/link", "/a/link/x.v");
    assert ReachableFrom(fs, {"/e"}, "/a", "/a/link/x.v");
  }
}
