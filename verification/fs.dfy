/**
 * The part of the standard library's path and filesystem interface that the
 * command line relies on, as a finite in-memory filesystem.
 *
 * `nodes` maps each path that exists to what lies there once symbolic links
 * are followed (this is what `is_file`, `is_dir` and `read_dir` observe), and
 * `canon` is the partial canonicalisation function: a raw argument string is
 * either resolved to an absolute path or fails.
 */
module Fs {
  import opened Wrappers

  type Path = string

  /**
   * A directory-entry name, as a listing yields it: never empty, never
   * holding a separator, and never `.` or `..`.
   */
  type Name = s: string | s != [] && '/' !in s && s != "." && s != ".." witness "_"

  /** One item of a directory listing; `Unreadable` is an entry whose read failed. */
  datatype Entry = Named(name: Name) | Unreadable

  /** What a path leads to. A `Directory` whose listing is `None` cannot be read. */
  datatype Node = RegularFile | Directory(listing: Option<seq<Entry>>) | Other

  datatype FileSystem = FileSystem(nodes: map<Path, Node>, canon: map<string, Path>)

  predicate IsFile(fs: FileSystem, p: Path) {
    p in fs.nodes && fs.nodes[p].RegularFile?
  }

  predicate IsDir(fs: FileSystem, p: Path) {
    p in fs.nodes && fs.nodes[p].Directory?
  }

  /** Lists a directory; fails (`None`) on anything that is not a readable directory. */
  function ReadDir(fs: FileSystem, p: Path): Option<seq<Entry>> {
    if IsDir(fs, p) then fs.nodes[p].listing else None
  }

  function Canonicalize(fs: FileSystem, raw: string): Option<Path> {
    if raw in fs.canon then Some(fs.canon[raw]) else None
  }

  /**
   * What canonicalisation guarantees: it only succeeds on paths that exist,
   * and a canonical path is its own canonical form.
   */
  ghost predicate CanonValid(fs: FileSystem) {
    forall raw | raw in fs.canon ::
      fs.canon[raw] in fs.nodes && Canonicalize(fs, fs.canon[raw]) == Some(fs.canon[raw])
  }

  /** Canonicalises every raw string, dropping those that fail (a `filter_map` into a set). */
  function CanonicalizeAll(fs: FileSystem, raws: set<string>): set<Path> {
    set raw | raw in raws && raw in fs.canon :: fs.canon[raw]
  }

  /**
   * Under the assumption `CanonValid` makes of canonicalisation (it succeeds
   * only on existing paths and is idempotent), resolved paths exist and
   * resolving them again changes nothing; this is assumed of the standard
   * library, not derived. Independently of it, two spellings of one path
   * collapse into one element.
   */
  lemma CanonicalizeAllSound(fs: FileSystem, raws: set<string>)
    requires CanonValid(fs)
    ensures forall p | p in CanonicalizeAll(fs, raws) :: p in fs.nodes && Canonicalize(fs, p) == Some(p)
    ensures CanonicalizeAll(fs, CanonicalizeAll(fs, raws)) == CanonicalizeAll(fs, raws)
    ensures forall a, b | a in raws && b in raws && Canonicalize(fs, a).Some? && Canonicalize(fs, a) == Canonicalize(fs, b) ::
      |CanonicalizeAll(fs, {a, b})| == 1
  {
    var once := CanonicalizeAll(fs, raws);
    forall p | p in once
      ensures p in CanonicalizeAll(fs, once)
    {
      var raw :| raw in raws && raw in fs.canon && fs.canon[raw] == p;
      assert p in fs.canon && fs.canon[p] == p;
    }
    forall a, b | a in raws && b in raws && Canonicalize(fs, a).Some? && Canonicalize(fs, a) == Canonicalize(fs, b)
      ensures |CanonicalizeAll(fs, {a, b})| == 1
    {
      assert CanonicalizeAll(fs, {a, b}) == {fs.canon[a]};
    }
  }

  /** The index of the last occurrence of `c` in `s`, if any. */
  function LastIndexOf(s: string, c: char): (r: Option<nat>)
    ensures r.None? ==> c !in s
    ensures r.Some? ==> r.value < |s| && s[r.value] == c && c !in s[r.value + 1..]
  {
    if s == [] then None
    else if s[|s| - 1] == c then Some(|s| - 1)
    else
      assert s == s[..|s| - 1] + [s[|s| - 1]];
      LastIndexOf(s[..|s| - 1], c)
  }

  /** The last component of a path: what follows its last separator. */
  function FileName(p: Path): string {
    match LastIndexOf(p, '/')
    case None => p
    case Some(i) => p[i + 1..]
  }

  /**
   * The extension of a path: what follows the last dot of its file name,
   * where a name without a dot, a name whose only dot is its first character
   * and the name `..` have none.
   */
  function Extension(p: Path): Option<string> {
    var name := FileName(p);
    if name == ".." then None
    else match LastIndexOf(name, '.')
      case None => None
      case Some(i) => if i == 0 then None else Some(name[i + 1..])
  }

  /** A file name that ends in `.v` after a non-empty stem. */
  predicate IsCoqSourceName(name: string) {
    |name| > 2 && name[|name| - 2..] == ".v"
  }

  /** Appends an entry name to a directory path, adding a separator unless the path is empty or already ends in one. */
  function Join(dir: Path, name: Name): Path {
    if dir != [] && dir[|dir| - 1] != '/' then dir + "/" + name else dir + name
  }

  /** The last occurrence of `c` is at `j` when `s[j]` is `c` and nothing after it is. */
  lemma {:induction false} LastIndexOfAt(s: string, c: char, j: nat)
    requires j < |s| && s[j] == c
    requires forall k | j < k < |s| :: s[k] != c
    ensures LastIndexOf(s, c) == Some(j)
    decreases |s|
  {
    if j < |s| - 1 {
      LastIndexOfAt(s[..|s| - 1], c, j);
    }
  }

  /** A joined path lies strictly below its directory and its file name is the entry name. */
  lemma JoinIsChild(dir: Path, name: Name)
    ensures |Join(dir, name)| > |dir| && Join(dir, name)[..|dir|] == dir
    ensures FileName(Join(dir, name)) == name
  {
    var p := Join(dir, name);
    var k := |p| - |name|;
    assert p[k..] == name;
    if k == 0 {
      assert p == name;
    } else {
      forall j | k - 1 < j < |p|
        ensures p[j] != '/'
      {
        assert p[j] == name[j - k];
      }
      LastIndexOfAt(p, '/', k - 1);
    }
  }

  /** A path has extension exactly `v` if and only if its file name ends in `.v` after a non-empty stem. */
  lemma ExtensionIsV(p: Path)
    ensures Extension(p) == Some("v") <==> IsCoqSourceName(FileName(p))
  {
    var name := FileName(p);
    if IsCoqSourceName(name) {
      var n := |name|;
      assert name[n - 2] == '.' && name[n - 1] == 'v';
      LastIndexOfAt(name, '.', n - 2);
      assert name[n - 1..] == "v";
    }
    if Extension(p) == Some("v") {
      var i := LastIndexOf(name, '.').value;
      assert name[i + 1..] == "v";
      assert name[|name| - 2..] == [name[i], name[i + 1]];
    }
  }

  /** The existing paths at least `n` characters long; directory expansion only ever moves down this chain. */
  ghost function Above(fs: FileSystem, n: nat): set<Path> {
    set k | k in fs.nodes && |k| >= n
  }

  lemma AboveShrinks(fs: FileSystem, m: nat, n: nat)
    requires m <= n
    ensures Above(fs, n) <= Above(fs, m)
  {
  }

  lemma AboveStrict(fs: FileSystem, p: Path)
    requires p in fs.nodes
    ensures Above(fs, |p| + 1) < Above(fs, |p|)
  {
    assert p in Above(fs, |p|) && p !in Above(fs, |p| + 1);
  }
}
