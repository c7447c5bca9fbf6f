/**
 * Why the traversal ends on a finite filesystem: every path carries a
 * weight, the size of its expansion tree, and every call of `next` that
 * returns something lowers the total weight of the worklist. Entries sit
 * strictly below their directory, so the tree is finite.
 */
module Measure {
  import opened Wrappers
  import opened Fs
  import opened Traversal

  ghost function Pick(s: set<Path>): Path
    requires s != {}
  {
    var x :| x in s; x
  }

  /** One for the path itself, plus the weights of what it adds to the worklist if it is a directory. */
  ghost function Weight(fs: FileSystem, p: Path): (w: nat)
    ensures w >= 1
    decreases Above(fs, |p|), 0
  {
    if IsDir(fs, p) then
      ExpansionLonger(fs, p);
      AboveStrict(fs, p);
      1 + SumWeights(fs, Expansion(fs, p), |p| + 1)
    else 1
  }

  /** The total weight of a set of paths, each at least `m` characters long. */
  ghost function SumWeights(fs: FileSystem, s: set<Path>, m: nat): nat
    requires forall c | c in s :: |c| >= m
    decreases Above(fs, m), |s|
  {
    if s == {} then 0
    else
      var x := Pick(s);
      AboveShrinks(fs, m, |x|);
      Weight(fs, x) + SumWeights(fs, s - {x}, m)
  }

  ghost function Total(fs: FileSystem, s: set<Path>): nat {
    SumWeights(fs, s, 0)
  }

  lemma {:induction false} SumWeightsIsTotal(fs: FileSystem, s: set<Path>, m: nat)
    requires forall c | c in s :: |c| >= m
    ensures SumWeights(fs, s, m) == Total(fs, s)
    decreases |s|
  {
    if s != {} {
      SumWeightsIsTotal(fs, s - {Pick(s)}, m);
    }
  }

  /** The total does not depend on the order in which elements are summed. */
  lemma {:induction false} TotalRemove(fs: FileSystem, s: set<Path>, x: Path)
    requires x in s
    ensures Total(fs, s) == Weight(fs, x) + Total(fs, s - {x})
    decreases |s|
  {
    var y := Pick(s);
    if y != x {
      TotalRemove(fs, s - {y}, x);
      TotalRemove(fs, s - {x}, y);
      assert s - {y} - {x} == s - {x} - {y};
    }
  }

  lemma {:induction false} TotalSubset(fs: FileSystem, a: set<Path>, b: set<Path>)
    requires a <= b
    ensures Total(fs, a) <= Total(fs, b)
    decreases |a|
  {
    if a != {} {
      var x := Pick(a);
      TotalRemove(fs, b, x);
      TotalSubset(fs, a - {x}, b - {x});
    }
  }

  lemma {:induction false} TotalUnion(fs: FileSystem, a: set<Path>, b: set<Path>)
    ensures Total(fs, a + b) <= Total(fs, a) + Total(fs, b)
    decreases |a|
  {
    if a != {} {
      var x := Pick(a);
      var a', b' := a - {x}, b - {x};
      TotalRemove(fs, a + b, x);
      TotalRemove(fs, a, x);
      assert (a + b) - {x} == a' + b';
      TotalUnion(fs, a', b');
      TotalSubset(fs, b', b);
    } else {
      assert a + b == b;
    }
  }

  /** Every call of `next` that returns something strictly lowers the total weight of the worklist. */
  lemma StepDecreases(fs: FileSystem, excludes: set<Path>, before: set<Path>,
                      res: Option<ExcludeRes>, skipped: set<Path>, after: set<Path>)
    requires Step(fs, excludes, before, res, skipped, after)
    requires res.Some?
    ensures Total(fs, after) < Total(fs, before)
  {
    var p := res.value.path;
    var rest := before - skipped - {p};
    TotalRemove(fs, before, p);
    TotalSubset(fs, rest, before - {p});
    if res.value.Dir? {
      ExpansionLonger(fs, p);
      SumWeightsIsTotal(fs, Expansion(fs, p), |p| + 1);
      TotalUnion(fs, rest, Expansion(fs, p));
    }
  }
}
