/**
 * The options the command line hands to the indenter (`Opts` in src/cli.rs):
 * a set of inputs, each a file or standard input, two optional line bounds
 * and the check-only flag, built by value-returning updates.
 */
module Options {
  import opened Wrappers
  import opened Fs

  datatype Input = File(path: Path) | Stdin

  datatype Opts = Opts(inputs: set<Input>, from: Option<nat>, upto: Option<nat>, check: bool)
  {
    /** No inputs, no bounds, not checking. */
    static function New(): (r: Opts)
      ensures r.inputs == {} && r.from.None? && r.upto.None? && !r.check
    {
      Opts({}, None, None, false)
    }

    /** Sets the first line to indent; nothing else changes. */
    function From(line: nat): (r: Opts)
      ensures r.from == Some(line)
      ensures r.inputs == inputs && r.upto == upto && r.check == check
    {
      this.(from := Some(line))
    }

    /** Sets the last line to indent; nothing else changes. */
    function Upto(line: nat): (r: Opts)
      ensures r.upto == Some(line)
      ensures r.inputs == inputs && r.from == from && r.check == check
    {
      this.(upto := Some(line))
    }

    /** Turns on check-only mode; nothing else changes. */
    function Check(): (r: Opts)
      ensures r.check
      ensures r.inputs == inputs && r.from == from && r.upto == upto
    {
      this.(check := true)
    }

    /** Adds a file to the set of inputs; nothing else changes. */
    function AddFile(file: Path): (r: Opts)
      ensures File(file) in r.inputs && inputs <= r.inputs && r.inputs - inputs <= {File(file)}
      ensures r.from == from && r.upto == upto && r.check == check
    {
      this.(inputs := inputs + {File(file)})
    }

    /** Adds standard input to the set of inputs; nothing else changes. */
    function AddStdin(): (r: Opts)
      ensures Stdin in r.inputs && inputs <= r.inputs && r.inputs - inputs <= {Stdin}
      ensures r.from == from && r.upto == upto && r.check == check
    {
      this.(inputs := inputs + {Stdin})
    }
  }

  /**
   * Inputs form a set: adding an input that is already there changes nothing,
   * so adding the same input twice is adding it once, and the number of
   * inputs grows by one exactly when the input is new.
   */
  lemma AddInputIdempotent(o: Opts, file: Path)
    ensures File(file) in o.inputs ==> o.AddFile(file) == o
    ensures Stdin in o.inputs ==> o.AddStdin() == o
    ensures o.AddFile(file).AddFile(file) == o.AddFile(file)
    ensures o.AddStdin().AddStdin() == o.AddStdin()
    ensures |o.AddFile(file).inputs| == if File(file) in o.inputs then |o.inputs| else |o.inputs| + 1
    ensures |o.AddStdin().inputs| == if Stdin in o.inputs then |o.inputs| else |o.inputs| + 1
  {
    if File(file) in o.inputs {
      assert o.inputs + {File(file)} == o.inputs;
    }
    if Stdin in o.inputs {
      assert o.inputs + {Stdin} == o.inputs;
    }
  }

  /**
   * Each builder touches only its own field: builders of different fields
   * commute, the order in which inputs are added does not matter, and a
   * later bound overrides an earlier one.
   */
  lemma BuildersIndependent(o: Opts, a: nat, b: nat, p: Path, q: Path)
    ensures o.From(a).Upto(b) == o.Upto(b).From(a)
    ensures o.From(a).Check() == o.Check().From(a) && o.Upto(b).Check() == o.Check().Upto(b)
    ensures o.AddFile(p).From(a) == o.From(a).AddFile(p)
    ensures o.AddFile(p).Upto(b) == o.Upto(b).AddFile(p)
    ensures o.AddFile(p).Check() == o.Check().AddFile(p)
    ensures o.AddStdin().From(a) == o.From(a).AddStdin()
    ensures o.AddStdin().Upto(b) == o.Upto(b).AddStdin()
    ensures o.AddStdin().Check() == o.Check().AddStdin()
    ensures o.AddFile(p).AddFile(q) == o.AddFile(q).AddFile(p)
    ensures o.AddFile(p).AddStdin() == o.AddStdin().AddFile(p)
    ensures o.From(a).From(b) == o.From(b) && o.Upto(a).Upto(b) == o.Upto(b)
  {
  }
}
