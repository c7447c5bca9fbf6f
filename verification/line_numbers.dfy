/**
 * Line-number arguments (`validate_line` in src/cli.rs and the `usize`
 * conversion behind it): an optional `+`, then one or more decimal digits,
 * whose value must fit in a 64-bit `usize`.
 */
module LineNumbers {
  import opened Wrappers

  const UsizeMax: nat := 0xFFFF_FFFF_FFFF_FFFF

  predicate IsDigit(c: char) {
    '0' <= c <= '9'
  }

  function DigitValue(c: char): nat
    requires IsDigit(c)
  {
    c as nat - '0' as nat
  }

  function DigitChar(d: nat): char
    requires d < 10
  {
    ('0' as nat + d) as char
  }

  predicate AllDigits(ds: string) {
    forall i | 0 <= i < |ds| :: IsDigit(ds[i])
  }

  /** The value of a string of decimal digits, most significant first. */
  function DigitsValue(ds: string): nat
    requires AllDigits(ds)
  {
    if ds == [] then 0
    else DigitsValue(ds[..|ds| - 1]) * 10 + DigitValue(ds[|ds| - 1])
  }

  /** Parses an unsigned machine integer; `None` when the text is not one or overflows. */
  function ParseUsize(s: string): (r: Option<nat>)
    ensures r.Some? ==> r.value <= UsizeMax
  {
    var digits := if |s| > 0 && s[0] == '+' then s[1..] else s;
    if digits == [] || !AllDigits(digits) then None
    else
      var v := DigitsValue(digits);
      if v <= UsizeMax then Some(v) else None
  }

  /** Accepts exactly the strings that parse as a line number. */
  function ValidateLine(v: string): (r: Result<(), string>)
    ensures r.Ok? <==> ParseUsize(v).Some?
    ensures r.Err? ==> r.error == "not a valid line number"
  {
    if ParseUsize(v).None? then Err("not a valid line number") else Ok(())
  }

  /** The decimal notation of a number, without sign or leading zeros. */
  function Decimal(n: nat): (s: string)
    ensures s != [] && AllDigits(s)
  {
    if n < 10 then [DigitChar(n)] else Decimal(n / 10) + [DigitChar(n % 10)]
  }

  lemma {:induction false} DecimalValue(n: nat)
    ensures DigitsValue(Decimal(n)) == n
  {
    if n >= 10 {
      DecimalValue(n / 10);
      var s := Decimal(n);
      assert s[..|s| - 1] == Decimal(n / 10);
    }
  }

  /** A leading zero does not change the value of a digit string. */
  lemma {:induction false} LeadingZeroValue(ds: string)
    requires AllDigits(ds)
    ensures AllDigits("0" + ds) && DigitsValue("0" + ds) == DigitsValue(ds)
  {
    var z := "0" + ds;
    assert AllDigits(z) by {
      forall i | 0 <= i < |z|
        ensures IsDigit(z[i])
      {
        if i > 0 { assert z[i] == ds[i - 1]; }
      }
    }
    if ds != [] {
      var init := ds[..|ds| - 1];
      LeadingZeroValue(init);
      assert z[..|z| - 1] == "0" + init;
    }
  }

  /**
   * Every line number a `usize` can hold is accepted in its decimal
   * notation, with or without a leading `+` or a leading zero, and parses
   * back to itself.
   */
  lemma ParseDecimal(n: nat)
    requires n <= UsizeMax
    ensures ParseUsize(Decimal(n)) == Some(n)
    ensures ParseUsize("+" + Decimal(n)) == Some(n)
    ensures ParseUsize("0" + Decimal(n)) == Some(n)
    ensures ValidateLine(Decimal(n)).Ok?
  {
    DecimalValue(n);
    LeadingZeroValue(Decimal(n));
    assert ("+" + Decimal(n))[1..] == Decimal(n);
  }

  /**
   * Text that is empty, a lone sign, or signed negative is never a line
   * number, nor is text holding any character that is not a digit (other
   * than one leading `+`), nor any value past the `usize` range.
   */
  lemma RejectsMalformed(s: string)
    ensures ParseUsize("").None? && ParseUsize("+").None? && ParseUsize("-").None?
    ensures |s| > 0 && s[0] == '-' ==> ParseUsize(s).None?
    ensures (exists i | 0 <= i < |s| :: !IsDigit(s[i]) && !(i == 0 && s[i] == '+')) ==>
              ParseUsize(s).None?
    ensures forall n: nat | n > UsizeMax :: ParseUsize(Decimal(n)).None?
  {
    var minus := "-";
    assert minus[0] == '-' && !AllDigits(minus);
    if |s| > 0 && s[0] == '-' {
      assert !AllDigits(s);
    }
    if exists i | 0 <= i < |s| :: !IsDigit(s[i]) && !(i == 0 && s[i] == '+') {
      var i :| 0 <= i < |s| && !IsDigit(s[i]) && !(i == 0 && s[i] == '+');
      if s[0] == '+' {
        assert s[1..][i - 1] == s[i];
      } else {
        assert !AllDigits(s);
      }
    }
    forall n: nat | n > UsizeMax
      ensures ParseUsize(Decimal(n)).None?
    {
      DecimalValue(n);
    }
  }
}
