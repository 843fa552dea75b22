/**
 * Remediation costs: a value with a unit, as `WorkUnit.create(value, unit)` builds them,
 * and the parsing of the numeric text that the importer reads for a factor or an offset.
 */
module WorkUnits {
  import opened Wrappers
  import opened Strings

  /** A cost: a non-negative value and the unit token it was written with ("h", "d", ...). */
  datatype WorkUnit = WorkUnit(value: real, unit: string)

  /**
   * `WorkUnit.create()`: the offset a requirement receives when its document gives none.
   * Its value and unit are not fixed by anything the model relies on, so it is left unspecified.
   */
  const DefaultWorkUnit: WorkUnit

  /** The zero offset, in hours, that a rewritten linear-with-threshold requirement receives. */
  const ZeroHours := WorkUnit(0.0, "h")

  /**
   * The numeric text of a factor or offset value: decimal digits, optionally followed by a
   * dot and at least one more digit ("3.2", "1", "0.0"). Anything else is not numeric.
   */
  function ParseDecimal(s: string): (r: Option<real>)
    ensures r.Some? ==> r.value >= 0.0
    ensures r.Some? ==> 0 < |s| && IsDigit(s[0]) && IsDigit(s[|s| - 1])
    ensures r.Some? ==> forall i :: 0 <= i < |s| ==> IsDigit(s[i]) || s[i] == '.'
    ensures r.Some? ==> forall i, j :: 0 <= i < j < |s| && s[i] == '.' ==> s[j] != '.'
    ensures AllDigits(s) && |s| > 0 ==> r == Some(DigitsValue(s) as real)
  {
    var dot := IndexOf(s, '.');
    var whole := s[..dot];
    var fraction := if dot < |s| then s[dot + 1..] else "";
    if |whole| == 0 || !AllDigits(whole) || !AllDigits(fraction) || (dot < |s| && |fraction| == 0) then
      None
    else
      assert dot < |s| ==> s == whole + "." + fraction;
      assert dot == |s| ==> s == whole;
      Some(DigitsValue(whole) as real + DigitsValue(fraction) as real / Pow10(|fraction|) as real)
  }

  /** Every natural number written in decimal is numeric text, and reads back as itself. */
  lemma {:induction false} ParseDecimalOfNat(n: nat)
    ensures ParseDecimal(NatToDigits(n)) == Some(n as real)
  {
    DigitsValueOfNatToDigits(n);
  }

  /** Text made of digits, a dot and digits splits at that dot into the two digit runs. */
  lemma {:induction false} DecimalParts(w: string, f: string)
    requires |w| > 0 && AllDigits(w) && AllDigits(f)
    ensures var s := w + ['.'] + f;
      IndexOf(s, '.') == |w| && s[..|w|] == w && s[|w| + 1..] == f
  {
    var s := w + ['.'] + f;
    var dot := IndexOf(s, '.');
    assert s[|w|] == '.';
    assert forall i :: 0 <= i < |w| ==> s[i] == w[i];
    assert s[..|w|] == w;
    assert s[|w| + 1..] == f;
  }

  /**
   * Digits, a dot and at least one digit are numeric text, read as the whole part plus the
   * fraction digits scaled down by ten per digit ("3.2" is 3 + 2/10).
   */
  lemma {:induction false} ParseDecimalOfFraction(w: string, f: string)
    requires |w| > 0 && AllDigits(w) && |f| > 0 && AllDigits(f)
    ensures ParseDecimal(w + ['.'] + f) == Some(DigitsValue(w) as real + DigitsValue(f) as real / Pow10(|f|) as real)
  {
    DecimalParts(w, f);
  }

  /** Text holding a character that is neither a digit nor a dot is never numeric. */
  lemma {:induction false} ParseDecimalRejects(s: string, i: int)
    requires 0 <= i < |s| && !IsDigit(s[i]) && s[i] != '.'
    ensures ParseDecimal(s) == None
  {
  }
}
