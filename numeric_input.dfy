/**
 * The accept-or-keep rule of the wizard's numeric text fields (the clip count and the clip
 * length): a change event replaces the field only when the new text is empty, or is all decimal
 * digits and `parseInt(value, 10)` lies in the field's range. Otherwise the old text stays.
 */
module NumericInput {
  import opened Wrappers
  import opened JsText

  /** The handler's test: `value === ''`, or `/^\d*$/` matches and `parseInt(value, 10)` is
      between `lo` and `hi`. A NaN fails both comparisons. */
  predicate Accepts(value: string, lo: int, hi: int) {
    value == "" || (IsDigits(value) && var n := ParseInt(value, Ten); n.Some? && lo <= n.value <= hi)
  }

  /** The field after a change event. */
  function OnChange(current: string, value: string, lo: int, hi: int): string {
    if Accepts(value, lo, hi) then value else current
  }

  /** What the field can hold: nothing, or a digit string whose value is in range. */
  predicate InRange(s: string, lo: int, hi: int) {
    s == "" || (IsDigits(s) && lo <= DecimalValue(s) <= hi)
  }

  /** The handler's test in closed form: a digit string is read as its decimal value. */
  lemma AcceptsIff(value: string, lo: int, hi: int)
    ensures Accepts(value, lo, hi) <==> InRange(value, lo, hi)
  {
    if value != "" && IsDigits(value) {
      ParseIntOfDigits(value, Ten);
    }
  }

  /** A change event replaces the text exactly when the new text is in range, and the field stays
      in range whatever is typed. */
  lemma OnChangeRule(current: string, value: string, lo: int, hi: int)
    requires InRange(current, lo, hi)
    ensures OnChange(current, value, lo, hi) == if InRange(value, lo, hi) then value else current
    ensures InRange(OnChange(current, value, lo, hi), lo, hi)
  {
    AcceptsIff(value, lo, hi);
  }

  /** Leading zeros do not change the value, so "003" is read as 3. */
  lemma {:induction false} LeadingZero(s: string)
    requires IsDigits(s)
    ensures IsDigits("0" + s) && DecimalValue("0" + s) == DecimalValue(s)
    decreases |s|
  {
    var t := "0" + s;
    assert IsDigits(t) by {
      forall i | 0 <= i < |t| ensures IsDigit(t[i]) {
        if i > 0 { assert t[i] == s[i - 1]; }
      }
    }
    if |s| == 0 {
      assert t[..0] == [];
    } else {
      var init := s[..|s| - 1];
      assert IsDigits(init) by {
        forall i | 0 <= i < |init| ensures IsDigit(init[i]) { assert init[i] == s[i]; }
      }
      LeadingZero(init);
      assert t[..|t| - 1] == "0" + init;
      assert t[|t| - 1] == s[|s| - 1];
    }
  }

  /** So a field accepts a zero-padded value exactly when it accepts the value itself. */
  lemma LeadingZeroAccepted(s: string, lo: int, hi: int)
    requires s != "" && IsDigits(s)
    ensures Accepts("0" + s, lo, hi) <==> Accepts(s, lo, hi)
  {
    LeadingZero(s);
    AcceptsIff(s, lo, hi);
    AcceptsIff("0" + s, lo, hi);
  }
}
