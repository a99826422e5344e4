/** The wizard step asking how many clips to generate: one to three. */
module ClipAmount {
  import opened JsText
  import opened NumericInput

  const MinClips := 1
  const MaxClips := 3

  /** `handleAmountChange`: the clip count after the user edits the field. */
  function HandleAmountChange(clipAmount: string, value: string): string {
    OnChange(clipAmount, value, MinClips, MaxClips)
  }

  /** The Next button is disabled while the field is empty. */
  predicate NextDisabled(clipAmount: string) {
    clipAmount == ""
  }

  /** The field holds nothing or a count between one and three. */
  predicate Valid(clipAmount: string) {
    InRange(clipAmount, MinClips, MaxClips)
  }

  /** An edit is taken exactly when it empties the field or is a digit string worth 1 to 3;
      the field stays valid, and whenever Next is enabled it holds such a count. */
  lemma AmountChange(clipAmount: string, value: string)
    requires Valid(clipAmount)
    ensures var r := HandleAmountChange(clipAmount, value);
      && r == (if value == "" || (IsDigits(value) && 1 <= DecimalValue(value) <= 3) then value else clipAmount)
      && Valid(r)
      && (!NextDisabled(r) ==> IsDigits(r) && 1 <= DecimalValue(r) <= 3)
  {
    OnChangeRule(clipAmount, value, MinClips, MaxClips);
  }
}
