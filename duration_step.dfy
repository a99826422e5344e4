/** The optional wizard step for the clip length: one to sixty seconds, or nothing. */
module DurationStep {
  import opened JsText
  import opened NumericInput

  const MinSeconds := 1
  const MaxSeconds := 60

  /** `handleDurationChange`: the clip length after the user edits the field. */
  function HandleDurationChange(duration: string, value: string): string {
    OnChange(duration, value, MinSeconds, MaxSeconds)
  }

  /** The button's label; the button itself is never disabled. */
  function ButtonLabel(duration: string): string {
    if duration != "" then "Next" else "Skip"
  }

  predicate Valid(duration: string) {
    InRange(duration, MinSeconds, MaxSeconds)
  }

  /** An edit is taken exactly when it empties the field or is a digit string worth 1 to 60; the
      field stays valid, and the button reads "Next" exactly when a length is entered. */
  lemma DurationChange(duration: string, value: string)
    requires Valid(duration)
    ensures var r := HandleDurationChange(duration, value);
      && r == (if value == "" || (IsDigits(value) && 1 <= DecimalValue(value) <= 60) then value else duration)
      && Valid(r)
      && (ButtonLabel(r) == "Next" <==> r != "")
      && (ButtonLabel(r) == "Next" ==> IsDigits(r) && 1 <= DecimalValue(r) <= 60)
  {
    OnChangeRule(duration, value, MinSeconds, MaxSeconds);
    assert |"Next"| == |"Skip"| && "Next"[0] != "Skip"[0];
  }
}
