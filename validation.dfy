/**
 * The input check at the top of `process_text`: the form field `ingredients` is
 * rejected when it is missing, empty or whitespace only, and otherwise when it is
 * longer than `MAX_INPUT_LENGTH`; accepted text goes on unchanged.
 */
module Validation {
  import opened Options
  import opened Text

  /** `MAX_INPUT_LENGTH`, counted in code points as Python's `len` does. */
  const MaxInputLength: nat := 500

  const NoInputMessage: string := "No valid text input provided"
  /** The f-string of the length check with `MAX_INPUT_LENGTH` filled in. */
  const TooLongMessage: string := "Input exceeds maximum length of 500 characters."

  /** The outcome of the check: the text to analyse, or the message of a 400 reply. */
  datatype Checked = Accepted(text: string) | Rejected(message: string)

  /**
   * The two guards in order: `not text or len(text.strip()) == 0` first, then
   * `len(text) > MAX_INPUT_LENGTH`, so blank input that is also too long is
   * reported as blank.
   */
  function Validate(input: Option<string>): (r: Checked)
    ensures r.Accepted? <==> input.Some? && !AllSpace(input.value) && |input.value| <= MaxInputLength
    ensures r.Accepted? ==> r.text == input.value
    ensures r == Rejected(NoInputMessage) <==> input.None? || AllSpace(input.value)
    ensures r == Rejected(TooLongMessage) <==>
              input.Some? && !AllSpace(input.value) && |input.value| > MaxInputLength
  {
    match input
    case None => Rejected(NoInputMessage)
    case Some(text) =>
      StripEmptyIffAllSpace(text);
      if text == "" || |Strip(text)| == 0 then Rejected(NoInputMessage)
      else if |text| > MaxInputLength then Rejected(TooLongMessage)
      else Accepted(text)
  }

}
