/**
 * The fixed colour vocabulary of app.py: `color_mapping`, which turns a finding's
 * `color_code` into a CSS colour name, and the explanation sentence and icon the
 * card renderer chooses from the same code.
 */
module Colors {

  /** The four colour codes the model is asked to use. */
  const KnownCodes: set<string> := {"red", "yellow", "purple", "white"}

  /** The lookup table inside `color_mapping`: each known code maps to itself. */
  const ColorTable: map<string, string> :=
    map["red" := "red", "yellow" := "yellow", "purple" := "purple", "white" := "white"]

  /** The colour used for every code outside the table. */
  const DefaultColor: string := "black"

  /** `color_mapping(code)`: `mapping.get(code, "black")`. */
  function ColorMapping(code: string): (r: string)
    ensures r in KnownCodes + {DefaultColor}
    ensures code in KnownCodes ==> r == code
    ensures code !in KnownCodes ==> r == DefaultColor
  {
    if code in ColorTable then ColorTable[code] else DefaultColor
  }

  const RedExplanation: string :=
    "This ingredient is harmful due to its high saturated fat content and potential health risks."
  const YellowExplanation: string :=
    "This ingredient is moderate; it may have benefits but also potential risks in high amounts."
  const PurpleExplanation: string :=
    "This ingredient is generally safe but may cause allergies or reactions in sensitive individuals."
  const WhiteExplanation: string :=
    "This ingredient is considered non-harmful and safe for most people."

  /**
   * The sentence chosen by the `if`/`elif` chain of the renderer: one of the four
   * sentences for a known code, the empty string for any other code.
   */
  function Explanation(code: string): (r: string)
    ensures r in {RedExplanation, YellowExplanation, PurpleExplanation, WhiteExplanation, ""}
    ensures r != "" <==> code in KnownCodes
  {
    if code == "red" then RedExplanation
    else if code == "yellow" then YellowExplanation
    else if code == "purple" then PurpleExplanation
    else if code == "white" then WhiteExplanation
    else ""
  }

  const SafeIcon: string := "fa-check-circle"
  const WarningIcon: string := "fa-exclamation-circle"

  /** The Font Awesome icon class of a card: a check mark for "white" only. */
  function Icon(code: string): (r: string)
    ensures r in {SafeIcon, WarningIcon}
    ensures r == SafeIcon <==> code == "white"
  {
    if code == "white" then SafeIcon else WarningIcon
  }

  /**
   * The colour and explanation lookups agree on what a known code is: a code gets
   * a colour other than black exactly when it gets an explanation, and the four
   * codes get four different sentences.
   */
  lemma LookupsAgree(code: string, other: string)
    ensures ColorMapping(code) != DefaultColor <==> Explanation(code) != ""
    ensures Explanation(code) != "" && Explanation(code) == Explanation(other) ==> code == other
  {
  }

}
