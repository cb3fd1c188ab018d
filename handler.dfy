/**
 * The request handler `process_text` and the helper `analyze_ingredients` it
 * delegates to. The chat-completion call is the parameter `api`, which receives
 * the sanitised text (the prompt wrapped around it is fixed text); `json.loads`
 * is the parameter `parse` of the formatting module.
 */
module Handler {
  import opened Options
  import opened Sanitizer
  import opened Validation
  import opened Formatting

  /** What the chat-completion call does: answer with choices, or raise. */
  datatype Upstream =
    | Completion(choices: seq<Option<string>>)  // each choice's `message.content`, which may be `None`
    | ProviderFailure                           // the client raised `OpenAIError`
    | OtherFailure                              // the client raised any other exception

  const ApiFailedMessage: string := "An error occurred while communicating with the OpenAI API."
  const AnalysisFailedMessage: string := "An unexpected error occurred while analyzing ingredients."

  /**
   * What `analyze_ingredients` returns once the call has produced `outcome`: the
   * method `AnalyzeIngredients` is proved against this function. The two upstream messages
   * are used exactly for the failures of the call itself; otherwise the first
   * choice is formatted.
   */
  function Analysis(outcome: Upstream, parse: string -> Option<JsonValue>): (p: Payload)
    ensures p == ErrorBody(ApiFailedMessage) <==> outcome.ProviderFailure? || outcome == Completion([])
    ensures p == ErrorBody(AnalysisFailedMessage) <==> outcome.OtherFailure?
    ensures outcome.Completion? && outcome.choices != [] ==> p == FormattedReply(outcome.choices[0], parse)
  {
    match outcome
    case ProviderFailure => ErrorBody(ApiFailedMessage)
    case OtherFailure => ErrorBody(AnalysisFailedMessage)
    case Completion(choices) =>
      if choices == [] then ErrorBody(ApiFailedMessage) else FormattedReply(choices[0], parse)
  }

  /**
   * `analyze_ingredients`: sanitise, call the model with the sanitised text,
   * take the first choice's content and format it; provider errors, a reply
   * without choices and any other exception become error payloads.
   */
  method AnalyzeIngredients(text: string, api: string -> Upstream, parse: string -> Option<JsonValue>)
    returns (p: Payload)
    ensures p == Analysis(api(Sanitize(text)), parse)
  {
    var clean := Sanitize(text);
    var outcome := api(clean);
    match outcome {
      case ProviderFailure =>
        p := ErrorBody(ApiFailedMessage);
      case OtherFailure =>
        p := ErrorBody(AnalysisFailedMessage);
      case Completion(choices) =>
        if |choices| == 0 {
          p := ErrorBody(ApiFailedMessage);
        } else {
          p := FormatResponse(choices[0], parse);
        }
    }
  }

  /** An HTTP status with the JSON body `jsonify` would produce from the payload. */
  datatype Response = Response(status: int, body: Payload)

  /**
   * `process_text`: 400 with the validation message for rejected input, without
   * calling the model; otherwise the analysis result, with 500 when it is an
   * error dictionary and 200 when it is HTML or the "nothing found" text.
   */
  method ProcessText(input: Option<string>, api: string -> Upstream, parse: string -> Option<JsonValue>)
    returns (resp: Response)
    ensures Validate(input).Rejected? ==> resp == Response(400, ErrorBody(Validate(input).message))
    ensures Validate(input).Accepted? ==> resp.body == Analysis(api(Sanitize(input.value)), parse)
    ensures resp.status == 400 <==> Validate(input).Rejected?
    ensures resp.status == 500 <==> Validate(input).Accepted? && resp.body.ErrorBody?
    ensures resp.status == 200 <==> resp.body.Html?
  {
    var checked := Validate(input);
    if checked.Rejected? {
      return Response(400, ErrorBody(checked.message));
    }
    var result := AnalyzeIngredients(checked.text, api, parse);
    if result.ErrorBody? {
      return Response(500, result);
    }
    return Response(200, result);
  }

}
