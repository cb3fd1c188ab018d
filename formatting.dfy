/**
 * `format_response`: cut the model's reply from its first `[` to its last `]`,
 * decode that slice as JSON, and render every record of the resulting list as an
 * HTML card, or report which step failed.
 *
 * `json.loads` is a parameter `parse`; it returns `None` where `json.loads`
 * raises `JSONDecodeError`. A decoded value is either a list of entries or some
 * other value, and an entry is either an object, with its string fields as a
 * `map`, or something else.
 */
module Formatting {
  import opened Options
  import opened Text
  import opened Colors

  datatype Entry = Record(fields: map<string, string>) | NotRecord
  datatype JsonValue = JArray(items: seq<Entry>) | NotArray

  /** What `format_response` returns: an HTML string, or a dictionary `{"error": message}`. */
  datatype Payload = Html(html: string) | ErrorBody(message: string)

  const InvalidFormatMessage: string := "Invalid response format"
  const DecodeFailedMessage: string := "Failed to decode API response as JSON."
  const NotListMessage: string := "Response is not in the expected format."
  const FormattingFailedMessage: string := "An unexpected error occurred while formatting the response."
  const NoFindingsText: string := "No flagged ingredient found."

  /**
   * The slice `reply[reply.find('['):reply.rfind(']') + 1]`, or `None` when the
   * guard `start_index == -1 or end_index == -1` fires. Since `rfind` returns at
   * least -1, `end_index` is at least 0 and only a missing `[` makes the guard fire;
   * a missing `]` (or one only before the first `[`) yields the empty slice.
   */
  function JsonPart(reply: string): (r: Option<string>)
    ensures r.None? <==> '[' !in reply
    ensures r.Some? && OccursFrom(reply, ']', Find(reply, '[')) ==>
              var i, j := Find(reply, '['), FindLast(reply, ']');
              i <= j && r.value == reply[i..j + 1]
              && r.value[0] == '[' && r.value[|r.value| - 1] == ']'
              && ']' !in reply[j + 1..]
    ensures r.Some? && !OccursFrom(reply, ']', Find(reply, '[')) ==> r.value == ""
  {
    var start := Find(reply, '[');
    var end := FindLast(reply, ']') + 1;
    if start == -1 || end == -1 then None
    else
      LastCloserFrom(reply, start);
      Some(Slice(reply, start, end))
  }

  /** A `]` occurs at or after index `lo` exactly when the last `]` is at or after `lo`. */
  lemma LastCloserFrom(reply: string, lo: nat)
    ensures OccursFrom(reply, ']', lo) <==> lo <= FindLast(reply, ']')
  {
    var j := FindLast(reply, ']');
    if OccursFrom(reply, ']', lo) {
      var k :| lo <= k < |reply| && reply[k] == ']';
      assert k <= j by {
        assert forall m :: j < m < |reply| ==> reply[m] == reply[j + 1..][m - j - 1];
      }
    }
  }

  /** An entry the renderer can use: an object with both a `color_code` and a `name`. */
  predicate Renderable(e: Entry)
  {
    e.Record? && "color_code" in e.fields && "name" in e.fields
  }

  predicate AllRenderable(entries: seq<Entry>)
  {
    forall k :: 0 <= k < |entries| ==> Renderable(entries[k])
  }

  /** The values one card shows: border and title colour, icon class, name and explanation. */
  datatype Card = Card(color: string, icon: string, name: string, details: string)

  /**
   * The values the loop body computes from one record: its name, `color_mapping`
   * of its code, the check icon exactly for "white", and an explanation exactly
   * when the colour is not black.
   */
  function CardOf(e: Entry): (c: Card)
    requires Renderable(e)
    ensures var code := e.fields["color_code"];
            c.name == e.fields["name"]
            && c.color in KnownCodes + {DefaultColor}
            && (code in KnownCodes ==> c.color == code)
            && (code !in KnownCodes ==> c.color == DefaultColor)
            && (c.icon == SafeIcon <==> code == "white")
            && (c.details == "" <==> c.color == DefaultColor)
  {
    var code := e.fields["color_code"];
    Card(ColorMapping(code), Icon(code), e.fields["name"], Explanation(code))
  }

  /** The strings of `parts` joined in order, as repeated `+=` builds them. */
  function Concat(parts: seq<string>): string
  {
    if parts == [] then "" else Concat(parts[..|parts| - 1]) + parts[|parts| - 1]
  }

  /** Joining distributes over concatenation of the lists of parts. */
  lemma {:induction false} ConcatAppend(a: seq<string>, b: seq<string>)
    ensures Concat(a + b) == Concat(a) + Concat(b)
    decreases |b|
  {
    if b == [] {
      assert a + b == a;
    } else {
      var ab := a + b;
      assert ab[..|ab| - 1] == a + b[..|b| - 1];
      ConcatAppend(a, b[..|b| - 1]);
    }
  }

  /** `t` occurs in `s` as a contiguous piece. */
  predicate Contains(s: string, t: string)
  {
    exists i :: 0 <= i <= |s| && t <= s[i..]
  }

  /** Every part shows up in the joined string; a non-empty first part also starts it. */
  lemma {:induction false} ConcatShowsParts(parts: seq<string>, k: nat)
    requires k < |parts|
    ensures Contains(Concat(parts), parts[k])
    ensures |parts[0]| > 0 ==> |Concat(parts)| > 0 && Concat(parts)[0] == parts[0][0]
  {
    var init, last := parts[..|parts| - 1], parts[|parts| - 1];
    var joined := Concat(init);
    if k == |parts| - 1 {
      assert (joined + last)[|joined|..] == last;
    } else {
      ConcatShowsParts(init, k);
      var i :| 0 <= i <= |joined| && init[k] <= joined[i..];
      assert (joined + last)[i..] == joined[i..] + last;
    }
    if |parts| > 1 {
      ConcatShowsParts(init, 0);
    }
  }

  /** The markup the f-string puts around and between the card's values. */
  const CardOpen: string := "\n" + "                <div class=\"card mb-3\" style=\"border-left: 5px solid "
  const BeforeTitleColor: string :=
    ";\">\n                    <div class=\"card-body\">\n                        <h5 class=\"ingredient\" style=\"color: "
  const BeforeIcon: string := ";\" onclick=\"toggleDetails(this)\">\n                            <i class=\"fas "
  const BeforeName: string := "\"></i>\n                            "
  const BeforeDetails: string :=
    "\n                        </h5>\n                        <div class=\"details\" style=\"display: none;\">"
  const CardClose: string :=
    "</div>\n                    </div>\n                </div>\n            "

  /** The pieces of one card's HTML: the markup with the card's values in its holes. */
  function FragmentParts(c: Card): (r: seq<string>)
    ensures |r| == 11 && r[1] == c.color && r[3] == c.color && r[5] == c.icon
    ensures r[7] == c.name && r[9] == c.details && r[0] == CardOpen
  {
    [CardOpen, c.color, BeforeTitleColor, c.color, BeforeIcon, c.icon,
     BeforeName, c.name, BeforeDetails, c.details, CardClose]
  }

  /** The HTML fragment of one card. */
  function Fragment(c: Card): string
  {
    Concat(FragmentParts(c))
  }

  /** A fragment is never empty, opens with a line break, and shows every value of its card. */
  lemma FragmentShowsCard(c: Card)
    ensures |Fragment(c)| > 0 && Fragment(c)[0] == '\n'
    ensures Contains(Fragment(c), c.color)
    ensures Contains(Fragment(c), c.icon)
    ensures Contains(Fragment(c), c.name)
    ensures Contains(Fragment(c), c.details)
  {
    var parts := FragmentParts(c);
    assert CardOpen[0] == '\n';
    ConcatShowsParts(parts, 1);
    ConcatShowsParts(parts, 5);
    ConcatShowsParts(parts, 7);
    ConcatShowsParts(parts, 9);
  }

  /** One fragment per record, in the order of the records. */
  function Fragments(entries: seq<Entry>): (r: seq<string>)
    requires AllRenderable(entries)
    ensures |r| == |entries|
    ensures forall k :: 0 <= k < |entries| ==> r[k] == Fragment(CardOf(entries[k]))
  {
    seq(|entries|, k requires 0 <= k < |entries| => Fragment(CardOf(entries[k])))
  }

  /** The accumulator `result_html` after the loop has appended the cards of `entries`. */
  function RenderedCards(entries: seq<Entry>): string
    requires AllRenderable(entries)
  {
    Concat(Fragments(entries))
  }

  /** Each record yields its own fragment, placed after those of all earlier records. */
  lemma CardsInOrder(entries: seq<Entry>, k: nat)
    requires AllRenderable(entries) && k < |entries|
    ensures AllRenderable(entries[..k]) && AllRenderable(entries[k + 1..])
    ensures RenderedCards(entries)
         == RenderedCards(entries[..k]) + Fragment(CardOf(entries[k])) + RenderedCards(entries[k + 1..])
  {
    var fs := Fragments(entries);
    assert fs == Fragments(entries[..k]) + [fs[k]] + Fragments(entries[k + 1..]);
    ConcatAppend(Fragments(entries[..k]) + [fs[k]], Fragments(entries[k + 1..]));
    ConcatAppend(Fragments(entries[..k]), [fs[k]]);
    assert Concat([fs[k]]) == fs[k] by { assert [fs[k]][..0] == []; }
  }

  /** An empty list renders to nothing; a non-empty one to text that is not the "nothing found" literal. */
  lemma {:induction false} RenderedCardsEmptyIff(entries: seq<Entry>)
    requires AllRenderable(entries)
    ensures RenderedCards(entries) == "" <==> entries == []
    ensures entries != [] ==> RenderedCards(entries)[0] == '\n' && RenderedCards(entries) != NoFindingsText
  {
    if entries != [] {
      CardsInOrder(entries, 0);
      assert entries[..0] == [];
      FragmentShowsCard(CardOf(entries[0]));
      assert RenderedCards(entries)[0] == Fragment(CardOf(entries[0]))[0];
      assert NoFindingsText[0] == 'N';
    }
  }

  /**
   * The whole of `format_response`, as the value it returns: the method
   * `FormatResponse` is proved against this function. Its error cases are stated by `FormattedReplyErrors`,
   * its HTML cases by `FormattedReplyRenders`.
   */
  function FormattedReply(reply: Option<string>, parse: string -> Option<JsonValue>): Payload
  {
    match reply
    case None => ErrorBody(FormattingFailedMessage)
    case Some(s) =>
      match JsonPart(s)
      case None => ErrorBody(InvalidFormatMessage)
      case Some(part) =>
        match parse(part)
        case None => ErrorBody(DecodeFailedMessage)
        case Some(NotArray) => ErrorBody(NotListMessage)
        case Some(JArray(items)) =>
          if !AllRenderable(items) then ErrorBody(FormattingFailedMessage)
          else if RenderedCards(items) == "" then Html(NoFindingsText)
          else Html(RenderedCards(items))
  }

  /**
   * The `for ing in ingredients` loop of `format_response`: the cards are
   * appended to `html` one record at a time, and a record that is not an object
   * or lacks a key abandons the partial HTML (`None`, where Python raises).
   */
  method RenderCards(items: seq<Entry>) returns (r: Option<string>)
    ensures r.Some? <==> AllRenderable(items)
    ensures r.Some? ==> r.value == RenderedCards(items)
  {
    var html := "";
    var i := 0;
    while i < |items|
      invariant 0 <= i <= |items|
      invariant AllRenderable(items[..i])
      invariant html == RenderedCards(items[..i])
    {
      var e := items[i];
      if !Renderable(e) {
        return None;
      }
      RenderOneMore(items, i);
      html := html + Fragment(CardOf(e));
      i := i + 1;
    }
    assert items[..i] == items;
    return Some(html);
  }

  /** The loop step: one more record appends exactly its own fragment. */
  lemma RenderOneMore(items: seq<Entry>, i: nat)
    requires i < |items| && AllRenderable(items[..i]) && Renderable(items[i])
    ensures AllRenderable(items[..i + 1])
    ensures RenderedCards(items[..i + 1]) == RenderedCards(items[..i]) + Fragment(CardOf(items[i]))
  {
    assert AllRenderable(items[..i + 1]) by {
      var grown := items[..i + 1];
      forall k | 0 <= k < |grown| ensures Renderable(grown[k]) {
        if k < i { assert grown[k] == items[..i][k]; }
      }
    }
    var done := Fragments(items[..i]);
    var more := Fragments(items[..i + 1]);
    assert more == done + [Fragment(CardOf(items[i]))];
    assert more[..i] == done;
  }

  /** `format_response`: slice, decode, check for a list, render, or report the failing step. */
  method FormatResponse(reply: Option<string>, parse: string -> Option<JsonValue>) returns (p: Payload)
    ensures p == FormattedReply(reply, parse)
  {
    if reply.None? {
      return ErrorBody(FormattingFailedMessage);
    }
    var s := reply.value;
    var start := Find(s, '[');
    var end := FindLast(s, ']') + 1;
    if start == -1 || end == -1 {
      return ErrorBody(InvalidFormatMessage);
    }
    var decoded := parse(Slice(s, start, end));
    if decoded.None? {
      return ErrorBody(DecodeFailedMessage);
    }
    if decoded.value.NotArray? {
      return ErrorBody(NotListMessage);
    }
    var html := RenderCards(decoded.value.items);
    if html.None? {
      return ErrorBody(FormattingFailedMessage);
    }
    p := if html.value != "" then Html(html.value) else Html(NoFindingsText);
  }

  /** Which step fails decides the message, and each message belongs to exactly one step. */
  lemma FormattedReplyErrors(reply: Option<string>, parse: string -> Option<JsonValue>)
    ensures reply.None? ==> FormattedReply(reply, parse) == ErrorBody(FormattingFailedMessage)
    ensures reply.Some? ==>
      var s, r := reply.value, FormattedReply(reply, parse);
      (r == ErrorBody(InvalidFormatMessage) <==> '[' !in s)
      && (r == ErrorBody(DecodeFailedMessage) <==> '[' in s && parse(JsonPart(s).value).None?)
      && (r == ErrorBody(NotListMessage) <==> '[' in s && parse(JsonPart(s).value) == Some(NotArray))
      && (r == ErrorBody(FormattingFailedMessage) <==>
            '[' in s && parse(JsonPart(s).value).Some? && parse(JsonPart(s).value).value.JArray?
            && !AllRenderable(parse(JsonPart(s).value).value.items))
  {
    assert InvalidFormatMessage != DecodeFailedMessage && InvalidFormatMessage != NotListMessage;
    assert InvalidFormatMessage != FormattingFailedMessage && DecodeFailedMessage != NotListMessage;
    assert DecodeFailedMessage != FormattingFailedMessage && NotListMessage != FormattingFailedMessage;
  }

  /**
   * A reply whose slice decodes to a list of complete records is rendered: the
   * "nothing found" literal exactly for the empty list, the cards otherwise.
   */
  lemma FormattedReplyRenders(s: string, parse: string -> Option<JsonValue>, items: seq<Entry>)
    requires '[' in s && parse(JsonPart(s).value) == Some(JArray(items)) && AllRenderable(items)
    ensures FormattedReply(Some(s), parse) == Html(if items == [] then NoFindingsText else RenderedCards(items))
    ensures FormattedReply(Some(s), parse) == Html(NoFindingsText) <==> items == []
  {
  }

  /**
   * What the JSON grammar guarantees of `json.loads`: the empty text is not JSON,
   * and a text that starts with `[` can only decode to a list.
   */
  ghost predicate FollowsJsonGrammar(parse: string -> Option<JsonValue>)
  {
    parse("") == None
    && forall t :: |t| > 0 && t[0] == '[' && parse(t).Some? ==> parse(t).value.JArray?
  }

  /**
   * With a decoder that follows the JSON grammar, the "not in the expected
   * format" error cannot occur: every non-empty slice starts with `[`.
   */
  lemma NotListUnreachable(s: string, parse: string -> Option<JsonValue>)
    requires FollowsJsonGrammar(parse)
    ensures FormattedReply(Some(s), parse) != ErrorBody(NotListMessage)
  {
    if '[' in s {
      var part := JsonPart(s).value;
      if |part| > 0 {
        assert OccursFrom(s, ']', Find(s, '['));
        assert part[0] == '[';
      }
      assert parse(part).Some? ==> parse(part).value.JArray?;
    }
  }

  /**
   * A reply with a `[` but no `]` at or after it is reported as a decoding
   * failure, not as an invalid format: the slice is empty and the guard on
   * `end_index` never fires.
   */
  lemma MissingCloserIsDecodeError(s: string, parse: string -> Option<JsonValue>)
    requires FollowsJsonGrammar(parse)
    requires '[' in s && !OccursFrom(s, ']', Find(s, '['))
    ensures FormattedReply(Some(s), parse) == ErrorBody(DecodeFailedMessage)
  {
  }

}
