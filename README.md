# Ingredients analyser: request pipeline

A model of the request pipeline of a small Flask application that takes a free-text
list of food ingredients, asks a hosted language model which of them are harmful,
and renders the model's JSON answer as colour-coded HTML cards. The pipeline is
`process_text` (validate the form field), `analyze_ingredients` (sanitise the text,
call the model) and `format_response` (cut the JSON array out of the reply, decode
it, render one card per finding).

Modules, one per concern of `app.py`:

- `Text` — the Python string operations the pipeline relies on: `find`, `rfind`,
  slicing with non-negative bounds and a bare `strip()` with Python's exact set of
  whitespace characters.
- `Validation` — the two guards of `process_text` and their messages.
- `Sanitizer` — `re.sub(r'[^a-zA-Z0-9, ]', '', text)`.
- `Colors` — `color_mapping`, the four explanation sentences and the icon choice.
- `Formatting` — `format_response`: the bracket slicing, the list check, the render
  loop (`RenderCards`, a method with loop invariants over the accumulator) and the
  error messages. `json.loads` is a parameter `parse` returning `None` where it
  raises `JSONDecodeError`; a decoded value is a list of entries or something else,
  and an entry is an object (its fields as a `map<string, string>`) or something else.
- `Handler` — `analyze_ingredients` and `process_text`. The chat-completion call is a
  parameter `api` that receives the sanitised text and yields choices (each with a
  possibly absent `message.content`), a provider error, or any other exception.

Behaviour of `app.py` that the model makes explicit:

- `end_index = rfind(']') + 1` (app.py:106) is never -1, so the `end_index == -1`
  test at app.py:108 never holds: only a missing `[` gives "Invalid response format".
  A `[` with no `]` at or after it gives the empty slice, which `json.loads` rejects,
  so the reply is reported as "Failed to decode API response as JSON." (`JsonPart`,
  `MissingCloserIsDecodeError`).
- For the same reason "Response is not in the expected format." cannot be produced
  with a decoder that follows the JSON grammar: a non-empty slice always starts with
  `[` (`NotListUnreachable`). The model keeps the branch, as the code does.
- The regular expression at app.py:64 keeps commas, so "sugar, red dye 40" passes
  through unchanged (`CleanExample`).

## Model

| member | source | states |
|---|---|---|
| `Text.Find` | app.py:105 | `find('[')` is -1 exactly when there is no `[`, otherwise the index of a `[` with none before it |
| `Text.FindLast` | app.py:106 | `rfind(']')` is -1 exactly when there is no `]`, otherwise the index of a `]` with none after it |
| `Text.Slice` | app.py:111 | `s[i:j]` has length `j - i` when `i < j` and is empty otherwise, and holds `s`'s characters from `i` on |
| `Text.StripLeft` | app.py:45 | removing leading whitespace leaves a suffix that starts with a non-space, and only whitespace was dropped |
| `Text.StripRight` | app.py:45 | removing trailing whitespace leaves a prefix that ends with a non-space, and only whitespace was dropped |
| `Text.Strip` | app.py:45 | `text.strip()` is no longer than the text and starts and ends with a non-space when non-empty; `StripEmptyIffAllSpace` characterises when it is empty |
| `Text.StripEmptyIffAllSpace` | app.py:45 | `len(text.strip()) == 0` holds exactly when the text is empty or all whitespace |
| `Validation.Validate` | app.py:44-48 | input is accepted exactly when present, not blank and at most 500 characters, and then passes through unchanged; missing or blank input gets the "No valid text input" message even when also too long; non-blank input over 500 characters gets the length message |
| `Colors.ColorMapping` | app.py:23-30 | the four known codes map to themselves, every other string to "black"; the result is always one of those five colours |
| `Colors.Explanation` | app.py:119-127 | the `if`/`elif` chain yields one of the four sentences, and a non-empty one exactly for the four known codes |
| `Colors.Icon` | app.py:133 | the icon class is one of the two Font Awesome classes, the check mark exactly for "white" |
| `Colors.LookupsAgree` | app.py:119-127 | a code gets a colour other than black (`color_mapping`, app.py:23-30) exactly when it gets an explanation; distinct known codes get distinct sentences |
| `Sanitizer.Sanitize` | app.py:64 | the sanitised text contains only ASCII letters, digits, commas and spaces and is no longer than the input |
| `Sanitizer.SanitizeIsSubsequence` | app.py:64 | the sanitised text is an in-order subsequence of the input |
| `Sanitizer.SanitizeCounts` | app.py:64 | every kept character occurs as often as in the input, every other character not at all |
| `Sanitizer.SanitizeKeepsClean` | app.py:64 | text made only of kept characters is unchanged |
| `Sanitizer.SanitizeIdempotent` | app.py:64 | sanitising twice equals sanitising once |
| `Sanitizer.SanitizeConcat` | app.py:64 | the filter works per character, so it distributes over concatenation |
| `Sanitizer.CleanExample` | app.py:64 | "sugar, red dye 40" reaches the prompt unchanged, comma included |
| `Sanitizer.PunctuationExample` | app.py:64 | "Red-40" reaches the prompt as "Red40" |
| `Formatting.JsonPart` | app.py:105-111 | the guard fires exactly when the reply has no `[`; with a `]` at or after the first `[` the slice runs from that `[` to the last `]`, starts with `[`, ends with `]` and no `]` follows it in the reply; otherwise the slice is empty |
| `Formatting.LastCloserFrom` | app.py:106-111 | a `]` lies at or after a position exactly when `rfind(']')` is at or after it, which decides whether the slice is empty |
| `Formatting.CardOf` | app.py:120-134 | a card shows the record's name, `color_mapping` of its code, the check icon exactly for "white", and an explanation exactly when the colour is not black |
| `Formatting.Fragment` | app.py:129-139 | one card's HTML is the markup with the card's values in its holes; `FragmentShowsCard` states that it is non-empty, opens with a line break and shows every value |
| `Formatting.FragmentShowsCard` | app.py:129-139 | a fragment is non-empty, starts with a line break and contains the card's colour, icon, name and explanation |
| `Formatting.ConcatAppend` | app.py:117-129 | appending fragment by fragment gives the same string however the list of fragments is split |
| `Formatting.RenderedCards` | app.py:117-139 | `result_html` after the loop is the fragments of the records joined in order; `CardsInOrder` and `RenderedCardsEmptyIff` state where each record's fragment lies and when the result is empty |
| `Formatting.CardsInOrder` | app.py:117-139 | the rendered HTML is the fragments of the earlier records, then the fragment of record k, then those of the later records |
| `Formatting.RenderedCardsEmptyIff` | app.py:141 | the accumulator is empty exactly for the empty list; for a non-empty list it is not the "No flagged ingredient found." literal |
| `Formatting.RenderOneMore` | app.py:118-139 | one more complete record appends exactly its own fragment to the accumulator |
| `Formatting.RenderCards` | app.py:117-139 | the loop succeeds exactly when every entry is an object with `color_code` and `name`, and then yields the fragments of all records in order; otherwise no partial HTML |
| `Formatting.FormattedReply` | app.py:103-147 | the value `format_response` returns, which `FormatResponse` is proved to compute; `FormattedReplyErrors` and `FormattedReplyRenders` state which input yields each error message and when HTML or the literal is returned |
| `Formatting.FormatResponse` | app.py:103-147 | the method computes `FormattedReply`: slice, decode, list check, render loop, empty-result literal and the error for each failing step |
| `Formatting.FormattedReplyErrors` | app.py:104-147 | an absent reply is a formatting error; "Invalid response format" exactly when there is no `[`; the decode message exactly when the slice does not decode; the list message exactly when it decodes to a non-list; the generic formatting message exactly when a record is incomplete |
| `Formatting.FormattedReplyRenders` | app.py:112-141 | a slice decoding to a list of complete records gives the literal exactly for the empty list and the rendered cards otherwise |
| `Formatting.NotListUnreachable` | app.py:105-115 | with a decoder that follows the JSON grammar, "Response is not in the expected format." never occurs |
| `Formatting.MissingCloserIsDecodeError` | app.py:105-144 | a `[` without a `]` at or after it yields the decode error, not "Invalid response format" |
| `Handler.Analysis` | app.py:82-99 | the API message appears exactly for a provider error or a reply without choices, the unexpected-analysis message exactly for any other exception; otherwise the first choice is formatted |
| `Handler.AnalyzeIngredients` | app.py:61-99 | the model is called with the sanitised text only, and the result is what the analysis makes of its outcome |
| `Handler.ProcessText` | app.py:41-57 | rejected input gets 400 and its validation message whatever the model would say; accepted input gets the analysis of its sanitised text, with 500 exactly for error payloads and 200 exactly for HTML or the literal |

## Left out

- The Flask plumbing: routing, the `/` page, `render_template`, `jsonify` and
  `request.form`; the handler takes the form field as an optional string and returns
  a status with a payload. The `isinstance(text, str)` test is always true for a form
  value and is not modelled separately.
- The OpenAI client, the prompt text, the model name, the 30-second timeout, logging
  and `load_dotenv`: the call is the parameter `api`, fed the sanitised text.
- The inside of `json.loads`: it is the parameter `parse`. Only two facts of the JSON
  grammar are used, and only where stated (`FollowsJsonGrammar`). Exceptions other
  than `JSONDecodeError` from the decoder (such as deep nesting) are not modelled.
- JSON field values other than strings: a record's fields are a `map<string, string>`.
  A numeric `color_code` (which Python maps to "black") or an unhashable one (which
  raises inside `color_mapping`) is not represented.
- Python strings that hold lone surrogate code points, which a Dafny `char` cannot.
- The card markup reproduces the f-string's text and indentation, but the proved
  properties are about order and contents, not about exact bytes.
- static/script.js: browser DOM code and an asynchronous `fetch` handler, with no
  logic to state.
