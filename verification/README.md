# Itinerary response pipeline, modelled in Dafny

The system asks a language model for a travel itinerary for a named destination
and turns the model's free-form answer into a strict four-field record. The
completion call wraps a small deterministic core, and that core is what this
project models:

- `get_api_key` reads the provider credential from the environment.
- `_extract_text` digs the output text out of the provider's response envelope.
  It tries the chat path `choices[0].message.content` first and the completion
  path `choices[0].text` second.
- `parse_json` trims the text and rejects empty output. It then removes a
  Markdown triple-backtick fence of one exact shape. If the text does not
  already start with `{`, it cuts it down to the outermost `{ … }` span. The
  result goes to the JSON parser.
- `ItinerarySchema` accepts an object with four fields:
  - `destination`: a string of 1 to 120 characters;
  - `price_range`: a string;
  - `ideal_visit_times` and `top_attractions`: lists of strings of any length.
- `get_itinerary` chains these steps. The first failing stage decides the
  error, and no partial result is returned.

Modules:

- `Wrappers`: `Option` and `Result` with `:-` support.
- `Json`: the parsed-value datatype. It also models Python's truthiness and
  Python's `x[key]` and `x[0]` indexing, which can fail.
- `Text`:
  - `str.strip` over the `str.isspace` code points;
  - `find` and `rfind`;
  - `splitlines` with `\n` as the only line boundary;
  - `"\n".join`.
- `Errors`: the failure kinds.
- `ApiKey`, `Extraction`, `Normalize`, `Schema`: one module for each of the
  four steps above.
- `Pipeline`: the whole request/response cycle. The completion call and
  `json.loads` are function parameters.

## Model

| member | source | states |
|---|---|---|
| ApiKey.GetApiKey | analyze.py:16-20 | The key is returned iff the variable is set and non-empty. It is returned unchanged; otherwise the result is the missing-credential error. |
| Json.Truthy | analyze.py:33 | Python truthiness for `(text or "")`: `None`, `False`, zero, `""`, `[]` and `{}` are falsy; every other value is truthy. |
| Json.Member | analyze.py:24 | `x[key]` succeeds exactly on an object holding the key and yields that field. |
| Json.Element | analyze.py:24 | `x[0]`:<br>- on a list, it succeeds iff the index is in range and gives that element;<br>- on a string, it succeeds iff the index is in range and gives the string holding the character at that index;<br>- on anything else, it fails. |
| Extraction.ChatContent | analyze.py:24 | The chat path succeeds iff `choices` is a non-empty list whose first item is an object holding a `message` object with a `content` key. It gives that content. |
| Extraction.CompletionText | analyze.py:28 | The completion path succeeds iff `choices` is a non-empty list whose first item is an object with a `text` key. It gives that text. |
| Extraction.FirstSuccess | analyze.py:22-30 | Trying access paths in order gives nothing iff every path fails. Otherwise it gives the value of the first path that succeeds. |
| Extraction.ExtractText | analyze.py:22-30 | The chat content wins whenever that path exists. The completion text is used only when the chat path fails. The result is the unexpected-format error iff both paths fail. |
| Extraction.ChatWinsOverCompletion | analyze.py:23-24 | A choice that has both a message content and a text yields the message content. |
| Extraction.MessageWithoutContentFallsBack | analyze.py:23-28 | A message without content falls back to the choice's text. |
| Extraction.EmptyChoiceIsUnexpected | analyze.py:27-30 | The envelope `{"choices": [{}]}` is rejected as having an unexpected format. |
| Text.IsWhitespace | analyze.py:33 | Exactly the code points of `str.isspace`, which `strip` removes:<br>- space, `\t`, `\n`, `\r`, `\x0b` and `\x0c`;<br>- `\x1c` to `\x1f`;<br>- `\x85`, `\xa0` and U+1680;<br>- U+2000 to U+200A;<br>- U+2028, U+2029, U+202F, U+205F and U+3000. |
| Text.Strip | analyze.py:33 | The stripped text has no whitespace at either end. It is the contiguous piece of the input that is left once only whitespace is removed around it. It is empty iff the input is all whitespace. |
| Text.StripIdempotent | analyze.py:33 | Stripping twice is the same as stripping once. |
| Text.TrimmedIsFixedPoint | analyze.py:44 | Stripping text that has no whitespace at either end leaves it unchanged. |
| Text.Find | analyze.py:41 | `find` returns -1 iff the character is absent. Otherwise it returns an index holding the character, with no earlier occurrence. |
| Text.RFind | analyze.py:42 | `rfind` returns -1 iff the character is absent. Otherwise it returns an index holding the character, with no later occurrence. |
| Text.FindIsFirst | analyze.py:41 | An occurrence with none before it is the one `find` returns. |
| Text.RFindIsLast | analyze.py:42 | An occurrence with none after it is the one `rfind` returns. |
| Text.StartsWith | analyze.py:36-40 | `startswith`: the prefix is no longer than the text and matches its first characters. |
| Text.Join | analyze.py:39 | `"\n".join`: the lines with one line break between each pair. Its round trips with splitting are `Text.JoinSplit` and `Text.SplitJoin`. |
| Text.JoinShape | analyze.py:39 | The first line comes first in the join, and the join holds a line break iff it joins two or more single lines. |
| Text.SplitLines | analyze.py:37 | The input splits into no lines iff it is empty. No line holds a newline. Re-joining the lines, plus a final newline if the text ended with one, gives back the input. |
| Text.JoinSplit | analyze.py:37-39 | Joining the lines of a split gives back the text. |
| Text.SplitJoin | analyze.py:37-39 | Splitting the join of newline-free lines gives back the lines. |
| Text.SplitAround | analyze.py:37 | Splitting at a newline splits the two sides separately. |
| Normalize.RawText | analyze.py:33 | A falsy payload becomes the empty text. A string payload is returned as its own text. It fails iff the payload is a truthy non-string, since that has no `strip`. |
| Normalize.NormalizedText | analyze.py:32-44 | Empty output is reported iff the payload is falsy or whitespace-only text. The no-text error is reported iff the payload is truthy but not a string. No other error arises. A successful result is a contiguous piece of the payload text. |
| Normalize.StripFence | analyze.py:36-39 | Text not starting with a fence is kept. Text of fewer than three lines is kept. The result is always a contiguous piece of the input. |
| Normalize.UnclosedFenceIsKept | analyze.py:38 | Text whose last line is not a fence line is kept. |
| Normalize.UnwrapFence | analyze.py:36-39 | A block made of a fence line, a body and a fence line becomes its trimmed body. |
| Normalize.FenceShape | analyze.py:36-39 | If fence stripping changes trimmed text, that text is a block of at least three lines with fence lines first and last. The result is its trimmed middle. |
| Normalize.SliceBraces | analyze.py:40-44 | Text starting with `{` is kept. A changed result is the slice of the text at its first `{`; it has at least two characters and starts with `{` and ends with `}`. |
| Normalize.SliceOfSpan | analyze.py:40-44 | For text not starting with `{`: when the first `{` comes before the last `}`, the result is exactly the text from the one through the other. |
| Normalize.SliceIsOutermostSpan | analyze.py:40-44 | For text not starting with `{`: given a `{` with none before it and a later `}` with none after it, the result is the slice between them, inclusive. |
| Normalize.SliceChangesIffBracePair | analyze.py:40-43 | Slicing changes the text iff the text does not start with `{` and some `{` comes before some `}`. So the text is kept when there is no `{`, no `}`, or no `}` after the first `{`. |
| Normalize.SliceIsInfix | analyze.py:44 | The slice is always a contiguous piece of its input. |
| Normalize.ParseJson | analyze.py:45-48 | Success iff normalisation succeeds and the parser accepts the text, giving the parser's value. The invalid-JSON error is reported iff the parser rejects the normalised text. Every other error is normalisation's own. |
| Normalize.BlankFencedBodyReachesParser | analyze.py:33-46 | A fenced block with a blank body is not reported as empty output. It reaches the parser as the empty text. |
| Normalize.FencedTextNormalizesAlike | analyze.py:36-44 | JSON text inside a fence with a language tag normalises exactly as the bare JSON does. |
| Normalize.ProseAroundObjectIsCut | analyze.py:40-44 | An object is cut out of the text around it under three conditions:<br>- the lead-in is non-empty, starts with neither whitespace nor a backtick, and holds no `{`;<br>- the sign-off holds no `}`;<br>- the sign-off is empty or does not end in whitespace.<br>The text then normalises to the object alone, as the bare object does. |
| Normalize.ObjectThenProseIsKept | analyze.py:40 | Text that starts with an object is never sliced: an object followed by a sign-off that does not end in whitespace reaches the parser with the sign-off still attached. |
| Normalize.BareObjectNormalizes | analyze.py:40 | Text made of one brace-delimited object reaches the parser unchanged. |
| Schema.ItemViolationsExact | analyze.py:13-14 | Every non-string list item is reported at its index, and every report names a non-string item. |
| Schema.Conforms | analyze.py:10-14 | The acceptance rule:<br>- the value is an object;<br>- `destination` is a string of 1 to 120 characters;<br>- `price_range` is a string;<br>- both list fields are lists of strings of any length. |
| Schema.Violations | analyze.py:83-85 | The list of complaints pydantic would raise is empty iff the object conforms. The not-an-object complaint appears iff the value is not an object. |
| Schema.Validate | analyze.py:10-14 | Validation succeeds iff the object conforms. On success the record is well formed and dumps to the object's four schema fields. On failure it carries the complete violation list, and no record is returned. |
| Schema.Dump | analyze.py:86 | `model_dump()` gives an object with exactly the four schema keys. |
| Schema.DumpConforms | analyze.py:83-86 | The dump of a valid record has exactly the four schema keys and itself conforms. |
| Schema.DumpInjective | analyze.py:86 | Distinct records dump to distinct objects. |
| Schema.ValidateDump | analyze.py:83-86 | Validating the dump of a well-formed record gives back that record, whatever its list lengths. |
| Schema.EmptyListsAccepted | analyze.py:13-14 | Empty visit-time and attraction lists are accepted. |
| Schema.ExtraKeysIgnored | analyze.py:10-14 | A key outside the schema does not change the outcome. |
| Schema.OnlyDestinationRejected | analyze.py:10-14 | `{"destination": …}` alone is rejected with one missing-field report for each of the other three fields, in declaration order. |
| Schema.OverlongDestinationRejected | analyze.py:11 | A destination over 120 characters is rejected with the too-long report alone. |
| Pipeline.GetItinerary | analyze.py:62-86 | The first failing stage decides the error:<br>- a missing key gives the missing-credential error;<br>- a provider failure propagates with its reason;<br>- an extraction failure gives the unexpected-format error;<br>- a normalisation or parse failure gives that stage's error.<br>A success is an object with exactly the four schema keys that conforms to the schema. |
| Pipeline.MissingKeyNeverCallsProvider | analyze.py:62 | With the key unset or empty, the result is the same whatever the completion call would do. |
| Pipeline.SuccessComesFromModelOutput | analyze.py:80-86 | A success means extraction and parsing succeeded and the parsed output conforms. The result is the schema part of that output, so its destination is the model's, not necessarily the requested one. |
| Pipeline.ValidatedStage | analyze.py:82-86 | Once the output is parsed, validation alone decides the outcome. |
| Pipeline.FencedObjectNormalizes | analyze.py:36-44 | An object inside a ```` ```json ```` fence normalises to the object text. |
| Pipeline.FencedObjectAnswer | analyze.py:80-86 | A chat answer holding a fenced object yields the dump of the record the parser reads from it. |
| Pipeline.FencedTokyoAnswer | analyze.py:80-86 | The fenced Tokyo answer yields the Tokyo record, although it lists only two visit times. |

## Left out

- The `litellm` completion call and the prompt text (analyze.py:63-79) are foreign I/O. The call is the `complete` parameter of `Pipeline.GetItinerary`, and the prompt has no behaviour to model.
- Pipeline.GetItinerary: the code lets a provider exception propagate unchanged. The model keeps only its reason, as `ProviderFailure`.
- `os.getenv` is replaced by its answer, an `Option<string>`.
- `json.loads` is the `parse` parameter, which answers `None` where the real parser would raise. The decoder's error message is dropped.
- Every error message string is left out. Errors are the `Errors.Error` kinds, and schema failures list `Errors.Violation`s.
- Pydantic internals are left out:
  - strict versus lax coercion beyond the JSON types;
  - the wording of error messages;
  - the key order of `model_dump`.

  Nothing is coerced, in the code or in the model. Pydantic v2 lax mode does not turn a JSON number into a `str`. So a `str` field accepts only a JSON string, and a `List[str]` field only a JSON array of strings.
- Text.SplitLines: the model splits at `\n` only. Python's `splitlines` also breaks at `\r`, `\r\n`, form feeds and other separators.
- Text.Strip: the whitespace set is the `str.isspace` code-point list. Surrogates and other Unicode details of Python strings are not modelled.
- JSON numbers are `real` and object keys are strings. So a dict never has the key 0, and `dict[0]` always raises.
- Provider response objects are modelled as plain JSON values. Attribute access on SDK objects is not modelled.
- `parse_json` is modelled on the value that extraction returns, which may be any JSON value. A falsy value is treated as empty text, as `(text or "")` does. A truthy non-string fails where `.strip()` would raise.
