# Request pipeline of the analysis service, in Dafny

The service takes a JSON request holding conversational `content`, builds a
prompt from two template texts and that content, asks a hosted generative
model for an analysis, strips markdown code fences from the reply, decodes it
as JSON and checks its shape. The caller gets the decoded analysis or an
error envelope `{"status": "failed", "status_code": N, "error": msg}`.
All of this lives in `main.py`. This project models it as pure functions,
one module per part:

- `Outcomes`: `Option` and `Result`. A raised exception becomes a `Failure`.
- `PyJson`: the values `json.loads` returns (null, bool, int, float, str,
  list, dict). It also holds the Python operators the pipeline applies to
  them: truthiness, `in`, `x[key]` and `x.get(key, default)`. Each operator
  raises the Python error it raises on a value of the wrong type.
- `PyText`: `str.replace(p, "")` and `str.strip()`, with Python's whitespace
  set.
- `ErrorEnvelope`: the envelope and its text. An envelope is raised as
  `Exception(json.dumps(envelope))`, so its text is `json.dumps` output with
  the default separators and `ensure_ascii` escaping. `ParseEnvelope` reads
  that text back.
- `Extractor`: `extract_json_from_markdown`. The decoder is a parameter.
- `Validator`: `is_valid_genai_format`, modelled both as the source's probe
  sequence and as a declarative shape, `WellFormedAnalysis`.
- `PromptTemplate`: the prompt f-string of `handle_request`.
- `Handler`: `generate_and_parse_json`, `handle_request` and the status/body
  mapping of the POST route. The model call, the decoder and Python's
  `str()` of a non-string `content` are parameters.

Where the code and a natural reading of the service differ, the model
follows the code. One might expect a schema failure to reach the caller as
the bare message `generate_and_parse_json: Invalid GenAI output format`, or a
decode failure's message to start with
`generate_and_parse_json: extract_json_from_markdown:`. But main.py:56-61
wraps `str(e)` of the inner exception, and that is the serialised inner
envelope. The real message is therefore
`generate_and_parse_json: {"status": "failed", "status_code": 500, "error": "..."}`,
with the inner message escaped inside it. `Handler.WrappedFailureMessages`
states this.

## Model

| member | source | states |
|---|---|---|
| PyJson.Truthy | main.py:64 | Python truthiness: exactly None, False, zero, and the empty str, list and dict are falsy |
| PyJson.PyIn | main.py:18 | `key in c` succeeds exactly on a dict, list or str, and then means dict key, list element equal to the string, or substring; any other value raises |
| PyJson.AllIn | main.py:18 | `all(k in c for k in keys)` on a container is true iff every key is `in` it; on a non-container it raises unless the key list is empty |
| PyJson.GetItem | main.py:20 | `c[key]` succeeds exactly when `c` is a dict holding `key`, and yields its value |
| PyJson.GetOr | main.py:20 | `c.get(key, default)` succeeds exactly on a dict and yields the value or the default |
| PyText.RemoveAll | main.py:6 | `replace(p, "")` never lengthens its input; `RemoveAllAbsent` and `RemoveAllLeftmost` together fix its result on every string |
| PyText.RemoveAllLeftmost | main.py:6 | the leftmost occurrence of `p` is deleted and the text before it kept: the result is that text followed by the scan of what comes after the occurrence |
| PyText.RemoveAllAbsent | main.py:6 | `replace(p, "")` returns a string without an occurrence of `p` unchanged |
| PyText.RemoveAllSkipsPrefix | main.py:6 | a prefix none of whose characters can start `p` passes through `replace(p, "")` untouched |
| PyText.TrimStart | main.py:6 | the result is the suffix of the input left after its leading whitespace, and does not start with whitespace |
| PyText.TrimEnd | main.py:6 | the result is the prefix of the input left before its trailing whitespace, and does not end with whitespace |
| PyText.Strip | main.py:6 | `strip()` is empty exactly on all-whitespace input, and otherwise neither starts nor ends with whitespace |
| PyText.StripIsSlice | main.py:6 | `strip()` returns a slice of its input with only whitespace around it and no whitespace at either end |
| PyText.StripUnique | main.py:6 | any slice with only whitespace around it and none at its ends is what `strip()` returns |
| PyText.StripIdempotent | main.py:6 | stripping twice equals stripping once |
| PyText.StripKeepsAbsence | main.py:6 | stripping never creates an occurrence of a substring |
| Extractor.LeadingTicks | main.py:6 | the length of the backtick run a string starts with: it fits in the string, every character it counts is a backtick, and the character after it is not |
| Extractor.RemoveFencesLeavesNone | main.py:6 | after deleting every "```", no "```" is left, and the leading backtick run shrinks to its length modulo 3 |
| Extractor.CleanFences | main.py:6 | the cleaned text contains neither "```" nor "```json", and is no longer than the input |
| Extractor.FenceFreeOnlyTrimmed | main.py:6 | text already free of "```" (single backticks allowed) is only trimmed |
| Extractor.BackToBackJsonFencesRemoved | main.py:6 | the first replace deletes every "```json", not only the first: "```json```json" cleans to the empty string |
| Extractor.CleanFencesIdempotent | main.py:6 | cleaning cleaned text changes nothing |
| Extractor.ClosedTextHasNoJsonFence | main.py:6 | fence-free text followed by "```" holds no "```json", so the first replace leaves it alone |
| Extractor.RemoveClosingFence | main.py:6 | the second replace deletes exactly the closing "```" after fence-free text, even when the text ends in one or two backticks |
| Extractor.FencedTextRecovered | main.py:6 | cleaning "```json" + t + "```", with t free of "```" (single backticks allowed), gives strip(t) |
| Extractor.ExtractJsonFromMarkdown | main.py:5-14 | a decoded value is returned unchanged; a `JSONDecodeError` returns no value, only a 500 envelope whose text reads back as `extract_json_from_markdown: ` + the decoder's message; any other decoder exception passes through with its own text |
| Extractor.FencedReplyExtracted | main.py:5-14 | a fenced reply whose inside is free of "```" is extracted exactly as its inside would be |
| ErrorEnvelope.EscapeChar | main.py:10-14 | `json.dumps` writes every character as printable ASCII |
| ErrorEnvelope.Escape | main.py:10-14 | an escaped string is printable ASCII whatever it holds |
| ErrorEnvelope.Dumps | main.py:10-14 | the serialised envelope is printable ASCII whatever its message contains |
| ErrorEnvelope.DecodeEscape | main.py:10-14 | decoding an escaped string up to its closing quote gives the string back |
| ErrorEnvelope.DumpsRoundTrip | main.py:10-14 | the envelope text determines the envelope: status code and message read back exactly |
| ErrorEnvelope.Str | main.py:56-61 | `str(e)` of a raised envelope reads back as that envelope; a collaborator's exception keeps its own text |
| Validator.Probe | main.py:17-31 | the `try` block's probe sequence ends in `True` exactly on the shape `WellFormedAnalysis`; every other path returns False or raises |
| Validator.IsValidGenAIFormat | main.py:16-31 | total, and true exactly on the shape `WellFormedAnalysis`: a dict with `response`, `prompt_version`, `response_text`; `response_text` a dict whose `files` is a non-empty list; `files[0]` a dict with `filename` and `contents`; the three answer keys `in` `contents` |
| Validator.AllInThree | main.py:18 | on a container, an `all(...)` probe over three keys is membership of all three |
| Validator.KeyProbes | main.py:18-27 | on any container, each of the three `all(...)` probes equals membership of its keys |
| Validator.OnlyFirstFileInspected | main.py:21-24 | the files after `files[0]` never change the verdict |
| Validator.EmptyFilesRejected | main.py:20-22 | an empty or missing `files` (the default `[]`) is rejected |
| Validator.ContentsProbedWithIn | main.py:26-27 | with everything else in place, the verdict is whether the three keys are `in` `contents`; null, a bool or a number fails |
| Validator.ContentsListAccepted | main.py:27 | a list holding the three strings passes; a list missing one fails |
| Validator.ContentsStringAccepted | main.py:27 | a string holding the three words as substrings passes |
| Validator.MinimalPayloadAccepted | main.py:16-29 | a minimal well-formed payload passes, its leaf values unchecked |
| Validator.NonObjectsRejected | main.py:18-31 | null, numbers, bools, strings and lists at the top are rejected without raising |
| PromptTemplate.BuildPrompt | main.py:77-88 | the prompt reads back into exactly the system prompt, output-format prompt and content it was built from, each verbatim in its section |
| Handler.GenerateAndParseAttempt | main.py:39-55 | yields a value exactly when the model answered, the cleaned answer decoded, and the value has the analysis shape; the value is the decoded one |
| Handler.GenerateAndParseJson | main.py:38-61 | a returned value is a well-formed analysis; every failure is a 500 envelope whose message starts with `generate_and_parse_json: ` |
| Handler.GenerateSucceedsIff | main.py:40-55 | success with v iff the model answered, the cleaned answer decoded to v, and v has the analysis shape |
| Handler.WrappedFailureMessages | main.py:38-61 | a failed model call or a decoder crash leaves its own text after the prefix; after a decode or schema failure, the text after the prefix is exactly the inner 500 envelope serialised, not its bare message |
| Handler.RequestContent | main.py:64-70 | the content comes out exactly for a dict holding `content`, and is its value; the 400 envelope comes out iff the request is falsy or `content` is not `in` it; any other failure is a Python error |
| Handler.ContentText | main.py:87 | a string `content` is spliced as it is; any other value as `str()` writes it |
| Handler.HandleRequest | main.py:63-90 | a success is a well-formed analysis; a raised envelope is the missing-content 400 or a wrapped 500, so the only 400 is the missing-content one |
| Handler.ContentRequiredIff | main.py:64-69 | the 400 `content is required` envelope comes out iff the request is falsy or `content` is not `in` it, and then templates, model and decoder are never consulted |
| Handler.DictRequest | main.py:64-90 | for a dict request, no `content` gives 400; a present `content`, even "", is spliced into the prompt and handed to generate-and-parse |
| Handler.NonDictRequest | main.py:64-70 | a truthy non-dict request never reaches the model: `in` raises on a number or `true`, `.get` raises on a list or str holding "content", and one without it gets 400 |
| Handler.Respond | main.py:96-104 | a result goes out as JSON; any exception goes out with status 500 and its `str()` as body, and a raised envelope's body reads back as the envelope |
| Handler.ContentRequiredSentAs500 | main.py:100-104 | the missing-content envelope says 400 in its body but is sent with transport status 500 |

## Left out

- The remote model call, `vertexai.init` and the generation settings (main.py:34-47) are an external service. The model is a parameter returning the reply text or `str(e)` of what it raised. The settings (temperature 0.0, top_p 0.8, 8192 tokens) are passed-through constants.
- Reading `system_prompt.txt` and `ai_prompt.txt` (main.py:72-75) is file I/O. Both texts are parameters, and a read error, which escapes unwrapped, is not modelled.
- `json.loads` is a parameter. It returns a value, a syntax error with its message, or another exception. That other exception escapes the extractor unwrapped, and `generate_and_parse_json` then wraps its text.
- A JSON float is kept as an exact decimal. Binary rounding, underflow to `0.0` and the `NaN`/`Infinity` extensions are not modelled.
- `jsonify` of a successful result (main.py:101) is not modelled: the reply carries the value itself. The route's other failures are not modelled either: `request.get_json()` rejecting a body, and the handler's construction.
- Python's `str()` of a non-string `content` is a parameter. A string `content` is inserted as it is.
- A Python string may hold a lone surrogate, but a Dafny `char` cannot, so such messages are outside the model.
- The text of `KeyError`, `TypeError` and `AttributeError` follows CPython's wording only as far as the handler can expose it. The validator swallows all three.
- A dict is a map, so key insertion order is lost. Python's `str()` of a dict `content` spliced at main.py:87 depends on that order, which the `show` parameter of `Handler.ContentText` cannot recover from the map.
