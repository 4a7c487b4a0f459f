# Loyalty financial model service — string handling, in Dafny

The service answers `POST /generate`. It asks a language model for a
financial model of a company's loyalty program and returns two things:
the model's free-text explanation and the JSON object embedded in the same
reply. The only logic of its own is string handling. This project models
that logic as pure Dafny functions and proves its properties as lemmas:

- `Prompt`: the fixed system instruction and `construct_user_prompt`. The
  user prompt is an opening sentence around the company name. It gets a
  design clause when the design is truthy. It gets a refinement clause when
  both the earlier output and the feedback are truthy.
- `PyStr`: Python's `str.find` (-1 on a miss), slicing with a step of one
  (negative bounds count from the end, then clamping to `[0, len]`), and
  `str.strip()` with no arguments (whitespace as `str.isspace` defines it).
- `ResponseParser`: splitting the reply on the sentinel tokens `[JSON_START]`
  and `[JSON_END]`. Both tokens are searched from the start of the reply.
  The analysis is the stripped text before the first start token (with no start
  token, the whole text but its last character); the
  stripped text between the tokens goes to the JSON decoder.
- `Service`: the field extraction in `generate_model`, the orchestration in
  `generate_financial_model`, and the 500 errors both raise.

Collaborators the service only calls are parameters of the model:

- the chat-completion call (`Completion`): it maps the two instructions to a
  reply or to the message of the exception it raised;
- `json.loads` (`decode`): it maps text to a value or to an error message,
  and is only assumed to reject the empty string;
- the text of a re-raised `HTTPException` (`describe`).

## Model

| member | source | states |
|---|---|---|
| `PyStr.PyFind` | main.py:150 | `find` returns -1 exactly when the pattern does not occur; otherwise it returns an index where the pattern occurs, with no occurrence before it |
| `PyStr.FindFrom` | main.py:150 | a search from index `i` returns -1 or the first occurrence at or after `i`; -1 means there is no occurrence at or after `i` |
| `PyStr.ClampIndex` | main.py:150 | a slice bound in `[0, len]` is kept, a negative bound counts from the end, and anything outside the range is clamped to 0 or `len` |
| `PyStr.PySlice` | main.py:150 | a slice never fails; it is the contiguous piece starting at the adjusted start; it is empty when the adjusted stop is not past the adjusted start; in-range bounds give `s[start..stop]` |
| `PyStr.LStrip` | main.py:150 | the result is a suffix of `s`; everything dropped is whitespace; the result is empty or starts with non-whitespace |
| `PyStr.RStrip` | main.py:150 | the result is a prefix of `s`; everything dropped is whitespace; the result is empty or ends with non-whitespace |
| `PyStr.StripBothEnds` | main.py:150 | cutting the leading whitespace off `s`, then the trailing whitespace off what is left, gives a piece of `s` bounded only by whitespace and with no whitespace at either end |
| `PyStr.Strip` | main.py:150 | `strip()` returns the piece of `s` left once its whitespace ends are cut off |
| `PyStr.StripOfUnique` | main.py:150 | at most one string is `s` with its whitespace ends cut off |
| `PyStr.StripCharacterized` | main.py:150 | any string that is `s` with its whitespace ends cut off equals `Strip(s)` |
| `PyStr.StripIdempotent` | main.py:150 | stripping an already stripped string changes nothing |
| `PyStr.PieceAvoids` | main.py:150 | a piece of `s` that ends before `bound` holds no occurrence of a non-empty pattern when `s` has none starting before `bound` |
| `PyStr.StripAvoids` | main.py:150 | stripping cannot create an occurrence of a non-empty pattern that the original lacks |
| `PyStr.FindAfterPrefix` | main.py:150 | if `x` does not contain a marker whose first character does not recur in it, the first marker in `x + marker + y` is at index `|x|` |
| `Prompt.SystemPrompt` | main.py:62-125 | the system instruction names `[JSON_START]` and, after it, `[JSON_END]`, at fixed offsets in its closing line |
| `Prompt.MarkerLineNamesMarkers` | main.py:124 | whatever precedes it, the closing line of the system instruction contains both markers, the start marker first |
| `Prompt.Truthy` | main.py:135-138 | an optional string is falsy exactly when it is `None` or the empty string |
| `Prompt.ConstructUserPrompt` | main.py:127-144 | the prompt begins with the opening sentence; a truthy design clause follows it directly; with a truthy pair the prompt ends with the refinement clause |
| `Prompt.OpeningOnly` | main.py:133-144 | with no truthy design and no complete truthy pair, the prompt is exactly the opening sentence |
| `Prompt.DesignOnly` | main.py:133-144 | with a truthy design and no complete truthy pair, the prompt is exactly the opening sentence followed by the design clause |
| `Prompt.DesignClauseIff` | main.py:135-136 | the text after the opening sentence starts with the design header if and only if the design is truthy, and the design text follows the header |
| `Prompt.RefinementNeedsBoth` | main.py:138-142 | if the earlier output or the feedback is missing or empty, the prompt is the same as with neither given |
| `Prompt.ClauseOrder` | main.py:133-142 | with a truthy pair, the prompt is the opening sentence, then the design clause if there is one, then the refinement clause |
| `Prompt.CompanyNameInPrompt` | main.py:133 | the company name appears verbatim right after "Please create a financial model for " |
| `Prompt.DesignInPrompt` | main.py:135-136 | a truthy design appears verbatim right after the design header |
| `Prompt.RefinementInputsInPrompt` | main.py:138-142 | with a truthy pair, the earlier output and the feedback both appear verbatim, the output first |
| `ResponseParser.MarkersUnbordered` | main.py:148-149 | the first character of either marker does not recur in it, so no occurrence can overlap a copy of the marker |
| `ResponseParser.SegmentSlice` | main.py:150 | the slice between the markers is no longer than the reply and never holds an end marker; with both markers in order it is exactly the text between them |
| `ResponseParser.JsonSegment` | main.py:150 | the text handed to the decoder is the slice with its whitespace ends cut off and never holds an end marker |
| `ResponseParser.Analysis` | main.py:182 | the analysis is the text before the first start marker with its whitespace ends cut off, or, with no start marker, the whole text but its last character, stripped; it never holds a start marker |
| `ResponseParser.AnalysisPrefix` | main.py:182 | `text[:k]` for the result `k` of `find` is the text up to the marker, or all but the last character when `k` is -1 |
| `ResponseParser.ParseError` | main.py:152-156 | a parse error has status 500 and a detail made of the fixed prefix followed by the decoder's message |
| `ResponseParser.ExtractJson` | main.py:146-156 | succeeds exactly when the decoder accepts the stripped segment, with the decoded value; otherwise fails with status 500 and the detail "Failed to parse structured data from response: " followed by the decoder's message |
| `ResponseParser.RoundTrip` | main.py:150 | for `a + "[JSON_START]" + j + "[JSON_END]" + b`, where `a` holds no start marker and nothing before the end marker holds an end marker, the segment is `Strip(j)` and the analysis of line 182 is `Strip(a)` |
| `ResponseParser.ExtractJsonRoundTrip` | main.py:146-156 | for such a reply the decoder is given `Strip(j)`: its value is returned, or its error is wrapped as a parse error |
| `ResponseParser.EndBeforeStartFails` | main.py:150-156 | if the first end marker starts before the first start marker ends, the slice is empty and, since the decoder rejects "", the result is a parse error |
| `ResponseParser.MissingStart` | main.py:150 | without a start marker, the analysis of line 182 is the whole text minus its last character, stripped, and the segment slice starts at offset 11 |
| `ResponseParser.MissingEnd` | main.py:150 | with a start marker but no end marker, the slice runs from just after the start marker to the last character, exclusive |
| `ResponseParser.MissingEndAccepted` | main.py:150-151 | as written, the reply `"[JSON_START]{}\n"` has no end marker, yet the decoder receives `{}`, and the call succeeds whenever `{}` decodes |
| `ResponseParser.ExtractJsonStrict` | main.py:146-156 | corrected parser: a success means both markers are present in order and the decoder accepted the stripped segment; any failure is a 500 parse error |
| `ResponseParser.StrictRejectsMissingMarker` | main.py:146-156 | the corrected parser reports a parse error whenever either marker is missing |
| `ResponseParser.StrictRoundTrip` | main.py:146-156 | on a well-formed reply the corrected parser returns exactly what the parser as written returns |
| `Service.ExtractPromptFields` | main.py:192-200 | the design comes from `previous_data` if present and is absent otherwise; the earlier output and the feedback are both present, with the request's values, exactly when `current_prompt_data` is |
| `Service.RequestPrompt` | main.py:170-175 | the user instruction built from a request starts with the opening sentence, holds the design clause right after it for a non-empty design in `previous_data`, and ends with the refinement clause for non-empty fields in `current_prompt_data` |
| `Service.HandleReply` | main.py:181-187 | as written: a provider failure becomes a 500 with the provider's message; a decoder failure becomes a 500 wrapping the parse error; a reply whose segment decodes succeeds with the reply's analysis and the decoded value; any failure has status 500 |
| `Service.HandleReplyStrict` | main.py:181-187 | with the corrected parser: a reply that is not well delimited fails with a 500 naming the missing markers; a well-delimited one is handled exactly as `HandleReply` handles it; a success means both markers are present in order |
| `Service.GenerateFinancialModel` | main.py:158-187 | the provider is called with the system instruction and the user instruction; its failure becomes a 500 with its message; a reply whose segment does not decode becomes a 500 wrapping the parse error; a reply whose segment decodes yields its analysis and the decoded value |
| `Service.GenerateModel` | main.py:189-213 | for the reply to the instructions built from the request: a provider failure or an undecodable segment gives the same 500 as `generate_financial_model`; a decodable segment gives a response holding the analysis and the decoded value |
| `Service.CompanyOnlyRequest` | main.py:192-208 | a request holding only a company name sends exactly the opening sentence as the user instruction |
| `Service.RequestDesignInPrompt` | main.py:192-194 | a non-empty design in `previous_data` appears verbatim in the user instruction |
| `Service.RequestRefinementInPrompt` | main.py:196-200 | non-empty fields in `current_prompt_data` both appear verbatim in the user instruction |
| `Service.WellFormedReply` | main.py:181-187 | a well-formed reply whose stripped JSON part decodes to `v` yields the stripped analysis and `v` |
| `Service.UndecodableReply` | main.py:183-187 | a well-formed reply whose JSON part does not decode fails with a 500 wrapping the parse error; no analysis is returned on its own |
| `Service.MissingEndReplyAccepted` | main.py:181-187 | as written, the handler turns the reply `"[JSON_START]{}\n"`, which lacks the end marker, into an empty analysis and the value `{}` decodes to, while the corrected handler fails with a 500 |
| `Service.MalformedReply` | main.py:183-187 | with the corrected parser, a reply missing either marker fails with status 500 |
| `Service.RequestRoundTrip` | main.py:189-213 | when the provider answers the request's instructions with a well-formed reply whose JSON part decodes to `v`, the response holds the stripped analysis and `v` |
| `Service.ProviderFailure` | main.py:166-187 | a failing completion call fails the request with status 500 and the provider's message |

## Left out

- The OpenAI client, the model name "gpt-4", temperature 0.7 and max_tokens 2500 (main.py:11, 166-179) are network calls. They are the `Completion` parameter, which receives the system and user instructions.
- The FastAPI application, routing, async plumbing and uvicorn start-up (main.py:8, 189-190, 215-217) are HTTP framework code.
- The pydantic schema classes `CostProjection`, `RevenueProjection`, `ROIMetrics` and `FinancialModel` (main.py:13-43) hold floats, and the code never checks the parsed JSON against them. The decoded value is an opaque type parameter `J`.
- Request validation by pydantic (a missing `company_name` is rejected before the handler runs) and `other_input_data` (main.py:56) are left out. Nothing in the handler reads `other_input_data`.
- Response validation of `structured_data` as a `Dict` (main.py:60, 210-213) is left out. A JSON value that is not an object would fail there, outside the handler's own error path.
- The internals of `json.loads` (main.py:151) are left out. The decoder is a parameter, assumed only to reject the empty string.
- The wording of `str(e)` when the outer handler re-raises a parse error (main.py:186-187) depends on library `__str__` methods. It is the `describe` parameter.
- A reply whose `content` is `None` (main.py:181) is left out: the reply is always a string here.
- `Service.GenerateFinancialModel` and `Service.GenerateModel` use the parser as written, so their contracts do not promise that a successful reply held both markers (see Findings). `Service.HandleReplyStrict` states that promise for the corrected parser.
- Python strings are sequences of code points, and so are Dafny strings here. Lone surrogate code points cannot be represented.

## Findings

| source | as written | input that shows it | evidently intended | confidence | as-written member | corrected member |
|---|---|---|---|---|---|---|
| main.py:150 | when a marker is missing, `find` returns -1 and the slice still runs: to the last character for a missing end marker, from offset 11 for a missing start marker | the reply `"[JSON_START]{}\n"` (no `[JSON_END]`) hands `{}` to `json.loads`, so `extract_json_from_text` succeeds whenever `{}` decodes | a reply missing either sentinel is a parse error (500) and no structured data is returned | not executed | `ResponseParser.MissingEndAccepted` | `ResponseParser.ExtractJsonStrict` |
