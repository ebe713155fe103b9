# Call-transcript extraction pipeline, modelled in Dafny

This project models the per-transcript pipeline of `main.py`. The pipeline turns
a call-centre transcript into one fixed-schema record in five stages:

- **Normalisation** (`clean_transcript`). It collapses whitespace, tightens
  `Agent :` / `Customer :` to `Agent:` / `Customer:` and strips both ends.
- **Pattern findings** (`extract_with_regex`). Four regular-expression scans
  look for phone numbers, amounts, car models from a fixed list and dates.
  Each scan's result is rendered as a `', '`-joined string.
- **Prompt** (`build_extraction_prompt`). A fixed instruction text holds the
  call language and the cleaned transcript. It also shows a JSON schema of
  21 fields.
- **Model call** (`call_gemini_api`). This makes up to `max_retries` attempts.
  Each reply has its code fence stripped and is then decoded as JSON. A failed
  attempt other than the last is followed by a pause of `2 ** attempt` seconds.
- **Record assembly** (`extract_call_info`). This starts from a default record,
  merges the keys of the model's answer that the record already has, and sets
  `extraction_status` to `success`, `llm_failed` or `error` (it stays `failed`
  for a blank transcript). It also attaches the four `regex_*` findings.
- **Row loop** (in `main`). It produces one record per spreadsheet row, in row
  order, with a 4-second pause after each row.

Modules, one per component:

| file | module | models |
|---|---|---|
| `wrappers.dfy` | `Wrappers` | `Option`, for Python's `None` |
| `chars.dfy` | `Chars` | the character classes `\s`, `\d`, `\w`, `\b` and case folding |
| `normalize.dfy` | `Normalize` | `clean_transcript` and `str.strip` |
| `patterns.dfy` | `Patterns` | the four regular expressions as matchers, `re.findall`, `re.search` |
| `findings.dfy` | `Regex` | `', '.join`, `set(...)`, `CAR_MODELS`, `extract_with_regex` |
| `prompt.dfy` | `Prompt` | `build_extraction_prompt` |
| `json.dfy` | `Json` | the values `json.loads` returns, their truthiness and type names |
| `gemini.dfy` | `Gemini` | fence stripping and the retry loop of `call_gemini_api` |
| `records.dfy` | `Records` | the default record, `extract_call_info`, the row loop of `main` |

The outside world is passed in as parameters:

- **Service**: a `Service` value stands for the configured model client. It
  holds whether an API key is configured, the fault (if any) raised while
  building the client, the reply function and the `json.loads` decoder.
- **Model replies**: the reply function maps (prompt, attempt number) to
  `Fails` or `Responds(text)`.
- **`json.loads`**: the decoder maps text to an optional JSON value.
- **Pauses**: the retry pauses and the per-row pauses are recorded in ghost
  logs instead of being slept.

Python sets are iterated in no fixed order, and both phones and car models are
joined from a set. For those the model states that the text is the join of
*some* enumeration of the distinct items, each exactly once.

Some behaviours of the code that are easy to overlook, all modelled as written:

- A blank transcript keeps status `failed` (main.py:180, 185-187). There is no
  separate "skipped" status.
- The model's values are copied into the record unchecked (main.py:202-204).
  A record field may hold any JSON value the model sent, whatever type its
  default has, and this includes `row_index` and `error_message`.
- A truthy answer that is not a JSON object makes `.items()` raise. The handler
  at main.py:216-218 then records status `error` with the message
  `'<type>' object has no attribute 'items'`. So an answer can end in
  `error`, not only in `success` or `llm_failed`.
- A failure while building the client (main.py:112, outside the retry loop)
  escapes `call_gemini_api`. The record then gets status `error`.
- Every row makes its own requests. The row loop is therefore given one
  service per row, so an identical later row may fail where an earlier one
  succeeded (for instance once the request quota is used up).

## Model

| member | source | states |
|---|---|---|
| Normalize.Collapse | main.py:31 | the result is never longer than the input, is non-empty when the input is, and starts with whitespace exactly when the input does |
| Normalize.CollapseKeepsText | main.py:31 | the collapse keeps every non-whitespace character, in order |
| Normalize.CollapseRun | main.py:31 | a non-empty run of whitespace collapses to exactly one space |
| Normalize.CollapseConcat | main.py:31 | at a seam where whitespace does not meet whitespace, collapsing the whole equals collapsing the parts, so each maximal run is replaced on its own |
| Normalize.Tighten | main.py:32 | the result is never longer than the input and starts with the same character |
| Normalize.TightenKeepsText | main.py:32 | the label substitution keeps every non-whitespace character, in order |
| Normalize.TightenLabel | main.py:32 | `Agent` or `Customer`, any whitespace and a colon become the label glued to the colon |
| Normalize.TightenConcat | main.py:32 | text that no match can run across is substituted piece by piece, so whitespace outside a label-colon match is kept |
| Normalize.CollapseSingleSpaced | main.py:31 | after the collapse every whitespace character is a plain space and no two are adjacent |
| Normalize.Strip | main.py:34 | the result is the slice of the input after its leading whitespace, everything after it is whitespace, and it has no whitespace at either end |
| Normalize.StripKeepsText | main.py:34 | `strip` keeps every non-whitespace character, in order |
| Normalize.Clean | main.py:26-34 | the empty transcript gives the empty string, and cleaning never makes a transcript longer |
| Normalize.CleanKeepsText | main.py:26-34 | the cleaned transcript holds exactly the non-whitespace characters of the transcript, in order |
| Normalize.TightenLeavesNoLooseLabel | main.py:32 | after the label substitution no `Agent`/`Customer` is separated from a following `:` by whitespace |
| Normalize.TightenKeepsSingleSpaced | main.py:31-32 | the label substitution keeps collapsed text single-spaced |
| Normalize.TightenFixesNoLooseLabel | main.py:32 | text with no loose label is left unchanged by the substitution |
| Normalize.CollapseFixesSingleSpaced | main.py:31 | single-spaced text is left unchanged by the whitespace collapse |
| Normalize.StripFixesTrimmed | main.py:34 | text with no whitespace at its ends is left unchanged by `strip` |
| Normalize.CleanIsClean | main.py:26-34 | a cleaned transcript is trimmed, single-spaced and has no loose speaker label |
| Normalize.CleanIdempotent | main.py:26-34 | cleaning a cleaned transcript changes nothing |
| Patterns.PhoneAt | main.py:39 | a phone match covers 10 to 12 characters and ends inside the text |
| Patterns.AmountAt | main.py:44 | an amount match is non-empty and ends inside the text |
| Patterns.DateAt | main.py:55 | a date match covers at least 6 characters and ends inside the text |
| Patterns.Scan | main.py:40 | the matches `findall` reports start at or after the scan position, are non-empty and end inside the text |
| Patterns.ScanIsLeftmost | main.py:40 | the scan reports the leftmost matches in document order, each starting where the previous one ended or later, with no match skipped |
| Patterns.LeftmostScanIsScan | main.py:40 | the leftmost-match reading of `findall` has exactly one answer, the scan's |
| Patterns.Matches | main.py:39-56 | `re.findall` gives one non-empty string per reported match |
| Patterns.SpansAreMatches | main.py:40 | every reported span is a match of the pattern at its start |
| Patterns.MatchesCommaFree | main.py:39-57 | phone and date matches never contain a comma |
| Patterns.SearchFromSound | main.py:51 | searching from a position finds the word exactly when it occurs, word-bounded and ignoring case, at or after that position |
| Patterns.Search | main.py:51 | `re.search(rf'\b{model}\b', s, re.IGNORECASE)` succeeds exactly when the model name occurs as a whole word, ignoring case |
| Regex.Join | main.py:41-57 | `', '.join` of a list whose first item is non-empty is non-empty |
| Regex.JoinSnoc | main.py:53 | joining one more item appends `', '` and the item |
| Regex.SplitJoin | main.py:57 | splitting a join of comma-free items at `', '` gives the items back |
| Regex.JoinSet | main.py:41-53 | `', '.join(set(xs))` is the join of an order that lists every distinct item of `xs` exactly once |
| Regex.JoinedSetFacts | main.py:41-53 | a joined set of non-empty comma-free items is empty exactly when there are none, and splits back into each item exactly once |
| Regex.CarModelsCommaFree | main.py:19-23 | every car-model name is non-empty and has no comma |
| Regex.Detected | main.py:48-52 | the names kept are names from the model list |
| Regex.DetectedIffOccurs | main.py:49-53 | a name is detected exactly when it is in the model list and occurs in the text as a whole word, ignoring case |
| Regex.NexonEvDetectsBoth | main.py:49-53 | the text "nexon ev" yields both "Nexon" and "Nexon EV", in their canonical spelling |
| Regex.Take | main.py:46 | `xs[:n]` is a prefix of `xs` of at most `n` items, and all of `xs` when it has no more than `n` |
| Regex.DetectModels | main.py:48-52 | the loop over the model list keeps, in list order, exactly the names `re.search` finds as whole words |
| Regex.ExtractWithRegex | main.py:37-59 | the four strings are the set-joined phone matches, the first five amount matches, the set-joined detected models and all date matches |
| Regex.PhoneFindings | main.py:39-41 | the phone string is empty exactly when there is no match; otherwise it lists each distinct match exactly once |
| Regex.AmountFindings | main.py:44-46 | the amount string is empty exactly when there is no match; it joins the first five matches in document order, duplicates kept, when there are more than five, and all of them otherwise |
| Regex.CarModelFindings | main.py:49-53 | the car-model string is empty exactly when no model occurs; otherwise it lists exactly the models that occur, once each, in canonical spelling |
| Regex.DateFindings | main.py:55-57 | the date string is empty exactly when there is no match; otherwise it splits back into every match, in document order |
| Prompt.BuildPrompt | main.py:62-104 | the prompt's length is the fixed text plus the language plus the transcript |
| Prompt.TranscriptRoundTrip | main.py:62-104 | the transcript sits verbatim between the fixed head and the fixed tail, and can be read back out |
| Prompt.LanguageInPrompt | main.py:64-66 | the prompt opens with the fixed text, followed immediately by the language, verbatim |
| Prompt.PromptInjective | main.py:62-104 | two transcripts in the same language give the same prompt only when they are equal |
| Prompt.AllKeysInPrompt | main.py:73-95 | every field name of the schema appears in the prompt as `"key": `, whatever the transcript and language |
| Records.SchemaMatchesModelFields | main.py:159-179 | the field names the prompt's schema asks for are exactly the 21 model fields of the default record, in the same order |
| Records.DefaultRecord | main.py:156-182 | the default record has a status and a message field and no `regex_*` field |
| Records.DefaultFields | main.py:156-182 | the default record holds exactly the 21 model fields and the four bookkeeping fields |
| Records.Merge | main.py:202-204 | the merged record keeps exactly the record's keys; each takes the answer's value when the answer has that key and keeps its own otherwise |
| Records.MergeAnswer | main.py:202-204 | the merge loop leaves exactly the record's keys, each taking the answer's value when the answer has that key and keeping its own otherwise |
| Records.Conclude | main.py:200-218 | the part after the model call builds the record of the outcome: success, llm_failed or error |
| Records.AfterCall | main.py:200-218 | after the model call no default field is lost and the status field is present |
| Records.BranchShapes | main.py:185-218 | which fields each kind of record has, and the status each kind carries |
| Records.AfterCallKeys | main.py:200-218 | status `success` exactly for a non-empty object answer, `llm_failed` exactly for `None` or a falsy answer, `error` exactly for a raised call or a truthy non-object; findings attached exactly when there was no error |
| Records.AfterCallMerges | main.py:202-206 | on a non-empty object answer every default field except the status takes the answer's value if present, else its default |
| Records.AfterCallKeepsDefaults | main.py:207-209 | without a usable answer the message is "LLM extraction failed" and every other default field is kept |
| Records.AfterCallReportsError | main.py:216-218 | a failing call leaves the exception's text as the message and the defaults elsewhere |
| Records.AfterCallAttaches | main.py:211-214 | when the findings are attached they are exactly the given findings |
| Records.ExtractCallInfo | main.py:154-220 | the method builds a record that `extract_call_info` may return for the transcript; a blank transcript makes no model call and no pause, any other makes exactly the calls and pauses of one `call_gemini_api` on its prompt |
| Records.RecordShape | main.py:154-220 | every record has every default field and at most the four `regex_*` fields besides (unknown answer keys are dropped); it states which transcript and outcome lead to each status |
| Records.BlankIffSpaces | main.py:185 | a transcript is blank exactly when it is empty or all whitespace |
| Records.WithFindingsFields | main.py:211-214 | attaching the findings adds the four `regex_*` fields with the four finding strings and changes no other field |
| Records.BlankTranscript | main.py:185-187 | a blank transcript gives exactly the default record with message "Empty transcript", status `failed` and no findings |
| Records.SuccessMerges | main.py:200-206 | on `success` the answer was a non-empty object and each default field except the status holds the answer's value if present, else its default |
| Records.LlmFailedKeepsDefaults | main.py:207-209 | on `llm_failed` the message is "LLM extraction failed" and every other field keeps its default |
| Records.ErrorReported | main.py:216-218 | on `error` the message is the exception's text, no finding is attached, and every other field keeps its default |
| Records.NoKeyFails | main.py:108-110 | without an API key every non-blank transcript ends as `llm_failed` |
| Records.RegexFieldsAreFindings | main.py:211-214 | attached `regex_*` fields hold the findings of the cleaned transcript |
| Records.ProcessTranscripts | main.py:256-265 | one result per row, in row order, each a record of its row, with the row position as index and the service as that row finds it, and a 4-second pause after every row |
| Gemini.SkipSpaces | main.py:127-129 | `\s*` consumes exactly the whitespace run at the position |
| Gemini.JsonFenceDropped | main.py:127 | the `^```json\s*` substitution removes an opening "```json" and the whole whitespace run after it, and nothing from a reply that does not start with it |
| Gemini.OpenFenceDropped | main.py:128 | the `^```\s*` substitution removes opening backticks and the whole whitespace run after them, and nothing from a reply that does not start with them |
| Gemini.CloseFenceDropped | main.py:129 | the `\s*```$` substitution keeps everything before its leftmost match and at most a final line break after it, and changes nothing where it does not match |
| Gemini.FindCloseFence | main.py:129 | the closing-fence pattern is found at its leftmost match position, or nowhere |
| Gemini.DropCloseOfBody | main.py:129 | a body followed by whitespace and a closing fence loses exactly the whitespace and the fence |
| Gemini.StripFence | main.py:126-129 | fence stripping never lengthens the reply, and a reply that neither opens with backticks nor ends in a closing fence is only stripped |
| Gemini.PlainBodyUnchanged | main.py:126-129 | a trimmed, unfenced body passes through fence stripping unchanged |
| Gemini.JsonFenceRoundTrip | main.py:126-132 | an opening fence of three backticks and `json`, with any whitespace around the body and a closing fence, strips back to exactly the body, so it decodes as the bare body |
| Gemini.BareFenceRoundTrip | main.py:126-132 | a bare three-backtick fence, with or without whitespace after the opening one, and a closing fence strip back to exactly the body; only a body starting with `json` right after the fence is excluded, since that reads as a `json` fence |
| Gemini.AttemptReadsBody | main.py:115-133 | an attempt decodes the model's document whether it was sent bare, in a "```json" fence or in a bare fence; a call that raised decodes nothing |
| Gemini.Pow2 | main.py:135-149 | the pause `2 ** attempt` is at least one second |
| Gemini.BackoffFrom | main.py:135-149 | the pause sequence from attempt `k` holds `2 ** (k + i)` at position `i` |
| Gemini.RetryFrom | main.py:114-151 | the loop never raises; it makes at least one call and at most the remaining budget when attempts remain, and none otherwise |
| Gemini.CallModel | main.py:107-151 | `call_gemini_api` raises exactly when a key is configured and building the client fails |
| Gemini.CallGemini | main.py:107-151 | the loop's outcome, its number of calls and its pauses are those of the retry policy |
| Gemini.RetryEnds | main.py:130-149 | the loop ends at a decoded attempt with its document, at the last attempt with `None`, or with no attempt left, after the failed attempts' calls and pauses |
| Gemini.RetryStep | main.py:135-149 | a failed attempt that is not the last adds one call and the pause `2 ** attempt` |
| Gemini.NoKeyNoCall | main.py:108-110 | without an API key the result is `None` after zero calls and no pause |
| Gemini.NoBudgetNoCall | main.py:114-151 | a retry budget of zero or less gives `None` after zero calls |
| Gemini.RetrySleeps | main.py:135-149 | the pauses are `2 ** j` for each attempt `j` before the last call |
| Gemini.RetryData | main.py:130-133 | a returned document is the one the last call decoded |
| Gemini.CallShape | main.py:107-151 | at most `max_retries` calls, at least one when the budget is positive; pauses 1, 2, 4, ... one fewer than the calls; a document is the last attempt's |
| Gemini.FirstSuccessFrom | main.py:114-133 | if attempt `j` is the first to decode, the loop returns its document after `j - k + 1` calls |
| Gemini.FirstSuccessWins | main.py:114-133 | the call returns the document of the first attempt that decodes, after `j + 1` calls and pauses 1, ..., `2 ** (j - 1)` |
| Gemini.AllFailFrom | main.py:135-149 | if every remaining attempt fails, the loop returns `None` after all of them |
| Gemini.AllFail | main.py:135-149 | when every attempt fails, `None` comes back after exactly `max_retries` calls and `max_retries - 1` pauses |
| Gemini.DefaultBudgetPauses | main.py:107-151 | with the default three retries all failing, the result is `None` after three calls with pauses [1, 2] |

## Left out

- The Gemini SDK (`genai.configure`, `GenerativeModel`, `generate_content`, main.py:14-16, 112-124) is a network service. It is replaced by a reply function of the prompt and the attempt number. The generation parameters (temperature, top-p, top-k, output cap) are not modelled.
- `json.loads` is a parameter from text to an optional JSON value. Its grammar, its order of object keys and its handling of duplicate keys are not modelled. A record is a `map`, so the column order of the output table is not modelled either.
- `time.sleep` (main.py:138, 146, 265) is not slept. The durations are recorded in ghost logs.
- `load_dotenv` and `os.getenv` (main.py:11, 14, 229) are configuration I/O. The API key is a boolean "present" flag.
- The pre-flight key check of `main` (main.py:229-231), the spreadsheet and CSV I/O, `tqdm`, the console output and the summary statistics (main.py:225-254, 267-308) are not modelled. They are I/O and read-only reporting.
- Each `print` in `call_gemini_api` (main.py:109, 136, 140, 144, 148) is console logging and is not modelled.
- `\d`, `\w` (and so `\b`) and `re.IGNORECASE` are modelled on ASCII only. Python also accepts non-ASCII digits, letters and case pairs, for example `Â` against the `â` of the currency prefix. `\s` and `str.strip` use Python's full whitespace set.
- Regex.JoinSet: the order in which a Python `set` is iterated is left open. The contract says the text is the join of some order of the distinct items, not which order.
- The float default `sentiment_score = 0.5` is carried as an opaque value and no arithmetic is done on it.
- Non-string transcripts are not modelled, because the transcript is a `string`. In the source, a non-string truthy transcript such as a pandas NaN makes `transcript.strip()` at main.py:185 raise outside the `try`. The exception then escapes `extract_call_info` and aborts the run.
- Records.ProcessTranscripts: the record index is the row position. `main` passes the DataFrame index, which is the row position for a freshly read spreadsheet.
- Records.ProcessTranscripts: the language read at main.py:257 is assumed to be a string. An empty `Language` cell reaches the code as a float NaN, and then the prompt reads "originally in nan" (main.py:66) and `original_language` holds a float (main.py:158). Neither is modelled.
