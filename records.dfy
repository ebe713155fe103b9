/**
 * `extract_call_info` and the row loop of `main`: one result record per
 * transcript, starting from fixed defaults, overwritten by whatever keys of
 * the model's answer the record already has, and completed with the four
 * pattern findings and a status.
 *
 * A record is a map from field name to value; the order of its keys (the
 * column order of the output table) is not modelled.
 */
module Records {
  import opened Wrappers
  import opened Json
  import opened Normalize
  import opened Regex
  import opened Patterns
  import opened Prompt
  import opened Gemini

  type Record = map<string, Json>

  /** The 21 fields the model is asked to fill in, in the order of the default record. */
  const ModelFields: seq<string> := [
    "call_summary", "intent", "issue_category", "sentiment", "sentiment_score",
    "customer_name", "agent_name", "showroom_name", "car_model", "location",
    "date_mentioned", "amount", "booking_id", "phone_number", "is_lead",
    "priority", "urgency", "next_action", "outcome", "agent_performance",
    "additional_insights"
  ]

  /** The four fields that record how the extraction went. */
  const BookkeepingFields: set<string> := {"row_index", "original_language", "extraction_status", "error_message"}

  /** The four fields that carry the pattern findings. */
  const RegexFields: set<string> := {"regex_phone_numbers", "regex_amounts", "regex_car_models", "regex_dates"}

  /**
   * The record every transcript starts from. It holds a status and a
   * message field and none of the finding fields.
   */
  function DefaultRecord(rowIndex: int, language: string): (d: Record)
    ensures FitsDefaults(d)
  {
    var d := map[
      "row_index" := JInt(rowIndex),
      "original_language" := JStr(language),
      "call_summary" := JStr(""),
      "intent" := JStr(""),
      "issue_category" := JStr(""),
      "sentiment" := JStr("neutral"),
      "sentiment_score" := JFloat(0.5),
      "customer_name" := JStr(""),
      "agent_name" := JStr(""),
      "showroom_name" := JStr(""),
      "car_model" := JStr(""),
      "location" := JStr(""),
      "date_mentioned" := JStr(""),
      "amount" := JNull,
      "booking_id" := JStr(""),
      "phone_number" := JStr(""),
      "is_lead" := JBool(false),
      "priority" := JStr("medium"),
      "urgency" := JStr("medium"),
      "next_action" := JStr(""),
      "outcome" := JStr(""),
      "agent_performance" := JStr("average"),
      "additional_insights" := JStr(""),
      "extraction_status" := JStr("failed"),
      "error_message" := JStr("")
    ];
    assert "regex_phone_numbers" !in d && "regex_amounts" !in d && "regex_car_models" !in d && "regex_dates" !in d;
    d
  }

  /** The fields of the default record: the model's fields and the bookkeeping fields. */
  lemma DefaultFields(rowIndex: int, language: string)
    ensures DefaultRecord(rowIndex, language).Keys == (set k | k in ModelFields) + BookkeepingFields
  {
  }

  /** The prompt's schema asks for exactly the fields the default record holds for the model. */
  lemma SchemaMatchesModelFields()
    ensures SchemaKeys(Schema) == ModelFields
  {
  }

  // ---------------------------------------------------------------------
  // Merging the model's answer

  /**
   * `for key, value in llm_data.items(): if key in result: result[key] = value`:
   * the record keeps its fields, takes the answer's value for each field the
   * answer has, and drops the answer's other keys.
   */
  function Merge(r: Record, answer: map<string, Json>): (m: Record)
    ensures m.Keys == r.Keys
    ensures forall k :: k in r ==> m[k] == if k in answer then answer[k] else r[k]
  {
    map k | k in r :: if k in answer then answer[k] else r[k]
  }

  method MergeAnswer(r: Record, answer: map<string, Json>) returns (merged: Record)
    ensures merged == Merge(r, answer)
  {
    merged := r;
    var pending := answer.Keys;
    while pending != {}
      invariant pending <= answer.Keys
      invariant merged.Keys == r.Keys
      invariant forall k :: k in merged ==>
        merged[k] == if k in answer && k !in pending then answer[k] else r[k]
      decreases |pending|
    {
      var key :| key in pending;
      if key in merged {
        merged := merged[key := answer[key]];
      }
      pending := pending - {key};
    }
  }

  /** The four findings under their record keys. */
  function WithFindings(r: Record, f: Findings): Record {
    r["regex_phone_numbers" := JStr(f.phoneNumbersFound)]
     ["regex_amounts" := JStr(f.amountsMentioned)]
     ["regex_car_models" := JStr(f.carModelsDetected)]
     ["regex_dates" := JStr(f.datesFound)]
  }

  /** `not transcript or transcript.strip() == ''`. */
  predicate Blank(transcript: string) {
    transcript == "" || Strip(transcript) == ""
  }

  /** A transcript is blank exactly when it is all whitespace (the empty one included). */
  lemma BlankIffSpaces(transcript: string)
    ensures Blank(transcript) <==> AllSpaces(transcript)
  {
    if AllSpaces(transcript) {
      LeadingSpacesExact(transcript, |transcript|);
    }
  }

  /** Attaching the findings adds the four finding fields and changes no other field. */
  lemma WithFindingsFields(r: Record, f: Findings)
    ensures WithFindings(r, f).Keys == r.Keys + RegexFields
    ensures forall k :: k in r && k !in RegexFields ==> WithFindings(r, f)[k] == r[k]
    ensures WithFindings(r, f)["regex_phone_numbers"] == JStr(f.phoneNumbersFound)
    ensures WithFindings(r, f)["regex_amounts"] == JStr(f.amountsMentioned)
    ensures WithFindings(r, f)["regex_car_models"] == JStr(f.carModelsDetected)
    ensures WithFindings(r, f)["regex_dates"] == JStr(f.datesFound)
  {
  }

  /** The default budget of `call_gemini_api`. */
  const MaxRetries: int := 3

  /** What the model call gives for a transcript. */
  function ModelCall(transcript: string, language: string, svc: Service): CallOutcome {
    CallModel(svc, BuildPrompt(Clean(transcript), language), MaxRetries).outcome
  }

  /** A blank transcript: the defaults and an explanation, nothing else attempted. */
  function BlankRecord(d: Record): Record {
    d["error_message" := JStr("Empty transcript")]
  }

  /** An exception escaped: status `error` and the exception's text; no findings attached. */
  function ErrorRecord(d: Record, message: string): Record {
    d["extraction_status" := JStr("error")]["error_message" := JStr(message)]
  }

  /** The model answered with a non-empty object: its known keys merged, status `success`. */
  function SuccessRecord(d: Record, answer: map<string, Json>, f: Findings): Record {
    WithFindings(Merge(d, answer)["extraction_status" := JStr("success")], f)
  }

  /** No usable answer: status `llm_failed`, defaults kept. */
  function FailedRecord(d: Record, f: Findings): Record {
    WithFindings(d["extraction_status" := JStr("llm_failed")]["error_message" := JStr("LLM extraction failed")], f)
  }

  /**
   * The record built from the defaults `d` once the model call has given
   * `outcome`: no default field is lost and the status is always set.
   */
  function AfterCall(d: Record, outcome: CallOutcome, f: Findings): (r: Record)
    ensures d.Keys <= r.Keys
    ensures "extraction_status" in r
  {
    match outcome
    case Raised(message) => ErrorRecord(d, message)
    case Returned(data) =>
      if data.Some? && Truthy(data.value) then
        if data.value.JObj? then SuccessRecord(d, data.value.fields, f)
        else ErrorRecord(d, NoItemsMessage(data.value))
      else FailedRecord(d, f)
  }

  /**
   * The record `extract_call_info` builds, given the findings `f` of the
   * cleaned transcript (which the set order leaves open).
   */
  function CallInfoWith(f: Findings, transcript: string, language: string, rowIndex: int, svc: Service): Record {
    if Blank(transcript) then BlankRecord(DefaultRecord(rowIndex, language))
    else AfterCall(DefaultRecord(rowIndex, language), ModelCall(transcript, language, svc), f)
  }

  /** `r` is a record `extract_call_info` may return: the one built from some valid findings. */
  ghost predicate IsCallInfo(r: Record, transcript: string, language: string, rowIndex: int, svc: Service) {
    exists f :: (Blank(transcript) || IsFindingsOf(f, Clean(transcript)))
      && r == CallInfoWith(f, transcript, language, rowIndex, svc)
  }

  /** The part of `extract_call_info` after the model call. */
  method Conclude(d: Record, outcome: CallOutcome, findings: Findings) returns (result: Record)
    ensures result == AfterCall(d, outcome, findings)
  {
    match outcome {
      case Raised(message) =>
        result := ErrorRecord(d, message);
      case Returned(data) =>
        if data.Some? && Truthy(data.value) {
          if data.value.JObj? {
            result := MergeAnswer(d, data.value.fields);
            result := result["extraction_status" := JStr("success")];
            result := WithFindings(result, findings);
          } else {
            result := ErrorRecord(d, NoItemsMessage(data.value));
          }
        } else {
          result := FailedRecord(d, findings);
        }
    }
  }

  /**
   * `extract_call_info`. A blank transcript makes no model call; any other
   * makes exactly the calls and pauses of one `call_gemini_api` on its prompt.
   */
  method ExtractCallInfo(transcript: string, language: string, rowIndex: int, svc: Service)
    returns (result: Record, ghost calls: nat, ghost sleeps: seq<nat>)
    ensures IsCallInfo(result, transcript, language, rowIndex, svc)
    ensures Blank(transcript) ==> calls == 0 && sleeps == []
    ensures !Blank(transcript) ==>
      Trace(ModelCall(transcript, language, svc), calls, sleeps)
        == CallModel(svc, BuildPrompt(Clean(transcript), language), MaxRetries)
  {
    var d := DefaultRecord(rowIndex, language);
    if transcript == "" || Strip(transcript) == "" {
      result, calls, sleeps := BlankRecord(d), 0, [];
      ghost var none := Findings("", "", "", "");
      assert result == CallInfoWith(none, transcript, language, rowIndex, svc);
      return;
    }
    var cleaned := Clean(transcript);
    var findings := ExtractWithRegex(cleaned);
    var prompt := BuildPrompt(cleaned, language);
    var outcome;
    outcome, calls, sleeps := CallGemini(prompt, MaxRetries, svc);
    result := Conclude(d, outcome, findings);
    assert result == CallInfoWith(findings, transcript, language, rowIndex, svc);
  }

  // ---------------------------------------------------------------------
  // What a result record says

  /** The status field of a record. */
  function Status(r: Record): Json {
    if "extraction_status" in r then r["extraction_status"] else JNull
  }

  /** `d` can serve as defaults: it has a status and a message, and no finding field. */
  predicate FitsDefaults(d: Record) {
    d.Keys !! RegexFields && "extraction_status" in d && "error_message" in d
  }

  /** Which fields each kind of record has, and the status it carries. */
  lemma BranchShapes(d: Record, f: Findings, message: string, answer: map<string, Json>)
    requires FitsDefaults(d)
    ensures BlankRecord(d).Keys == d.Keys && Status(BlankRecord(d)) == d["extraction_status"]
    ensures ErrorRecord(d, message).Keys == d.Keys && Status(ErrorRecord(d, message)) == JStr("error")
    ensures SuccessRecord(d, answer, f).Keys == d.Keys + RegexFields
    ensures Status(SuccessRecord(d, answer, f)) == JStr("success")
    ensures FailedRecord(d, f).Keys == d.Keys + RegexFields
    ensures Status(FailedRecord(d, f)) == JStr("llm_failed")
  {
  }

  /** The model call returned a non-empty JSON object. */
  predicate Answered(outcome: CallOutcome) {
    outcome.Returned? && outcome.data.Some? && outcome.data.value.JObj? && outcome.data.value.fields != map[]
  }

  /** The model call returned nothing usable: `None` or a falsy document. */
  predicate Unusable(outcome: CallOutcome) {
    outcome.Returned? && (outcome.data.None? || !Truthy(outcome.data.value))
  }

  /** The model call raised, or returned a truthy document that is not an object. */
  predicate Failing(outcome: CallOutcome) {
    outcome.Raised? || (outcome.data.Some? && Truthy(outcome.data.value) && !outcome.data.value.JObj?)
  }

  /** The text of the exception `extract_call_info` catches for a failing call. */
  function FailureMessage(outcome: CallOutcome): string
    requires Failing(outcome)
  {
    if outcome.Raised? then outcome.message else NoItemsMessage(outcome.data.value)
  }

  /** After the call: the fields present, and the status, for every outcome. */
  lemma AfterCallKeys(d: Record, outcome: CallOutcome, f: Findings)
    requires FitsDefaults(d)
    ensures d.Keys <= AfterCall(d, outcome, f).Keys <= d.Keys + RegexFields
    ensures Status(AfterCall(d, outcome, f)) == JStr("success") <==> Answered(outcome)
    ensures Status(AfterCall(d, outcome, f)) == JStr("llm_failed") <==> Unusable(outcome)
    ensures Status(AfterCall(d, outcome, f)) == JStr("error") <==> Failing(outcome)
    ensures RegexFields <= AfterCall(d, outcome, f).Keys <==> !Failing(outcome)
    ensures Failing(outcome) ==> AfterCall(d, outcome, f).Keys !! RegexFields
  {
    var message := if Failing(outcome) then FailureMessage(outcome) else "";
    var answer := if Answered(outcome) then outcome.data.value.fields else map[];
    BranchShapes(d, f, message, answer);
    assert "regex_dates" in RegexFields;
  }

  /** A non-empty object answer is merged into every default field but the status. */
  lemma AfterCallMerges(d: Record, outcome: CallOutcome, f: Findings)
    requires FitsDefaults(d) && Answered(outcome)
    ensures var r := AfterCall(d, outcome, f);
      var answer := outcome.data.value.fields;
      forall k :: k in d && k != "extraction_status" ==>
        k in r && r[k] == if k in answer then answer[k] else d[k]
  {
    var r := AfterCall(d, outcome, f);
    var answer := outcome.data.value.fields;
    forall k | k in d && k != "extraction_status"
      ensures k in r && r[k] == if k in answer then answer[k] else d[k]
    {
      assert k !in RegexFields;
    }
  }

  /** Without a usable answer every field but the status and the message keeps its default. */
  lemma AfterCallKeepsDefaults(d: Record, outcome: CallOutcome, f: Findings)
    requires FitsDefaults(d) && Unusable(outcome)
    ensures var r := AfterCall(d, outcome, f);
      && r["error_message"] == JStr("LLM extraction failed")
      && forall k :: k in d && k != "extraction_status" && k != "error_message" ==> k in r && r[k] == d[k]
  {
    var r := AfterCall(d, outcome, f);
    forall k | k in d && k != "extraction_status" && k != "error_message"
      ensures k in r && r[k] == d[k]
    {
      assert k !in RegexFields;
    }
  }

  /** A failing call leaves the message of its exception, and the defaults elsewhere. */
  lemma AfterCallReportsError(d: Record, outcome: CallOutcome, f: Findings)
    requires FitsDefaults(d) && Failing(outcome)
    ensures var r := AfterCall(d, outcome, f);
      && r["error_message"] == JStr(FailureMessage(outcome))
      && forall k :: k in d && k != "extraction_status" && k != "error_message" ==> k in r && r[k] == d[k]
  {
  }

  /** Whenever findings are attached, they are the findings given. */
  lemma AfterCallAttaches(d: Record, outcome: CallOutcome, f: Findings)
    requires FitsDefaults(d) && !Failing(outcome)
    ensures var r := AfterCall(d, outcome, f);
      && RegexFields <= r.Keys
      && r["regex_phone_numbers"] == JStr(f.phoneNumbersFound)
      && r["regex_amounts"] == JStr(f.amountsMentioned)
      && r["regex_car_models"] == JStr(f.carModelsDetected)
      && r["regex_dates"] == JStr(f.datesFound)
  {
    AfterCallKeys(d, outcome, f);
  }

  /**
   * Every record holds every default field; the only other fields it may
   * hold are the four finding fields (keys of the model's answer that the
   * defaults lack are dropped); the status is `failed` exactly for a blank
   * transcript, `success` exactly when the model answered with a non-empty
   * object, `llm_failed` exactly when it gave nothing usable, and `error`
   * exactly when the call failed; the finding fields are present exactly
   * for `success` and `llm_failed`.
   */
  lemma RecordShape(r: Record, transcript: string, language: string, rowIndex: int, svc: Service)
    requires IsCallInfo(r, transcript, language, rowIndex, svc)
    ensures DefaultRecord(rowIndex, language).Keys <= r.Keys
    ensures r.Keys <= DefaultRecord(rowIndex, language).Keys + RegexFields
    ensures Status(r) == JStr("failed") <==> Blank(transcript)
    ensures Status(r) == JStr("success") <==> !Blank(transcript) && Answered(ModelCall(transcript, language, svc))
    ensures Status(r) == JStr("llm_failed") <==> !Blank(transcript) && Unusable(ModelCall(transcript, language, svc))
    ensures Status(r) == JStr("error") <==> !Blank(transcript) && Failing(ModelCall(transcript, language, svc))
    ensures RegexFields <= r.Keys <==> Status(r) == JStr("success") || Status(r) == JStr("llm_failed")
  {
    var f :| (Blank(transcript) || IsFindingsOf(f, Clean(transcript)))
      && r == CallInfoWith(f, transcript, language, rowIndex, svc);
    CallInfoShape(r, f, transcript, language, rowIndex, svc);
  }

  /** `RecordShape` for the record built from given findings. */
  lemma CallInfoShape(r: Record, f: Findings, transcript: string, language: string, rowIndex: int, svc: Service)
    requires r == CallInfoWith(f, transcript, language, rowIndex, svc)
    ensures DefaultRecord(rowIndex, language).Keys <= r.Keys
    ensures r.Keys <= DefaultRecord(rowIndex, language).Keys + RegexFields
    ensures Status(r) == JStr("failed") <==> Blank(transcript)
    ensures Status(r) == JStr("success") <==> !Blank(transcript) && Answered(ModelCall(transcript, language, svc))
    ensures Status(r) == JStr("llm_failed") <==> !Blank(transcript) && Unusable(ModelCall(transcript, language, svc))
    ensures Status(r) == JStr("error") <==> !Blank(transcript) && Failing(ModelCall(transcript, language, svc))
    ensures RegexFields <= r.Keys <==> Status(r) == JStr("success") || Status(r) == JStr("llm_failed")
  {
    var d := DefaultRecord(rowIndex, language);
    if Blank(transcript) {
      BranchShapes(d, f, "", map[]);
      assert "regex_dates" in RegexFields;
    } else {
      AfterCallKeys(d, ModelCall(transcript, language, svc), f);
    }
  }

  /** A blank transcript gives the defaults with status `failed` and message "Empty transcript", and no findings. */
  lemma BlankTranscript(r: Record, transcript: string, language: string, rowIndex: int, svc: Service)
    requires IsCallInfo(r, transcript, language, rowIndex, svc) && Blank(transcript)
    ensures r.Keys == DefaultRecord(rowIndex, language).Keys
    ensures Status(r) == JStr("failed")
    ensures "error_message" in r && r["error_message"] == JStr("Empty transcript")
    ensures forall k :: k in r && k != "error_message" ==> r[k] == DefaultRecord(rowIndex, language)[k]
  {
  }

  /**
   * On `success` every default field except the status holds the answer's
   * value when the answer has that key (the bookkeeping fields included),
   * and its default otherwise.
   */
  lemma SuccessMerges(r: Record, transcript: string, language: string, rowIndex: int, svc: Service)
    requires IsCallInfo(r, transcript, language, rowIndex, svc)
    requires Status(r) == JStr("success")
    ensures Answered(ModelCall(transcript, language, svc))
    ensures var answer := ModelCall(transcript, language, svc).data.value.fields;
      var d := DefaultRecord(rowIndex, language);
      forall k :: k in d && k != "extraction_status" ==>
        k in r && r[k] == if k in answer then answer[k] else d[k]
  {
    RecordShape(r, transcript, language, rowIndex, svc);
    var f :| (Blank(transcript) || IsFindingsOf(f, Clean(transcript)))
      && r == CallInfoWith(f, transcript, language, rowIndex, svc);
    AfterCallMerges(DefaultRecord(rowIndex, language), ModelCall(transcript, language, svc), f);
  }

  /** On `llm_failed` the message says so and every other field keeps its default. */
  lemma LlmFailedKeepsDefaults(r: Record, transcript: string, language: string, rowIndex: int, svc: Service)
    requires IsCallInfo(r, transcript, language, rowIndex, svc)
    requires Status(r) == JStr("llm_failed")
    ensures "error_message" in r && r["error_message"] == JStr("LLM extraction failed")
    ensures var d := DefaultRecord(rowIndex, language);
      forall k :: k in d && k != "extraction_status" && k != "error_message" ==> k in r && r[k] == d[k]
  {
    RecordShape(r, transcript, language, rowIndex, svc);
    var f :| (Blank(transcript) || IsFindingsOf(f, Clean(transcript)))
      && r == CallInfoWith(f, transcript, language, rowIndex, svc);
    assert !Blank(transcript) && Unusable(ModelCall(transcript, language, svc));
    AfterCallKeepsDefaults(DefaultRecord(rowIndex, language), ModelCall(transcript, language, svc), f);
  }

  /**
   * On `error` the message is the text of the exception (the client's, or
   * the one `.items()` raises on a non-object), no finding is attached, and
   * every other field keeps its default.
   */
  lemma ErrorReported(r: Record, transcript: string, language: string, rowIndex: int, svc: Service)
    requires IsCallInfo(r, transcript, language, rowIndex, svc)
    requires Status(r) == JStr("error")
    ensures Failing(ModelCall(transcript, language, svc))
    ensures r.Keys !! RegexFields
    ensures "error_message" in r && r["error_message"] == JStr(FailureMessage(ModelCall(transcript, language, svc)))
    ensures var d := DefaultRecord(rowIndex, language);
      forall k :: k in d && k != "extraction_status" && k != "error_message" ==> k in r && r[k] == d[k]
  {
    RecordShape(r, transcript, language, rowIndex, svc);
    var f :| (Blank(transcript) || IsFindingsOf(f, Clean(transcript)))
      && r == CallInfoWith(f, transcript, language, rowIndex, svc);
    AfterCallKeys(DefaultRecord(rowIndex, language), ModelCall(transcript, language, svc), f);
    AfterCallReportsError(DefaultRecord(rowIndex, language), ModelCall(transcript, language, svc), f);
  }

  /** Without an API key every non-blank transcript ends as `llm_failed`. */
  lemma NoKeyFails(r: Record, transcript: string, language: string, rowIndex: int, svc: Service)
    requires IsCallInfo(r, transcript, language, rowIndex, svc)
    requires !svc.hasKey && !Blank(transcript)
    ensures Status(r) == JStr("llm_failed")
  {
    NoKeyNoCall(svc, BuildPrompt(Clean(transcript), language), MaxRetries);
    RecordShape(r, transcript, language, rowIndex, svc);
  }

  /**
   * When the finding fields are present, they hold the findings of the
   * cleaned transcript: amounts and dates exactly, phones and car models as
   * the join of some order of the distinct matches.
   */
  lemma RegexFieldsAreFindings(r: Record, transcript: string, language: string, rowIndex: int, svc: Service)
    requires IsCallInfo(r, transcript, language, rowIndex, svc)
    requires "regex_dates" in r
    ensures RegexFields <= r.Keys
    ensures r["regex_amounts"] == JStr(Join(Take(Matches(Amount, Clean(transcript)), 5)))
    ensures r["regex_dates"] == JStr(Join(Matches(Date, Clean(transcript))))
    ensures r["regex_phone_numbers"].JStr?
      && JoinsSetOf(r["regex_phone_numbers"].s, Matches(Phone, Clean(transcript)))
    ensures r["regex_car_models"].JStr?
      && JoinsSetOf(r["regex_car_models"].s, Detected(CarModels, Clean(transcript)))
  {
    var f :| (Blank(transcript) || IsFindingsOf(f, Clean(transcript)))
      && r == CallInfoWith(f, transcript, language, rowIndex, svc);
    CallInfoAttaches(r, f, transcript, language, rowIndex, svc);
  }

  /** A record built from given findings that has a finding field holds exactly those findings. */
  lemma CallInfoAttaches(r: Record, f: Findings, transcript: string, language: string, rowIndex: int, svc: Service)
    requires r == CallInfoWith(f, transcript, language, rowIndex, svc)
    requires "regex_dates" in r
    ensures !Blank(transcript) && RegexFields <= r.Keys
    ensures r["regex_phone_numbers"] == JStr(f.phoneNumbersFound)
    ensures r["regex_amounts"] == JStr(f.amountsMentioned)
    ensures r["regex_car_models"] == JStr(f.carModelsDetected)
    ensures r["regex_dates"] == JStr(f.datesFound)
  {
    CallInfoShape(r, f, transcript, language, rowIndex, svc);
    assert !Blank(transcript);
    AfterCallAttaches(DefaultRecord(rowIndex, language), ModelCall(transcript, language, svc), f);
  }

  // ---------------------------------------------------------------------
  // The row loop of main

  /** One spreadsheet row: the romanized transcript and its language label. */
  datatype Row = Row(transcript: string, language: string)

  /** The pause after every row, in seconds, to stay under the request quota. */
  const RowPause: nat := 4

  /**
   * The row loop of `main`. Every row makes its own requests, so the service
   * is given per row: `services(i)` is the service as row `i` finds it (its
   * replies, and whether the request quota lets the calls through).
   */
  method ProcessTranscripts(rows: seq<Row>, services: nat -> Service)
    returns (results: seq<Record>, ghost pauses: seq<nat>)
    ensures |results| == |rows|
    ensures forall i :: 0 <= i < |rows| ==>
      IsCallInfo(results[i], rows[i].transcript, rows[i].language, i, services(i))
    ensures |pauses| == |rows| && forall j :: 0 <= j < |rows| ==> pauses[j] == RowPause
  {
    results, pauses := [], [];
    for i := 0 to |rows|
      invariant |results| == i && |pauses| == i
      invariant forall j :: 0 <= j < i ==>
        IsCallInfo(results[j], rows[j].transcript, rows[j].language, j, services(j))
      invariant forall j :: 0 <= j < i ==> pauses[j] == RowPause
    {
      var result, _, _ := ExtractCallInfo(rows[i].transcript, rows[i].language, i, services(i));
      CallInfoAppended(results, rows, services, result);
      results := results + [result];
      pauses := pauses + [RowPause];
    }
  }

  /** Appending the record of the next row keeps every record the one of its row. */
  lemma CallInfoAppended(results: seq<Record>, rows: seq<Row>, services: nat -> Service, result: Record)
    requires |results| < |rows|
    requires forall j :: 0 <= j < |results| ==>
      IsCallInfo(results[j], rows[j].transcript, rows[j].language, j, services(j))
    requires IsCallInfo(result, rows[|results|].transcript, rows[|results|].language, |results|, services(|results|))
    ensures forall j :: 0 <= j < |results| + 1 ==>
      IsCallInfo((results + [result])[j], rows[j].transcript, rows[j].language, j, services(j))
  {
    forall j | 0 <= j < |results| + 1
      ensures IsCallInfo((results + [result])[j], rows[j].transcript, rows[j].language, j, services(j))
    {
      if j < |results| {
        assert (results + [result])[j] == results[j];
      } else {
        assert (results + [result])[j] == result;
      }
    }
  }
}
