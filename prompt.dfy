/**
 * `build_extraction_prompt`: the instruction text sent to the language
 * model. It is a fixed text with two holes, the call's language and the
 * cleaned transcript, and it carries a JSON schema listing the 21 fields
 * the model is asked to fill in.
 */
module Prompt {

  /** One line of the schema: a field name and the example value shown for it. */
  datatype SchemaEntry = SchemaEntry(key: string, example: string)

  /** The schema lines, in the order the prompt shows them. */
  const Schema: seq<SchemaEntry> := [
    SchemaEntry("call_summary", "\"A 2-line summary of the call\""),
    SchemaEntry("intent", "\"Primary intent/purpose of the customer's call\""),
    SchemaEntry("issue_category", "\"One of: technical, sales, booking, complaint, general_inquiry, service_related, test_drive, price_inquiry, other\""),
    SchemaEntry("sentiment", "\"One of: positive, neutral, negative\""),
    SchemaEntry("sentiment_score", "0.5"),
    SchemaEntry("customer_name", "\"Customer's name if mentioned\""),
    SchemaEntry("agent_name", "\"Agent's name if mentioned\""),
    SchemaEntry("showroom_name", "\"Showroom or service center name if mentioned\""),
    SchemaEntry("car_model", "\"Car model(s) discussed (e.g., Tata Nexon, Punch, etc.)\""),
    SchemaEntry("location", "\"Location/city mentioned\""),
    SchemaEntry("date_mentioned", "\"Any dates mentioned in the call\""),
    SchemaEntry("amount", "\"Any price/amount discussed (numeric value only)\""),
    SchemaEntry("booking_id", "\"Booking or order ID if mentioned\""),
    SchemaEntry("phone_number", "\"Phone number if mentioned\""),
    SchemaEntry("is_lead", "true"),
    SchemaEntry("priority", "\"One of: high, medium, low\""),
    SchemaEntry("urgency", "\"One of: high, medium, low\""),
    SchemaEntry("next_action", "\"Recommended or mentioned next action\""),
    SchemaEntry("outcome", "\"Outcome of the call if evident\""),
    SchemaEntry("agent_performance", "\"One of: good, average, poor\""),
    SchemaEntry("additional_insights", "\"Any other relevant business insights\"")
  ]

  /** The field names the schema asks for, in schema order. */
  function SchemaKeys(es: seq<SchemaEntry>): seq<string> {
    seq(|es|, i requires 0 <= i < |es| => es[i].key)
  }

  /** `  "key": `, how the schema introduces a field. */
  function KeyText(key: string): string {
    "  \"" + key + "\": "
  }

  /** `  "key": example`, one line of the schema. */
  function EntryLine(e: SchemaEntry): string {
    KeyText(e.key) + e.example
  }

  /** The schema lines joined by `,` and a line break. */
  function EntryLines(es: seq<SchemaEntry>): string {
    if es == [] then ""
    else if |es| == 1 then EntryLine(es[0])
    else EntryLine(es[0]) + ",\n" + EntryLines(es[1..])
  }

  /** The JSON object shown to the model. */
  function SchemaText(es: seq<SchemaEntry>): string {
    "{\n" + EntryLines(es) + "\n}"
  }

  const Head: string :=
    "You are an expert at analyzing customer service call transcripts from automobile showrooms and service centers.\n"
    + "\n"
    + "The following is a transcript from a call originally in "

  const Middle: string :=
    " (now romanized/translated to English):\n"
    + "\n"
    + "TRANSCRIPT:\n"

  const Intro: string :=
    "\n"
    + "\n"
    + "Extract the following information and return ONLY a valid JSON object (no markdown, no extra text):\n"
    + "\n"

  const Rules: string :=
    "\n"
    + "\n"
    + "Rules:\n"
    + "- Use empty string \"\" for missing text fields\n"
    + "- Use null for missing numeric fields\n"
    + "- Use false for missing boolean fields\n"
    + "- Ensure all field names match exactly as shown\n"
    + "- Return ONLY valid JSON, no markdown formatting\n"

  /** Everything after the transcript, for a given schema. */
  function TailWith(es: seq<SchemaEntry>): string {
    Intro + SchemaText(es) + Rules
  }

  /** Everything after the transcript. */
  function Tail(): string {
    TailWith(Schema)
  }

  /** The prompt layout: fixed text, language, fixed text, transcript, fixed text. */
  function Assemble(head: string, language: string, middle: string, transcript: string, tail: string): string {
    head + language + middle + transcript + tail
  }

  /** `build_extraction_prompt(transcript, language)`. */
  function BuildPrompt(transcript: string, language: string): (p: string)
    ensures |p| == |Head| + |language| + |Middle| + |transcript| + |Tail()|
  {
    Assemble(Head, language, Middle, transcript, Tail())
  }

  // ---------------------------------------------------------------------
  // Reading the transcript back

  /** Where the transcript starts in a prompt built for `language`. */
  function TranscriptStart(language: string): nat {
    |Head| + |language| + |Middle|
  }

  /** The transcript hole of a prompt built for `language`. */
  function TranscriptOf(p: string, language: string): (t: string)
    requires TranscriptStart(language) + |Tail()| <= |p|
    ensures |t| == |p| - TranscriptStart(language) - |Tail()|
  {
    p[TranscriptStart(language)..|p| - |Tail()|]
  }

  /** The transcript is copied into the prompt verbatim and can be read back. */
  lemma TranscriptRoundTrip(transcript: string, language: string)
    ensures TranscriptStart(language) + |Tail()| <= |BuildPrompt(transcript, language)|
    ensures TranscriptOf(BuildPrompt(transcript, language), language) == transcript
  {
    TranscriptPiece(Head, language, Middle, transcript, Tail());
  }

  /** The language is copied into the prompt verbatim, right after the fixed opening. */
  lemma LanguageInPrompt(transcript: string, language: string)
    ensures InfixAt(Head, BuildPrompt(transcript, language), 0)
    ensures InfixAt(language, BuildPrompt(transcript, language), |Head|)
  {
    FrontPieces(Head, language, Middle, transcript, Tail());
  }

  /** Different transcripts in the same language give different prompts. */
  lemma PromptInjective(t1: string, t2: string, language: string)
    requires BuildPrompt(t1, language) == BuildPrompt(t2, language)
    ensures t1 == t2
  {
    TranscriptRoundTrip(t1, language);
    TranscriptRoundTrip(t2, language);
  }

  // ---------------------------------------------------------------------
  // Every field name appears in the prompt

  /** `a` occurs in `b` at position `i`. */
  predicate InfixAt(a: string, b: string, i: nat) {
    i + |a| <= |b| && b[i..i + |a|] == a
  }

  lemma InfixSelf(a: string)
    ensures InfixAt(a, a, 0)
  {
  }

  lemma InfixLeft(a: string, b: string, i: nat, pre: string)
    requires InfixAt(a, b, i)
    ensures InfixAt(a, pre + b, |pre| + i)
  {
    assert (pre + b)[|pre| + i..|pre| + i + |a|] == b[i..i + |a|];
  }

  lemma InfixRight(a: string, b: string, i: nat, post: string)
    requires InfixAt(a, b, i)
    ensures InfixAt(a, b + post, i)
  {
    assert (b + post)[i..i + |a|] == b[i..i + |a|];
  }

  lemma InfixTrans(a: string, b: string, c: string, i: nat, j: nat)
    requires InfixAt(a, b, i) && InfixAt(b, c, j)
    ensures InfixAt(a, c, j + i)
  {
    forall q | 0 <= q < |a| ensures c[j + i + q] == a[q] {
      assert a[q] == b[i + q];
      assert b[i + q] == c[j..j + |b|][i + q];
    }
  }

  /** The transcript sits between the fixed head and tail. */
  lemma TranscriptPiece(h: string, l: string, m: string, t: string, tail: string)
    ensures Assemble(h, l, m, t, tail)[|h| + |l| + |m|..|Assemble(h, l, m, t, tail)| - |tail|] == t
  {
    var a := h + l + m;
    assert Assemble(h, l, m, t, tail) == a + t + tail;
    assert (a + t + tail)[|a|..|a| + |t|] == t;
  }

  /** The first two pieces of a five-piece text sit at its front. */
  lemma FrontPieces(a: string, b: string, c: string, d: string, e: string)
    ensures InfixAt(a, Assemble(a, b, c, d, e), 0)
    ensures InfixAt(b, Assemble(a, b, c, d, e), |a|)
  {
    var x := a + b + c + d + e;
    assert x == (a + b) + (c + d + e);
    assert x[..|a| + |b|] == a + b;
    assert x[0..|a|] == (a + b)[0..|a|];
    assert x[|a|..|a| + |b|] == (a + b)[|a|..|a| + |b|];
  }

  /** What occurs in the schema part of the tail occurs in the whole prompt. */
  lemma InSchemaPart(x: string, i: nat, h: string, l: string, m: string, t: string, intro: string, schema: string, rules: string)
    requires InfixAt(x, schema, i)
    ensures InfixAt(x, Assemble(h, l, m, t, intro + schema + rules), |h + l + m + t + intro| + i)
  {
    InfixLeft(x, schema, i, intro);
    InfixRight(x, intro + schema, |intro| + i, rules);
    InfixLeft(x, intro + schema + rules, |intro| + i, h + l + m + t);
  }

  /** What occurs in the schema lines occurs in the schema object. */
  lemma InBraces(x: string, i: nat, lines: string)
    requires InfixAt(x, lines, i)
    ensures InfixAt(x, "{\n" + lines + "\n}", 2 + i)
  {
    InfixLeft(x, lines, i, "{\n");
    InfixRight(x, "{\n" + lines, 2 + i, "\n}");
  }

  /** Every schema line occurs in the joined schema lines. */
  lemma {:induction false} EntryLineIn(es: seq<SchemaEntry>, k: nat) returns (i: nat)
    requires k < |es|
    ensures InfixAt(EntryLine(es[k]), EntryLines(es), i)
    decreases |es|
  {
    var line := EntryLine(es[0]);
    InfixSelf(line);
    if |es| == 1 {
      i := 0;
    } else if k == 0 {
      i := 0;
      InfixRight(line, line, 0, ",\n");
      InfixRight(line, line + ",\n", 0, EntryLines(es[1..]));
    } else {
      var j := EntryLineIn(es[1..], k - 1);
      InfixLeft(EntryLine(es[k]), EntryLines(es[1..]), j, line + ",\n");
      i := |line + ",\n"| + j;
    }
  }

  /** The `k`-th field name occurs, introduced as `  "key": `, in the joined schema lines. */
  lemma KeyInLines(es: seq<SchemaEntry>, k: nat) returns (i: nat)
    requires k < |es|
    ensures InfixAt(KeyText(es[k].key), EntryLines(es), i)
  {
    var key := KeyText(es[k].key);
    InfixSelf(key);
    InfixRight(key, key, 0, es[k].example);
    i := EntryLineIn(es, k);
    InfixTrans(key, EntryLine(es[k]), EntryLines(es), 0, i);
  }

  /** The `k`-th field name occurs in the schema object. */
  lemma KeyInSchema(es: seq<SchemaEntry>, k: nat) returns (i: nat)
    requires k < |es|
    ensures InfixAt(KeyText(es[k].key), SchemaText(es), i)
  {
    var j := KeyInLines(es, k);
    InBraces(KeyText(es[k].key), j, EntryLines(es));
    i := 2 + j;
  }

  /** The `k`-th field name occurs in any text laid out like the prompt. */
  lemma KeyInAssembled(es: seq<SchemaEntry>, k: nat, h: string, l: string, m: string, t: string) returns (i: nat)
    requires k < |es|
    ensures InfixAt(KeyText(es[k].key), Assemble(h, l, m, t, TailWith(es)), i)
  {
    var j := KeyInSchema(es, k);
    InSchemaPart(KeyText(es[k].key), j, h, l, m, t, Intro, SchemaText(es), Rules);
    i := |h + l + m + t + Intro| + j;
  }

  /** The text `p` introduces the field `key` the way the schema does. */
  ghost predicate MentionsKey(p: string, key: string) {
    exists i :: InfixAt(KeyText(key), p, i)
  }

  /** Every field name of a schema occurs in any text laid out like the prompt. */
  lemma AllKeysInAssembled(es: seq<SchemaEntry>, h: string, l: string, m: string, t: string)
    ensures forall key :: key in SchemaKeys(es) ==> MentionsKey(Assemble(h, l, m, t, TailWith(es)), key)
  {
    forall key | key in SchemaKeys(es)
      ensures MentionsKey(Assemble(h, l, m, t, TailWith(es)), key)
    {
      var k :| 0 <= k < |es| && SchemaKeys(es)[k] == key;
      var i := KeyInAssembled(es, k, h, l, m, t);
    }
  }

  /** Every field name the schema asks for is in the prompt, whatever the transcript and language. */
  lemma AllKeysInPrompt(transcript: string, language: string)
    ensures forall key :: key in SchemaKeys(Schema) ==> MentionsKey(BuildPrompt(transcript, language), key)
  {
    AllKeysInAssembled(Schema, Head, language, Middle, transcript);
    assert BuildPrompt(transcript, language) == Assemble(Head, language, Middle, transcript, TailWith(Schema));
  }
}
