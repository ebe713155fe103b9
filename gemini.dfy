/**
 * `call_gemini_api`: one prompt, up to `max_retries` attempts at the
 * text-generation service, each reply stripped of a Markdown code fence and
 * decoded as JSON. The first attempt that yields a decoded document ends
 * the loop; a failed attempt other than the last is followed by a pause of
 * `2 ** attempt` seconds.
 *
 * The service, the JSON decoder and the clock are not part of this model:
 * the service is a function from (prompt, attempt number) to a reply, the
 * decoder a function from text to an optional document, and the pauses are
 * recorded in a ghost log instead of being slept.
 */
module Gemini {
  import opened Chars
  import opened Wrappers
  import opened Normalize
  import opened Json

  // ---------------------------------------------------------------------
  // Code fences

  /** Three backticks start at position `i`. */
  predicate TicksAt(s: string, i: nat) {
    i + 3 <= |s| && s[i] == '`' && s[i + 1] == '`' && s[i + 2] == '`'
  }

  /** `s` starts with "```json". */
  predicate JsonFenceFirst(s: string) {
    TicksAt(s, 0) && 7 <= |s| && s[3] == 'j' && s[4] == 's' && s[5] == 'o' && s[6] == 'n'
  }

  /** The position after the whitespace run starting at `i` (what `\s*` consumes there). */
  function SkipSpaces(s: string, i: nat): (r: nat)
    requires i <= |s|
    ensures i <= r <= |s|
    ensures forall j :: i <= j < r ==> IsSpace(s[j])
    ensures r < |s| ==> !IsSpace(s[r])
  {
    var n := LeadingSpaces(s[i..]);
    assert forall j :: i <= j < i + n ==> s[j] == s[i..][j - i];
    i + n
  }

  /** `re.sub(r'^```json\s*', '', s)`. */
  function DropJsonFence(s: string): (r: string)
    ensures |r| <= |s|
  {
    if JsonFenceFirst(s) then s[SkipSpaces(s, 7)..] else s
  }

  /** `re.sub(r'^```\s*', '', s)`. */
  function DropOpenFence(s: string): (r: string)
    ensures |r| <= |s|
  {
    if TicksAt(s, 0) then s[SkipSpaces(s, 3)..] else s
  }

  /**
   * Dropping the "```json" opening removes a prefix: the opening and the
   * whole whitespace run after it, and nothing when the text does not
   * start with it.
   */
  lemma JsonFenceDropped(s: string)
    ensures var r := DropJsonFence(s);
      && r == s[|s| - |r|..]
      && (!JsonFenceFirst(s) ==> r == s)
      && (JsonFenceFirst(s) ==> 7 <= |s| - |r| && AllSpaces(s[7..|s| - |r|]) && (r == [] || !IsSpace(r[0])))
  {
    if JsonFenceFirst(s) {
      var k := SkipSpaces(s, 7);
      assert forall j :: 0 <= j < k - 7 ==> s[7..k][j] == s[7 + j];
    }
  }

  /**
   * Dropping the "```" opening removes a prefix: the backticks and the
   * whole whitespace run after them, and nothing when the text does not
   * start with them.
   */
  lemma OpenFenceDropped(s: string)
    ensures var r := DropOpenFence(s);
      && r == s[|s| - |r|..]
      && (!TicksAt(s, 0) ==> r == s)
      && (TicksAt(s, 0) ==> 3 <= |s| - |r| && AllSpaces(s[3..|s| - |r|]) && (r == [] || !IsSpace(r[0])))
  {
    if TicksAt(s, 0) {
      var k := SkipSpaces(s, 3);
      assert forall j :: 0 <= j < k - 3 ==> s[3..k][j] == s[3 + j];
    }
  }

  /**
   * `\s*```$` matches at `p`. Since a backtick is not whitespace, `\s*`
   * must take the whole whitespace run; `$` matches at the end of the text
   * or just before a final line break.
   */
  predicate CloseFenceAt(s: string, p: nat)
    requires p <= |s|
  {
    var q := SkipSpaces(s, p);
    TicksAt(s, q) && (q + 3 == |s| || (q + 4 == |s| && s[q + 3] == '\n'))
  }

  /** The leftmost position at or after `p` where the closing-fence pattern matches. */
  function FindCloseFence(s: string, p: nat): (r: Option<nat>)
    requires p <= |s|
    ensures r.Some? ==> p <= r.value <= |s| && CloseFenceAt(s, r.value)
    ensures r.Some? ==> forall q :: p <= q < r.value ==> !CloseFenceAt(s, q)
    ensures r.None? ==> forall q :: p <= q <= |s| ==> !CloseFenceAt(s, q)
    decreases |s| - p
  {
    if CloseFenceAt(s, p) then Some(p)
    else if p == |s| then None
    else FindCloseFence(s, p + 1)
  }

  /**
   * `re.sub(r'\s*```$', '', s)`. After one match only the empty text or a
   * final line break is left, where the pattern cannot match again.
   */
  function DropCloseFence(s: string): (r: string)
    ensures |r| <= |s|
  {
    match FindCloseFence(s, 0)
    case None => s
    case Some(p) => s[..p] + s[SkipSpaces(s, p) + 3..]
  }

  /**
   * Dropping the closing fence keeps everything before the leftmost place
   * where the pattern matches, and after it at most the final line break;
   * where the pattern matches nowhere the text is unchanged.
   */
  lemma CloseFenceDropped(s: string)
    ensures FindCloseFence(s, 0).None? ==> DropCloseFence(s) == s
    ensures FindCloseFence(s, 0).Some? ==>
      var p, r := FindCloseFence(s, 0).value, DropCloseFence(s);
      p <= |r| && r[..p] == s[..p] && (r[p..] == [] || r[p..] == "\n")
  {
    if FindCloseFence(s, 0).Some? {
      var p := FindCloseFence(s, 0).value;
      var r := DropCloseFence(s);
      assert r[..p] == s[..p] && r[p..] == s[SkipSpaces(s, p) + 3..];
    }
  }

  /**
   * The text handed to `json.loads`: stripped, then the three fence
   * substitutions in order. It only ever removes characters, and a reply
   * that neither opens with backticks nor ends in a closing fence is only
   * stripped.
   */
  function StripFence(text: string): (r: string)
    ensures |r| <= |text|
    ensures !TicksAt(Strip(text), 0) && FindCloseFence(Strip(text), 0).None? ==> r == Strip(text)
  {
    DropCloseFence(DropOpenFence(DropJsonFence(Strip(text))))
  }

  /** A JSON document as a model would print it: non-empty, trimmed, not starting or ending with a fence. */
  predicate PlainBody(b: string) {
    && b != []
    && Trimmed(b)
    && b[0] != '`'
    && !(|b| >= 3 && TicksAt(b, |b| - 3))
  }

  /** In `x + w + y`, the whitespace run starting after `x` is exactly `w`. */
  lemma SkipOver(x: string, w: string, y: string)
    requires AllSpaces(w) && (y != [] ==> !IsSpace(y[0]))
    ensures SkipSpaces(x + w + y, |x|) == |x| + |w|
  {
    var s := x + w + y;
    var t := s[|x|..];
    assert t == w + y;
    LeadingSpacesExact(t, |w|);
  }

  /** `FindCloseFence` returns the leftmost match. */
  lemma {:induction false} FindLeftmost(s: string, p: nat, m: nat)
    requires p <= m <= |s| && CloseFenceAt(s, m)
    requires forall q :: p <= q < m ==> !CloseFenceAt(s, q)
    ensures FindCloseFence(s, p) == Some(m)
    decreases m - p
  {
    if p < m {
      FindLeftmost(s, p + 1, m);
    }
  }

  /** Inside a plain body followed by whitespace and a fence, the closing pattern cannot match. */
  lemma NoCloseInBody(b: string, ws: string, p: nat)
    requires PlainBody(b) && AllSpaces(ws) && p < |b|
    ensures !CloseFenceAt(b + ws + "```", p)
  {
    var s := b + ws + "```";
    assert s[|b| - 1] == b[|b| - 1];
    var q := SkipSpaces(s, p);
    assert q <= |b| - 1;
    if TicksAt(s, q) && q + 4 == |s| {
      assert s[q + 3] == s[|s| - 1] == '`';
    }
  }

  /** A plain body followed by whitespace and a closing fence loses exactly the whitespace and the fence. */
  lemma DropCloseOfBody(b: string, ws: string)
    requires PlainBody(b) && AllSpaces(ws)
    ensures DropCloseFence(b + ws + "```") == b
  {
    var s := b + ws + "```";
    SkipOver(b, ws, "```");
    assert s == b + ws + "```";
    assert TicksAt(s, |b| + |ws|);
    forall q | 0 <= q < |b| ensures !CloseFenceAt(s, q) {
      NoCloseInBody(b, ws, q);
    }
    FindLeftmost(s, 0, |b|);
    assert s[..|b|] == b;
  }

  /** A plain body passes through unchanged. */
  lemma PlainBodyUnchanged(b: string)
    requires PlainBody(b)
    ensures StripFence(b) == b
  {
    StripFixesTrimmed(b);
    forall q | 0 <= q <= |b| ensures !CloseFenceAt(b, q) {
      var r := SkipSpaces(b, q);
      assert !IsSpace(b[|b| - 1]);
    }
    assert FindCloseFence(b, 0).None?;
  }

  /** Regrouping a concatenation of five parts after the second. */
  lemma Regroup(f: string, w: string, x: string, y: string, z: string)
    ensures f + w + x + y + z == f + w + (x + y + z)
  {
  }

  /** Stripping and dropping an opening "```json" fence and the whitespace after it leave the tail. */
  lemma JsonFenceOpened(ws: string, t: string)
    requires AllSpaces(ws) && t != [] && !IsSpace(t[0]) && t[0] != '`' && t[|t| - 1] == '`'
    ensures DropOpenFence(DropJsonFence(Strip("```json" + ws + t))) == t
  {
    var s := "```json" + ws + t;
    FenceTrimmed("```json", ws, t);
    assert JsonFenceFirst(s);
    SkipOver("```json", ws, t);
    assert DropJsonFence(Strip(s)) == t;
    assert !TicksAt(t, 0);
  }

  /** A text opening and closing with a backtick is left alone by stripping. */
  lemma FenceTrimmed(f: string, ws: string, t: string)
    requires f != [] && f[0] == '`' && t != [] && t[|t| - 1] == '`'
    ensures Strip(f + ws + t) == f + ws + t
  {
    var s := f + ws + t;
    assert s[0] == '`' && s[|s| - 1] == '`';
    StripFixesTrimmed(s);
  }

  /**
   * A document wrapped in a "```json" fence, with any whitespace around the
   * document, is unwrapped to exactly the document, so it decodes exactly
   * as the bare document does.
   */
  lemma JsonFenceRoundTrip(b: string, ws1: string, ws2: string)
    requires PlainBody(b) && AllSpaces(ws1) && AllSpaces(ws2)
    ensures StripFence("```json" + ws1 + b + ws2 + "```") == b
    ensures StripFence("```json" + ws1 + b + ws2 + "```") == StripFence(b)
  {
    var t := b + ws2 + "```";
    JsonFenceOpened(ws1, t);
    Regroup("```json", ws1, b, ws2, "```");
    DropCloseOfBody(b, ws2);
    PlainBodyUnchanged(b);
  }

  /** `s` starts with the word "json". */
  predicate JsonWordFirst(s: string) {
    |s| >= 4 && s[0] == 'j' && s[1] == 's' && s[2] == 'o' && s[3] == 'n'
  }

  /** Stripping and dropping an opening bare fence and the whitespace after it leave the tail. */
  lemma BareFenceOpened(ws: string, t: string)
    requires AllSpaces(ws) && t != [] && !IsSpace(t[0]) && t[|t| - 1] == '`'
    requires ws != [] || !JsonWordFirst(t)
    ensures DropOpenFence(DropJsonFence(Strip("```" + ws + t))) == t
  {
    var s := "```" + ws + t;
    FenceTrimmed("```", ws, t);
    if ws != [] {
      assert s[3] == ws[0];
    } else {
      assert s == "```" + t;
      assert |t| >= 4 ==> s[3] == t[0] && s[4] == t[1] && s[5] == t[2] && s[6] == t[3];
    }
    assert DropJsonFence(s) == s;
    SkipOver("```", ws, t);
    assert DropOpenFence(s) == t;
  }

  /** A body that does not start with "json" still does not once whitespace and a fence follow it. */
  lemma NoJsonWordAfterBody(b: string, ws: string)
    requires PlainBody(b) && AllSpaces(ws) && !JsonWordFirst(b)
    ensures !JsonWordFirst(b + ws + "```")
  {
    var t := b + ws + "```";
    if |b| < 4 && |t| >= 4 {
      assert t[|b|] == if ws != [] then ws[0] else '`';
    } else if |b| >= 4 {
      assert t[0] == b[0] && t[1] == b[1] && t[2] == b[2] && t[3] == b[3];
    }
  }

  /**
   * A document wrapped in a bare "```" fence is unwrapped to exactly the
   * document, whether or not whitespace follows the opening fence; only a
   * document starting with "json" right after the fence is read as a
   * "```json" fence instead.
   */
  lemma BareFenceRoundTrip(b: string, ws1: string, ws2: string)
    requires PlainBody(b) && AllSpaces(ws1) && AllSpaces(ws2)
    requires ws1 != [] || !JsonWordFirst(b)
    ensures StripFence("```" + ws1 + b + ws2 + "```") == b
    ensures StripFence("```" + ws1 + b + ws2 + "```") == StripFence(b)
  {
    var t := b + ws2 + "```";
    if ws1 == [] {
      NoJsonWordAfterBody(b, ws2);
    }
    BareFenceOpened(ws1, t);
    Regroup("```", ws1, b, ws2, "```");
    DropCloseOfBody(b, ws2);
    PlainBodyUnchanged(b);
  }

  // ---------------------------------------------------------------------
  // The retry loop

  /** What one call to the service gives: an exception, or a response whose `.text` is `text`. */
  datatype Reply = Fails | Responds(text: string)

  /**
   * The environment of `call_gemini_api`: whether an API key is configured,
   * whether constructing the model client raises (outside the retry loop),
   * the service, and `json.loads` (`None` for a decoding error).
   */
  datatype Service = Service(
    hasKey: bool,
    setupFault: Option<string>,
    reply: (string, nat) -> Reply,
    parse: string -> Option<Json>)

  /** `call_gemini_api` returns a value (possibly `None`) or lets an exception escape. */
  datatype CallOutcome = Returned(data: Option<Json>) | Raised(message: string)

  /** The outcome together with how many service calls were made and which pauses were taken. */
  datatype Trace = Trace(outcome: CallOutcome, calls: nat, sleeps: seq<nat>)

  function Pow2(k: nat): (r: nat)
    ensures r >= 1
  {
    if k == 0 then 1 else 2 * Pow2(k - 1)
  }

  /** The pauses `2 ** k`, ..., `2 ** (k + n - 1)` seconds. */
  function BackoffFrom(k: nat, n: nat): (r: seq<nat>)
    ensures |r| == n
    ensures forall i :: 0 <= i < n ==> r[i] == Pow2(k + i)
  {
    seq<nat>(n, (i: int) requires 0 <= i < n => Pow2(k + i))
  }

  /** The pauses taken after the first `n` failed attempts: 1, 2, 4, ... seconds. */
  function Backoff(n: nat): (r: seq<nat>)
    ensures |r| == n
  {
    BackoffFrom(0, n)
  }

  /** One more failed attempt adds the next pause. */
  lemma BackoffGrows(n: nat)
    ensures Backoff(n + 1) == Backoff(n) + [Pow2(n)]
  {
    assert Backoff(n + 1)[..n] == Backoff(n);
  }

  /** One attempt: the decoded document, or `None` when the call raised or the text did not decode. */
  function Attempt(svc: Service, prompt: string, k: nat): Option<Json> {
    match svc.reply(prompt, k)
    case Fails => None
    case Responds(text) => svc.parse(StripFence(text))
  }

  /**
   * An attempt decodes the document the model printed, whether it printed it
   * bare or inside a code fence; a call that raised decodes nothing.
   */
  lemma AttemptReadsBody(svc: Service, prompt: string, k: nat, b: string, ws1: string, ws2: string)
    requires PlainBody(b) && AllSpaces(ws1) && AllSpaces(ws2)
    ensures svc.reply(prompt, k).Fails? ==> Attempt(svc, prompt, k) == None
    ensures svc.reply(prompt, k) == Responds(b) ==> Attempt(svc, prompt, k) == svc.parse(b)
    ensures svc.reply(prompt, k) == Responds("```json" + ws1 + b + ws2 + "```") ==> Attempt(svc, prompt, k) == svc.parse(b)
    ensures (ws1 != [] || !JsonWordFirst(b)) && svc.reply(prompt, k) == Responds("```" + ws1 + b + ws2 + "```") ==>
      Attempt(svc, prompt, k) == svc.parse(b)
  {
    PlainBodyUnchanged(b);
    JsonFenceRoundTrip(b, ws1, ws2);
    if ws1 != [] || !JsonWordFirst(b) {
      BareFenceRoundTrip(b, ws1, ws2);
    }
  }

  /** The attempts of one call, by number. */
  function Attempts(svc: Service, prompt: string): nat -> Option<Json> {
    (k: nat) => Attempt(svc, prompt, k)
  }

  /** The loop from attempt `k` on, up to `maxRetries`, where `att(j)` is what attempt `j` decodes. */
  function RetryFrom(att: nat -> Option<Json>, k: nat, maxRetries: int): (t: Trace)
    ensures t.outcome.Returned?
    ensures k < maxRetries ==> 1 <= t.calls <= maxRetries - k
    ensures k >= maxRetries ==> t == Trace(Returned(None), 0, [])
    decreases maxRetries - k
  {
    if k >= maxRetries then Trace(Returned(None), 0, [])
    else if att(k).Some? then Trace(Returned(att(k)), 1, [])
    else if k < maxRetries - 1 then
      var rest := RetryFrom(att, k + 1, maxRetries);
      Trace(rest.outcome, rest.calls + 1, [Pow2(k)] + rest.sleeps)
    else Trace(Returned(None), 1, [])
  }

  /**
   * The whole of `call_gemini_api(prompt, max_retries)`. Only constructing
   * the client can raise; the retry loop catches every failure of a call.
   */
  function CallModel(svc: Service, prompt: string, maxRetries: int): (t: Trace)
    ensures t.outcome.Raised? <==> svc.hasKey && svc.setupFault.Some?
  {
    if !svc.hasKey then Trace(Returned(None), 0, [])
    else if svc.setupFault.Some? then Trace(Raised(svc.setupFault.value), 0, [])
    else RetryFrom(Attempts(svc, prompt), 0, maxRetries)
  }

  /** `t` preceded by `n` failed attempts: `n` more calls and their pauses in front. */
  function AfterFailures(n: nat, t: Trace): Trace {
    Trace(t.outcome, n + t.calls, Backoff(n) + t.sleeps)
  }

  /** A failed attempt that is not the last moves the loop one step on. */
  lemma RetryStep(att: nat -> Option<Json>, k: nat, maxRetries: int)
    requires k < maxRetries - 1 && att(k).None?
    ensures AfterFailures(k, RetryFrom(att, k, maxRetries))
         == AfterFailures(k + 1, RetryFrom(att, k + 1, maxRetries))
  {
    var rest := RetryFrom(att, k + 1, maxRetries);
    BackoffGrows(k);
    assert Backoff(k) + ([Pow2(k)] + rest.sleeps) == Backoff(k + 1) + rest.sleeps;
  }

  method CallGemini(prompt: string, maxRetries: int, svc: Service)
    returns (outcome: CallOutcome, ghost calls: nat, ghost sleeps: seq<nat>)
    ensures Trace(outcome, calls, sleeps) == CallModel(svc, prompt, maxRetries)
  {
    calls, sleeps := 0, [];
    if !svc.hasKey {
      return Returned(None), calls, sleeps;
    }
    if svc.setupFault.Some? {
      return Raised(svc.setupFault.value), calls, sleeps;
    }
    ghost var att := Attempts(svc, prompt);
    ghost var model := RetryFrom(att, 0, maxRetries);
    var attempt: nat := 0;
    assert Backoff(0) + model.sleeps == model.sleeps;
    while attempt < maxRetries
      invariant calls == attempt && sleeps == Backoff(attempt)
      invariant attempt > 0 ==> attempt < maxRetries
      invariant model == AfterFailures(attempt, RetryFrom(att, attempt, maxRetries))
      decreases maxRetries - attempt
    {
      var data: Option<Json> := None;
      calls := calls + 1;
      match svc.reply(prompt, attempt) {
        case Fails =>
        case Responds(text) =>
          data := svc.parse(StripFence(text));
      }
      assert data == att(attempt);
      if data.Some? || attempt == maxRetries - 1 {
        RetryEnds(att, attempt, maxRetries);
        return Returned(data), calls, sleeps;
      }
      RetryStep(att, attempt, maxRetries);
      BackoffGrows(attempt);
      sleeps := sleeps + [Pow2(attempt)];
      attempt := attempt + 1;
    }
    RetryEnds(att, attempt, maxRetries);
    return Returned(None), calls, sleeps;
  }

  /**
   * Where the loop stops after `k` failed attempts: no attempt left, or
   * attempt `k` decoded, or attempt `k` was the last.
   */
  lemma RetryEnds(att: nat -> Option<Json>, k: nat, maxRetries: int)
    requires k >= maxRetries || att(k).Some? || k == maxRetries - 1
    ensures AfterFailures(k, RetryFrom(att, k, maxRetries))
      == if k >= maxRetries then Trace(Returned(None), k, Backoff(k))
         else Trace(Returned(att(k)), k + 1, Backoff(k))
  {
    assert Backoff(k) + [] == Backoff(k);
  }

  // ---------------------------------------------------------------------
  // What the retry policy guarantees

  /** Without an API key nothing is called and the result is `None`. */
  lemma NoKeyNoCall(svc: Service, prompt: string, maxRetries: int)
    requires !svc.hasKey
    ensures CallModel(svc, prompt, maxRetries) == Trace(Returned(None), 0, [])
  {
  }

  /** A retry budget of zero or less calls nothing and gives `None`. */
  lemma NoBudgetNoCall(svc: Service, prompt: string, maxRetries: int)
    requires svc.hasKey && svc.setupFault.None? && maxRetries <= 0
    ensures CallModel(svc, prompt, maxRetries) == Trace(Returned(None), 0, [])
  {
  }

  /** From attempt `k` on, the pauses are `2 ** j` for each failed attempt `j` but the last call. */
  lemma {:induction false} RetrySleeps(att: nat -> Option<Json>, k: nat, maxRetries: int)
    ensures var t := RetryFrom(att, k, maxRetries);
      t.sleeps == BackoffFrom(k, if t.calls == 0 then 0 else t.calls - 1)
    decreases maxRetries - k
  {
    if k < maxRetries - 1 && att(k).None? {
      RetrySleeps(att, k + 1, maxRetries);
      var rest := RetryFrom(att, k + 1, maxRetries);
      assert [Pow2(k)] + BackoffFrom(k + 1, rest.calls - 1) == BackoffFrom(k, rest.calls);
    }
  }

  /** A document returned from attempt `k` on is the one the last call decoded. */
  lemma {:induction false} RetryData(att: nat -> Option<Json>, k: nat, maxRetries: int)
    ensures var t := RetryFrom(att, k, maxRetries);
      t.outcome.Returned? && t.outcome.data.Some? ==>
        t.calls > 0 && att(k + t.calls - 1) == t.outcome.data
    decreases maxRetries - k
  {
    if k < maxRetries - 1 && att(k).None? {
      RetryData(att, k + 1, maxRetries);
    }
  }

  /**
   * With a client, the calls are bounded by the retry budget and at least
   * one is made when the budget is positive, the pauses are 1, 2, 4, ...
   * seconds, one fewer than the calls, and a returned document is what the
   * last attempt decoded.
   */
  lemma CallShape(svc: Service, prompt: string, maxRetries: int)
    requires svc.hasKey && svc.setupFault.None?
    ensures var t := CallModel(svc, prompt, maxRetries);
      && t.calls <= (if maxRetries < 0 then 0 else maxRetries)
      && (maxRetries >= 1 ==> t.calls >= 1)
      && t.sleeps == Backoff(if t.calls == 0 then 0 else t.calls - 1)
      && (t.outcome.data.Some? ==> t.outcome.data == Attempt(svc, prompt, t.calls - 1))
  {
    var att := Attempts(svc, prompt);
    var t := RetryFrom(att, 0, maxRetries);
    assert CallModel(svc, prompt, maxRetries) == t;
    RetrySleeps(att, 0, maxRetries);
    RetryDataFromStart(att, maxRetries);
    if t.outcome.data.Some? {
      AttemptsAt(svc, prompt, t.calls - 1);
    }
  }

  /** `RetryData` for the whole loop. */
  lemma RetryDataFromStart(att: nat -> Option<Json>, maxRetries: int)
    ensures var t := RetryFrom(att, 0, maxRetries);
      t.outcome.data.Some? ==> t.calls > 0 && att(t.calls - 1) == t.outcome.data
  {
    RetryData(att, 0, maxRetries);
  }

  /** The attempts of a call, by number, are its single attempts. */
  lemma AttemptsAt(svc: Service, prompt: string, j: nat)
    ensures Attempts(svc, prompt)(j) == Attempt(svc, prompt, j)
  {
  }

  /** Every attempt from `k` until `j` failed. */
  ghost predicate FailedBetween(att: nat -> Option<Json>, k: nat, j: nat) {
    forall i: nat :: k <= i < j ==> att(i).None?
  }

  /** If attempt `j` is the first to decode, the loop returns its document after `j - k + 1` calls. */
  lemma {:induction false} FirstSuccessFrom(att: nat -> Option<Json>, k: nat, j: nat, maxRetries: int)
    requires k <= j < maxRetries
    requires FailedBetween(att, k, j) && att(j).Some?
    ensures RetryFrom(att, k, maxRetries).outcome == Returned(att(j))
    ensures RetryFrom(att, k, maxRetries).calls == j - k + 1
    decreases j - k
  {
    if k < j {
      assert att(k).None?;
      FirstSuccessFrom(att, k + 1, j, maxRetries);
    }
  }

  /** If every attempt fails, the loop makes all `maxRetries` calls and returns `None`. */
  lemma {:induction false} AllFailFrom(att: nat -> Option<Json>, k: nat, maxRetries: int)
    requires k <= maxRetries && FailedBetween(att, k, maxRetries)
    ensures RetryFrom(att, k, maxRetries).outcome == Returned(None)
    ensures RetryFrom(att, k, maxRetries).calls == maxRetries - k
    decreases maxRetries - k
  {
    if k < maxRetries - 1 {
      AllFailFrom(att, k + 1, maxRetries);
    }
  }

  /**
   * The call returns a document exactly when some attempt within the budget
   * decodes one, and then it is the document of the FIRST such attempt.
   */
  lemma FirstSuccessWins(svc: Service, prompt: string, maxRetries: int, j: nat)
    requires svc.hasKey && svc.setupFault.None?
    requires j < maxRetries && FailedBetween(Attempts(svc, prompt), 0, j) && Attempt(svc, prompt, j).Some?
    ensures CallModel(svc, prompt, maxRetries).outcome == Returned(Attempt(svc, prompt, j))
    ensures CallModel(svc, prompt, maxRetries).calls == j + 1
    ensures CallModel(svc, prompt, maxRetries).sleeps == Backoff(j)
  {
    FirstSuccessFrom(Attempts(svc, prompt), 0, j, maxRetries);
    CallShape(svc, prompt, maxRetries);
  }

  /** When every attempt fails, `None` comes back after exactly `maxRetries` calls and `maxRetries - 1` pauses. */
  lemma AllFail(svc: Service, prompt: string, maxRetries: int)
    requires svc.hasKey && svc.setupFault.None? && maxRetries >= 1
    requires FailedBetween(Attempts(svc, prompt), 0, maxRetries)
    ensures CallModel(svc, prompt, maxRetries).outcome == Returned(None)
    ensures CallModel(svc, prompt, maxRetries).calls == maxRetries
    ensures CallModel(svc, prompt, maxRetries).sleeps == Backoff(maxRetries - 1)
  {
    AllFailFrom(Attempts(svc, prompt), 0, maxRetries);
    CallShape(svc, prompt, maxRetries);
  }

  /** With the default budget of three and every attempt failing, the pauses are 1 and 2 seconds. */
  lemma DefaultBudgetPauses(svc: Service, prompt: string)
    requires svc.hasKey && svc.setupFault.None?
    requires FailedBetween(Attempts(svc, prompt), 0, 3)
    ensures CallModel(svc, prompt, 3) == Trace(Returned(None), 3, [1, 2])
  {
    AllFail(svc, prompt, 3);
    assert Backoff(2) == [Pow2(0), Pow2(1)];
  }
}
