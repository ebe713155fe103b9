/**
 * The regular expressions of `extract_with_regex`, as matchers: each says
 * whether its pattern matches at a position and how long the match is,
 * following the order in which Python's backtracking engine tries the
 * alternatives and the greedy quantifiers. `Scan` is `re.findall` for
 * patterns whose matches are never empty, and `Search` is `re.search` for a
 * vocabulary word between two `\b`.
 */
module Patterns {
  import opened Chars
  import opened Wrappers

  /** A match: where it starts and how many characters it covers. */
  datatype Span = Span(start: nat, len: nat)

  /** The three patterns scanned with `re.findall`. */
  datatype Kind = Phone | Amount | Date

  // ---------------------------------------------------------------------
  // Phone numbers: \b\d{10}\b|\b\d{5}\s?\d{5}\b|\b\d{3}\s?\d{3}\s?\d{4}\b

  /**
   * Length of the phone match at `p`. The alternatives are tried in order;
   * within one, an optional `\s?` is first tried present, then absent.
   * Without any whitespace the second and third alternatives are ten digits
   * between two `\b`, the first alternative, which has already failed by
   * then; those branches are therefore not repeated.
   */
  function PhoneAt(s: string, p: nat): (r: Option<nat>)
    requires p <= |s|
    ensures r.Some? ==> 10 <= r.value <= 12 && p + r.value <= |s|
  {
    if !Boundary(s, p) then None
    // \d{10}\b
    else if DigitsAt(s, p, 10) && Boundary(s, p + 10) then Some(10)
    // \d{5}\s?\d{5}\b
    else if DigitsAt(s, p, 5) && SpaceAt(s, p + 5) && DigitsAt(s, p + 6, 5) && Boundary(s, p + 11) then Some(11)
    // \d{3}\s?\d{3}\s?\d{4}\b
    else if DigitsAt(s, p, 3) && SpaceAt(s, p + 3) && DigitsAt(s, p + 4, 3) && SpaceAt(s, p + 7)
      && DigitsAt(s, p + 8, 4) && Boundary(s, p + 12) then Some(12)
    else if DigitsAt(s, p, 3) && SpaceAt(s, p + 3) && DigitsAt(s, p + 4, 7) && Boundary(s, p + 11) then Some(11)
    else if DigitsAt(s, p, 6) && SpaceAt(s, p + 6) && DigitsAt(s, p + 7, 4) && Boundary(s, p + 11) then Some(11)
    else None
  }

  // ---------------------------------------------------------------------
  // Amounts (case-insensitive):
  //   â‚¹\s?\d+[,\d]*|\b\d+[,\d]*\s?(?:rupees|lakhs|thousands|crores)\b

  /** The pattern's currency prefix: the three characters U+00E2 U+201A U+00B9. */
  const CurrencyPrefix: string := "\U{00E2}\U{201A}\U{00B9}"

  /** The unit words, in the order of the alternation. */
  const Units: seq<string> := ["rupees", "lakhs", "thousands", "crores"]

  predicate IsDigitOrComma(c: char) {
    IsDigit(c) || c == ','
  }

  /** Length of the greedy `[,\d]*` at position `i`. */
  function DigitCommaRun(s: string, i: nat): (n: nat)
    requires i <= |s|
    ensures i + n <= |s|
    ensures forall j :: i <= j < i + n ==> IsDigitOrComma(s[j])
    ensures i + n < |s| ==> !IsDigitOrComma(s[i + n])
    decreases |s| - i
  {
    if i < |s| && IsDigitOrComma(s[i]) then 1 + DigitCommaRun(s, i + 1) else 0
  }

  /**
   * First alternative: the currency prefix, an optional whitespace, then
   * `\d+[,\d]*`, which takes the whole run of digits and commas. When the
   * whitespace is present but no digit follows it, the engine retries
   * without it, and then a digit must follow the prefix directly.
   */
  function CurrencyAmountAt(s: string, p: nat): (r: Option<nat>)
    requires p <= |s|
    ensures r.Some? ==> r.value >= 4 && p + r.value <= |s|
  {
    var q := p + |CurrencyPrefix|;
    if !FoldAt(s, p, CurrencyPrefix) then None
    else if SpaceAt(s, q) && DigitsAt(s, q + 1, 1) then Some(q + 2 + DigitCommaRun(s, q + 2) - p)
    else if DigitsAt(s, q, 1) then Some(q + 1 + DigitCommaRun(s, q + 1) - p)
    else None
  }

  /** Length of the first unit word at `i` that ends at a word boundary. */
  function UnitAt(s: string, i: nat): (r: Option<nat>)
    requires i <= |s|
    ensures r.Some? ==> r.value > 0 && i + r.value <= |s|
  {
    UnitFrom(s, i, 0)
  }

  function UnitFrom(s: string, i: nat, u: nat): (r: Option<nat>)
    requires i <= |s| && u <= |Units|
    ensures r.Some? ==> r.value > 0 && i + r.value <= |s|
    decreases |Units| - u
  {
    if u == |Units| then None
    else if FoldAt(s, i, Units[u]) && Boundary(s, i + |Units[u]|) then Some(|Units[u]|)
    else UnitFrom(s, i, u + 1)
  }

  /**
   * Second alternative: `\b\d+[,\d]*`, an optional whitespace, a unit and
   * `\b`. Giving back digits or commas never helps (the character after a
   * shorter run is a digit or a comma, which neither `\s` nor a unit can
   * start with), so only the whole run is tried; the whitespace is tried
   * present, then absent.
   */
  function UnitAmountAt(s: string, p: nat): (r: Option<nat>)
    requires p <= |s|
    ensures r.Some? ==> r.value > 0 && p + r.value <= |s|
  {
    if !(Boundary(s, p) && DigitsAt(s, p, 1)) then None
    else
      var e := p + 1 + DigitCommaRun(s, p + 1);
      if SpaceAt(s, e) && UnitAt(s, e + 1).Some? then Some(e + 1 + UnitAt(s, e + 1).value - p)
      else if UnitAt(s, e).Some? then Some(e + UnitAt(s, e).value - p)
      else None
  }

  function AmountAt(s: string, p: nat): (r: Option<nat>)
    requires p <= |s|
    ensures r.Some? ==> r.value > 0 && p + r.value <= |s|
  {
    match CurrencyAmountAt(s, p)
    case Some(n) => Some(n)
    case None => UnitAmountAt(s, p)
  }

  // ---------------------------------------------------------------------
  // Dates: \b\d{1,2}[/-]\d{1,2}[/-]\d{2,4}\b

  predicate SeparatorAt(s: string, i: nat) {
    i < |s| && (s[i] == '/' || s[i] == '-')
  }

  /** End of the greedy `\d{2,4}\b` at `i`: four digits, then three, then two. */
  function YearEnd(s: string, i: nat): (r: Option<nat>)
    requires i <= |s|
    ensures r.Some? ==> i + 2 <= r.value <= |s|
  {
    if DigitsAt(s, i, 4) && Boundary(s, i + 4) then Some(i + 4)
    else if DigitsAt(s, i, 3) && Boundary(s, i + 3) then Some(i + 3)
    else if DigitsAt(s, i, 2) && Boundary(s, i + 2) then Some(i + 2)
    else None
  }

  /** End of `\d{1,2}[/-]` followed by `rest`, trying two digits before one. */
  function FieldThenYear(s: string, i: nat): (r: Option<nat>)
    requires i <= |s|
    ensures r.Some? ==> i + 4 <= r.value <= |s|
  {
    var two := if DigitsAt(s, i, 2) && SeparatorAt(s, i + 2) then YearEnd(s, i + 3) else None;
    if two.Some? then two
    else if DigitsAt(s, i, 1) && SeparatorAt(s, i + 1) then YearEnd(s, i + 2)
    else None
  }

  /** End of `\d{1,2}[/-]\d{1,2}[/-]\d{2,4}\b` at `i`, day tried with two digits first. */
  function DayMonthYear(s: string, i: nat): (r: Option<nat>)
    requires i <= |s|
    ensures r.Some? ==> i + 6 <= r.value <= |s|
  {
    var two := if DigitsAt(s, i, 2) && SeparatorAt(s, i + 2) then FieldThenYear(s, i + 3) else None;
    if two.Some? then two
    else if DigitsAt(s, i, 1) && SeparatorAt(s, i + 1) then FieldThenYear(s, i + 2)
    else None
  }

  function DateAt(s: string, p: nat): (r: Option<nat>)
    requires p <= |s|
    ensures r.Some? ==> r.value >= 6 && p + r.value <= |s|
  {
    if !Boundary(s, p) then None
    else match DayMonthYear(s, p)
      case Some(e) => Some(e - p)
      case None => None
  }

  // ---------------------------------------------------------------------
  // re.findall

  function MatchAt(k: Kind, s: string, p: nat): (r: Option<nat>)
    requires p <= |s|
    ensures r.Some? ==> r.value > 0 && p + r.value <= |s|
  {
    match k
    case Phone => PhoneAt(s, p)
    case Amount => AmountAt(s, p)
    case Date => DateAt(s, p)
  }

  /**
   * What the pattern does at each position of a text: the length of the
   * match starting there, if any.
   */
  type MatchTable = seq<Option<nat>>

  /** Every match in the table is non-empty and ends inside the text. */
  predicate WellFormed(t: MatchTable) {
    forall q :: 0 <= q < |t| && t[q].Some? ==> 0 < t[q].value && q + t[q].value <= |t|
  }

  function Table(k: Kind, s: string): (t: MatchTable)
    ensures |t| == |s| && WellFormed(t)
    ensures forall q :: 0 <= q < |s| ==> t[q] == MatchAt(k, s, q)
  {
    seq(|s|, q requires 0 <= q < |s| => MatchAt(k, s, q))
  }

  /**
   * `re.findall` from position `p`: try every position left to right; after
   * a match, go on where it ended.
   */
  function Scan(t: MatchTable, p: nat): (spans: seq<Span>)
    requires WellFormed(t) && p <= |t|
    ensures forall i :: 0 <= i < |spans| ==>
      p <= spans[i].start && 0 < spans[i].len && spans[i].start + spans[i].len <= |t|
    decreases |t| - p
  {
    if p == |t| then []
    else match t[p]
      case Some(n) => [Span(p, n)] + Scan(t, p + n)
      case None => Scan(t, p + 1)
  }

  /** No match starts anywhere in `[from, to)`. */
  predicate NoMatchIn(t: MatchTable, from: nat, to: nat)
    requires to <= |t|
  {
    forall q :: from <= q < to ==> t[q].None?
  }

  /**
   * The declarative reading of `findall`: the spans are matches, in order,
   * each one starting at the first position after the previous one (or
   * after `p`) where the pattern matches, and no match starts after the last.
   */
  predicate IsLeftmostScan(t: MatchTable, p: nat, spans: seq<Span>)
    requires p <= |t|
    decreases |spans|
  {
    if spans == [] then NoMatchIn(t, p, |t|)
    else
      var sp := spans[0];
      && p <= sp.start < |t|
      && NoMatchIn(t, p, sp.start)
      && t[sp.start] == Some(sp.len)
      && sp.start + sp.len <= |t|
      && IsLeftmostScan(t, sp.start + sp.len, spans[1..])
  }

  /** `Scan` returns the leftmost matches. */
  lemma {:induction false} ScanIsLeftmost(t: MatchTable, p: nat)
    requires WellFormed(t) && p <= |t|
    ensures IsLeftmostScan(t, p, Scan(t, p))
    decreases |t| - p
  {
    if p < |t| {
      match t[p]
      case Some(n) =>
        ScanIsLeftmost(t, p + n);
        LeftmostAfterMatch(t, p, Scan(t, p + n));
      case None =>
        ScanIsLeftmost(t, p + 1);
        LeftmostAfterMiss(t, p, Scan(t, p));
    }
  }

  /** A match at `p` followed by the leftmost matches after it are the leftmost matches from `p`. */
  lemma LeftmostAfterMatch(t: MatchTable, p: nat, spans: seq<Span>)
    requires WellFormed(t) && p < |t| && t[p].Some?
    requires IsLeftmostScan(t, p + t[p].value, spans)
    ensures IsLeftmostScan(t, p, [Span(p, t[p].value)] + spans)
  {
    assert ([Span(p, t[p].value)] + spans)[1..] == spans;
  }

  /** Where no match starts at `p`, the leftmost matches from `p + 1` are those from `p`. */
  lemma LeftmostAfterMiss(t: MatchTable, p: nat, spans: seq<Span>)
    requires p < |t| && t[p].None?
    requires IsLeftmostScan(t, p + 1, spans)
    ensures IsLeftmostScan(t, p, spans)
  {
  }

  /** The leftmost matches are unique: any sequence of them is what `Scan` returns. */
  lemma {:induction false} LeftmostScanIsScan(t: MatchTable, p: nat, spans: seq<Span>)
    requires WellFormed(t) && p <= |t|
    requires IsLeftmostScan(t, p, spans)
    ensures spans == Scan(t, p)
    decreases |t| - p
  {
    if p < |t| {
      match t[p]
      case Some(n) =>
        assert spans != [] && spans[0].start == p;
        LeftmostScanIsScan(t, p + n, spans[1..]);
        assert spans == [spans[0]] + spans[1..];
      case None =>
        assert IsLeftmostScan(t, p + 1, spans);
        LeftmostScanIsScan(t, p + 1, spans);
    }
  }

  /** Each span of a leftmost scan is a match of the pattern. */
  lemma {:induction false} SpanIsMatch(t: MatchTable, p: nat, spans: seq<Span>, i: nat)
    requires p <= |t| && IsLeftmostScan(t, p, spans) && i < |spans|
    ensures spans[i].start < |t| && t[spans[i].start] == Some(spans[i].len)
    decreases i
  {
    if i > 0 {
      SpanIsMatch(t, spans[0].start + spans[0].len, spans[1..], i - 1);
    }
  }

  /** The text each span covers. */
  function Texts(s: string, spans: seq<Span>): (ts: seq<string>)
    requires forall i :: 0 <= i < |spans| ==> spans[i].start + spans[i].len <= |s|
    ensures |ts| == |spans|
    ensures forall i :: 0 <= i < |spans| ==> ts[i] == s[spans[i].start..spans[i].start + spans[i].len]
  {
    if spans == [] then []
    else [s[spans[0].start..spans[0].start + spans[0].len]] + Texts(s, spans[1..])
  }

  /** The match positions of `re.findall(pattern, s)`. */
  function Spans(k: Kind, s: string): (spans: seq<Span>)
    ensures forall i :: 0 <= i < |spans| ==> 0 < spans[i].len && spans[i].start + spans[i].len <= |s|
  {
    Scan(Table(k, s), 0)
  }

  /** `re.findall(pattern, s)`: the matched texts, in document order. */
  function Matches(k: Kind, s: string): (ms: seq<string>)
    ensures |ms| == |Spans(k, s)|
    ensures forall i :: 0 <= i < |ms| ==> ms[i] != []
  {
    Texts(s, Spans(k, s))
  }

  /** Every match `findall` reports is a match of the pattern where it starts. */
  lemma SpansAreMatches(k: Kind, s: string, i: nat)
    requires i < |Spans(k, s)|
    ensures Spans(k, s)[i].start < |s|
    ensures MatchAt(k, s, Spans(k, s)[i].start) == Some(Spans(k, s)[i].len)
  {
    ScanIsLeftmost(Table(k, s), 0);
    SpanIsMatch(Table(k, s), 0, Spans(k, s), i);
  }

  // ---------------------------------------------------------------------
  // What the matched texts consist of

  predicate CommaFree(t: string) {
    forall j :: 0 <= j < |t| ==> t[j] != ','
  }

  /** A phone match holds only digits and whitespace. */
  lemma PhoneMatchChars(s: string, p: nat)
    requires p <= |s| && PhoneAt(s, p).Some?
    ensures forall j :: p <= j < p + PhoneAt(s, p).value ==> IsDigit(s[j]) || IsSpace(s[j])
  {
  }

  /** A date match holds only digits, `/` and `-`. */
  lemma DateMatchChars(s: string, p: nat)
    requires p <= |s| && DateAt(s, p).Some?
    ensures forall j :: p <= j < p + DateAt(s, p).value ==> IsDigit(s[j]) || s[j] == '/' || s[j] == '-'
  {
    var n := DateAt(s, p).value;
    assert DayMonthYear(s, p) == Some(p + n);
  }

  /** Phone and date matches never contain a comma. */
  lemma MatchesCommaFree(k: Kind, s: string)
    requires k != Amount
    ensures forall i :: 0 <= i < |Matches(k, s)| ==> CommaFree(Matches(k, s)[i])
  {
    forall i | 0 <= i < |Matches(k, s)| ensures CommaFree(Matches(k, s)[i]) {
      MatchCommaFree(k, s, i);
    }
  }

  /** The `i`-th phone or date match holds no comma. */
  lemma MatchCommaFree(k: Kind, s: string, i: nat)
    requires k != Amount && i < |Spans(k, s)|
    ensures CommaFree(Matches(k, s)[i])
  {
    var sp := Spans(k, s)[i];
    assert sp.start + sp.len <= |s| && forall j :: sp.start <= j < sp.start + sp.len ==> s[j] != ',' by {
      SpansAreMatches(k, s, i);
      if k == Phone {
        PhoneMatchChars(s, sp.start);
      } else {
        DateMatchChars(s, sp.start);
      }
    }
    SliceCommaFree(s, sp.start, sp.start + sp.len);
  }

  /** A slice of positions holding no comma is comma-free. */
  lemma SliceCommaFree(s: string, a: nat, b: nat)
    requires a <= b <= |s| && forall j :: a <= j < b ==> s[j] != ','
    ensures CommaFree(s[a..b])
  {
    forall j | 0 <= j < b - a ensures s[a..b][j] != ',' {
      assert s[a..b][j] == s[a + j];
    }
  }

  // ---------------------------------------------------------------------
  // re.search(rf'\b{model}\b', s, re.IGNORECASE)

  /** `w` occurs in `s` at `p`, ignoring case, with a word boundary on both sides. */
  predicate WordAt(s: string, w: string, p: nat) {
    p + |w| <= |s| && Boundary(s, p) && FoldEq(s[p..p + |w|], w) && Boundary(s, p + |w|)
  }

  ghost predicate Occurs(w: string, s: string) {
    exists p :: 0 <= p <= |s| && WordAt(s, w, p)
  }

  /** `re.search` from position `p`: the first position at which `w` is found. */
  function SearchFrom(w: string, s: string, p: nat): bool
    decreases |s| - p
  {
    if p + |w| > |s| then false
    else WordAt(s, w, p) || SearchFrom(w, s, p + 1)
  }

  /** `re.search` finds `w` exactly when it occurs as a word. */
  function Search(w: string, s: string): (r: bool)
    ensures r <==> Occurs(w, s)
  {
    SearchFromSound(w, s, 0);
    SearchFrom(w, s, 0)
  }

  /** `SearchFrom` finds `w` exactly when it occurs at or after `p`. */
  lemma {:induction false} SearchFromSound(w: string, s: string, p: nat)
    ensures SearchFrom(w, s, p) <==> exists q :: p <= q <= |s| && WordAt(s, w, q)
    decreases |s| - p
  {
    if p + |w| <= |s| {
      SearchFromSound(w, s, p + 1);
      if !WordAt(s, w, p) && exists q :: p <= q <= |s| && WordAt(s, w, q) {
        var q :| p <= q <= |s| && WordAt(s, w, q);
        assert q != p;
      }
    }
  }
}
