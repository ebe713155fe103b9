/**
 * Transcript normalisation (`clean_transcript`): whitespace runs collapse to
 * one space, a speaker label (`Agent`, `Customer`) loses the whitespace
 * between it and its colon, and the result is stripped at both ends.
 */
module Normalize {
  import opened Chars

  /** `re.sub(r'\s+', ' ', s)`: every maximal whitespace run becomes one space. */
  function Collapse(s: string): (r: string)
    ensures |r| <= |s|
    ensures s != [] ==> r != [] && (IsSpace(r[0]) <==> IsSpace(s[0]))
    decreases |s|
  {
    if s == [] then []
    else if IsSpace(s[0]) then " " + Collapse(s[LeadingSpaces(s)..])
    else [s[0]] + Collapse(s[1..])
  }

  /** `s` starts with the label `Agent`. */
  predicate AgentAt(s: string)
  {
    |s| >= 5 && s[0] == 'A' && s[1] == 'g' && s[2] == 'e' && s[3] == 'n' && s[4] == 't'
  }

  /** `s` starts with the label `Customer`. */
  predicate CustomerAt(s: string)
  {
    |s| >= 8 && s[0] == 'C' && s[1] == 'u' && s[2] == 's' && s[3] == 't'
    && s[4] == 'o' && s[5] == 'm' && s[6] == 'e' && s[7] == 'r'
  }

  /**
   * Length of the speaker label that `s` starts with, trying the
   * alternatives of `(Agent|Customer)` in order; 0 when there is none.
   * The match is case-sensitive and needs no word boundary.
   */
  function LabelLength(s: string): (n: nat)
    ensures n <= |s|
    ensures n == 0 || n == 5 || n == 8
    ensures n > 0 ==> s[0] == 'A' || s[0] == 'C'
  {
    if AgentAt(s) then 5 else if CustomerAt(s) then 8 else 0
  }

  /**
   * Where the match of `(Agent|Customer)\s*:` that starts at the front of `s`
   * ends, or 0 when no match starts there.
   */
  function MatchEnd(s: string): (e: nat)
    ensures e <= |s|
    ensures e > 0 ==> LabelLength(s) > 0 && LabelLength(s) < e && s[e - 1] == ':'
  {
    var n := LabelLength(s);
    var k := LeadingSpaces(s[n..]);
    if n > 0 && n + k < |s| && s[n + k] == ':' then n + k + 1 else 0
  }

  /**
   * `re.sub(r'(Agent|Customer)\s*:', r'\1:', s)`. Scanning left to right,
   * a label followed by whitespace (possibly none) and a colon is replaced by
   * the label and the colon; otherwise one character is kept and the scan
   * moves on.
   */
  function Tighten(s: string): (r: string)
    ensures |r| <= |s|
    ensures s != [] ==> r != [] && r[0] == s[0]
    decreases |s|
  {
    if s == [] then []
    else if MatchEnd(s) > 0 then s[..LabelLength(s)] + ":" + Tighten(s[MatchEnd(s)..])
    else [s[0]] + Tighten(s[1..])
  }

  /** Drops the whitespace at the end of `s` (the right half of `str.strip`). */
  function TrimEnd(s: string): (r: string)
    ensures |r| <= |s| && r == s[..|r|]
    ensures r == [] || !IsSpace(r[|r| - 1])
    ensures forall j :: |r| <= j < |s| ==> IsSpace(s[j])
    decreases |s|
  {
    if s != [] && IsSpace(s[|s| - 1]) then TrimEnd(s[..|s| - 1]) else s
  }

  /** `str.strip()`: drops the whitespace at both ends of `s`. */
  function Strip(s: string): (r: string)
    ensures LeadingSpaces(s) + |r| <= |s|
    ensures r == s[LeadingSpaces(s)..LeadingSpaces(s) + |r|]
    ensures forall j :: LeadingSpaces(s) + |r| <= j < |s| ==> IsSpace(s[j])
    ensures Trimmed(r)
  {
    var n := LeadingSpaces(s);
    var t := s[n..];
    var r := TrimEnd(t);
    assert r == t[..|r|];
    assert forall j :: n + |r| <= j < |s| ==> s[j] == t[j - n];
    r
  }

  /**
   * `clean_transcript`: the empty transcript gives the empty string;
   * any other is collapsed, label-tightened and stripped.
   */
  function Clean(transcript: string): (r: string)
    ensures transcript == [] ==> r == []
    ensures |r| <= |transcript|
  {
    if transcript == [] then []
    else Strip(Tighten(Collapse(transcript)))
  }

  // ---------------------------------------------------------------------
  // The shape of a cleaned transcript

  /** No whitespace at either end. */
  predicate Trimmed(r: string) {
    r == [] || (!IsSpace(r[0]) && !IsSpace(r[|r| - 1]))
  }

  /** Every whitespace character is a plain space and no two are adjacent. */
  predicate SingleSpaced(r: string) {
    && (forall i :: 0 <= i < |r| && IsSpace(r[i]) ==> r[i] == ' ')
    && (forall i :: 0 <= i < |r| - 1 ==> !SpacePairAt(r, i))
  }

  /** Whitespace at position `i` and at the position after it. */
  predicate SpacePairAt(r: string, i: nat) {
    i + 1 < |r| && IsSpace(r[i]) && IsSpace(r[i + 1])
  }

  /** `t` starts with a speaker label, then at least one whitespace, then `:`. */
  predicate LooseLabel(t: string) {
    var n := LabelLength(t);
    var k := LeadingSpaces(t[n..]);
    n > 0 && k > 0 && n + k < |t| && t[n + k] == ':'
  }

  /** No position of `r` holds a label separated from its colon. */
  predicate NoLooseLabel(r: string) {
    forall i :: 0 <= i < |r| ==> !LooseLabelAt(r, i)
  }

  /** A loose label starts at position `i` of `r`. */
  predicate LooseLabelAt(r: string, i: nat) {
    i <= |r| && LooseLabel(r[i..])
  }

  /** What cleaning promises: trimmed, single-spaced, no loose speaker label. */
  predicate IsClean(r: string) {
    Trimmed(r) && SingleSpaced(r) && NoLooseLabel(r)
  }

  // ---------------------------------------------------------------------
  // Lemmas

  /** A run of whitespace ended by a non-whitespace character has a known length. */
  lemma {:induction false} LeadingSpacesExact(t: string, k: nat)
    requires k <= |t| && (k < |t| ==> !IsSpace(t[k]))
    requires forall j :: 0 <= j < k ==> IsSpace(t[j])
    ensures LeadingSpaces(t) == k
  {
    if k > 0 {
      LeadingSpacesExact(t[1..], k - 1);
    }
  }

  /** A text that starts with the same label as `t` has the same label length. */
  lemma LabelLengthOfPrefix(t: string, u: string)
    requires LabelLength(t) > 0
    requires StartsWith(u, t[..LabelLength(t)])
    ensures LabelLength(u) == LabelLength(t)
  {
    var n := LabelLength(t);
    assert forall j :: 0 <= j < n ==> u[j] == u[..n][j] == t[j];
  }

  /** No label starts at a character other than `A` or `C`. */
  lemma NoLabelStart(t: string)
    requires t != [] && t[0] != 'A' && t[0] != 'C'
    ensures LabelLength(t) == 0 && MatchEnd(t) == 0 && !LooseLabel(t)
  {
  }

  /** A label directly followed by its colon is not loose. */
  lemma ColonAfterLabel(t: string)
    requires LabelLength(t) < |t| && t[LabelLength(t)] == ':'
    ensures !LooseLabel(t)
  {
    assert t[LabelLength(t)..][0] == ':';
  }

  /** A label is made of letters, and no other label starts inside it. */
  lemma LabelTail(t: string, q: nat)
    requires q < LabelLength(t)
    ensures IsAsciiLetter(t[q]) && !IsSpace(t[q])
    ensures q > 0 ==> t[q] != 'A' && t[q] != 'C'
  {
  }

  /** A loose label stays loose when more text follows it. */
  lemma LooseLabelExtends(t: string, u: string)
    requires LooseLabel(t)
    requires StartsWith(u, t)
    ensures LooseLabel(u)
  {
    var n := LabelLength(t);
    var k := LeadingSpaces(t[n..]);
    assert u[..|t|] == t;
    assert u[..n] == t[..n];
    LabelLengthOfPrefix(t, u);
    forall j | 0 <= j < k ensures IsSpace(u[n..][j]) {
      assert u[n..][j] == t[n..][j];
    }
    assert u[n..][k] == t[n..][k];
    LeadingSpacesExact(u[n..], k);
  }

  /** A suffix of text without loose labels has none either. */
  lemma NoLooseLabelSuffix(r: string, j: nat)
    requires NoLooseLabel(r) && j <= |r|
    ensures NoLooseLabel(r[j..])
  {
    forall i | 0 <= i < |r[j..]| ensures !LooseLabelAt(r[j..], i) {
      assert !LooseLabelAt(r, j + i);
      assert r[j..][i..] == r[j + i..];
    }
  }

  /** A slice of text without loose labels has none either. */
  lemma NoLooseLabelInfix(r: string, a: nat, b: nat, t: string)
    requires NoLooseLabel(r) && a <= b <= |r| && t == r[a..b]
    ensures NoLooseLabel(t)
  {
    forall i | 0 <= i < |t| ensures !LooseLabelAt(t, i) {
      assert !LooseLabelAt(r, a + i);
      if LooseLabel(t[i..]) {
        assert StartsWith(r[a + i..], t[i..]);
        LooseLabelExtends(t[i..], r[a + i..]);
        assert false;
      }
    }
  }

  /** Dropping past a prefix drops into what follows it. */
  lemma DropPastPrefix(a: string, b: string, i: nat)
    requires |a| <= i <= |a| + |b|
    ensures (a + b)[i..] == b[i - |a|..]
  {
  }

  /** The characters after the first one of `[c] + b`, up to `e`, are the front of `b`. */
  lemma TakeAfterHead(c: char, b: string, e: nat)
    requires 0 < e <= |b| + 1
    ensures ([c] + b)[1..e] == b[..e - 1]
  {
  }

  /** `Tighten` at a match: the label, a colon, and the rest tightened. */
  lemma TightenAtMatch(s: string)
    requires s != [] && MatchEnd(s) > 0
    ensures Tighten(s) == s[..LabelLength(s)] + ":" + Tighten(s[MatchEnd(s)..])
  {
  }

  /** `Tighten` where no match starts: the first character copied, and the rest tightened. */
  lemma TightenAtPlain(s: string)
    requires s != [] && MatchEnd(s) == 0
    ensures Tighten(s) == [s[0]] + Tighten(s[1..])
  {
  }

  /**
   * When the tightened text starts with `w`, a word in which no label can
   * start, the original starts with `w` too.
   */
  lemma {:induction false} TightenCopiesPlain(t: string, w: string)
    requires forall j :: 0 <= j < |w| ==> w[j] != 'A' && w[j] != 'C'
    requires StartsWith(Tighten(t), w)
    ensures StartsWith(t, w)
    decreases |w|
  {
    if w != [] {
      TightenCopiesPlainHead(t, w);
      TightenCopiesPlain(t[1..], w[1..]);
      PrefixCons(t, w);
    }
  }

  /** A plain first character is copied, and the rest of the prefix comes from the rest of the text. */
  lemma TightenCopiesPlainHead(t: string, w: string)
    requires w != [] && w[0] != 'A' && w[0] != 'C'
    requires StartsWith(Tighten(t), w)
    ensures t != [] && t[0] == w[0]
    ensures StartsWith(Tighten(t[1..]), w[1..])
  {
    PrefixUncons(Tighten(t), w);
    NoLabelStart(t);
    TightenAtPlain(t);
    DropHead(t[0], Tighten(t[1..]));
  }

  /** A non-empty prefix is a first character followed by a prefix of the rest. */
  lemma PrefixUncons(t: string, w: string)
    requires w != [] && StartsWith(t, w)
    ensures t != [] && t[0] == w[0] && StartsWith(t[1..], w[1..])
  {
    assert t[0] == t[..|w|][0];
    assert t[1..][..|w| - 1] == t[..|w|][1..];
  }

  /** Dropping the head of a one-character prefix. */
  lemma DropHead(c: char, b: string)
    ensures ([c] + b)[1..] == b
  {
  }

  /** Prefixes extend one character at the front. */
  lemma PrefixCons(t: string, w: string)
    requires w != [] && t != [] && t[0] == w[0]
    requires StartsWith(t[1..], w[1..])
    ensures StartsWith(t, w)
  {
    assert t[..|w|] == [t[0]] + t[1..][..|w| - 1];
  }

  /** After its first character, a loose label holds no `A` or `C` up to its colon. */
  lemma LooseLabelTail(r: string, q: nat)
    requires LooseLabel(r)
    requires 0 < q <= LabelLength(r) + LeadingSpaces(r[LabelLength(r)..])
    ensures r[q] != 'A' && r[q] != 'C'
  {
    var n := LabelLength(r);
    var k := LeadingSpaces(r[n..]);
    if q < n {
      LabelTail(r, q);
    } else if q < n + k {
      assert r[q] == r[n..][q - n];
      assert IsSpace(r[q]);
    } else {
      assert r[q] == r[n..][k];
    }
  }

  /** Where the shortest loose label at the front of `r` ends: just after its colon. */
  function LooseLabelEnd(r: string): nat {
    LabelLength(r) + LeadingSpaces(r[LabelLength(r)..]) + 1
  }

  /** The shortest prefix holding the loose label is itself loose. */
  lemma LooseLabelShortest(r: string)
    requires LooseLabel(r)
    ensures LooseLabelEnd(r) <= |r| && LooseLabel(r[..LooseLabelEnd(r)])
  {
    var n := LabelLength(r);
    var k := LeadingSpaces(r[n..]);
    var e := n + k + 1;
    var t := r[..e];
    assert t[..n] == r[..n];
    LabelLengthOfPrefix(r, t);
    forall q | 0 <= q < k ensures IsSpace(t[n..][q]) {
      assert t[n..][q] == r[n..][q];
    }
    assert t[n..][k] == r[n..][k];
    LeadingSpacesExact(t[n..], k);
  }

  /** Apart from its first character, a loose label cannot start another label. */
  lemma LooseLabelPlainTail(r: string)
    requires LooseLabel(r)
    ensures LooseLabelEnd(r) <= |r|
    ensures forall q :: 0 <= q < LooseLabelEnd(r) - 1 ==> r[1..LooseLabelEnd(r)][q] != 'A' && r[1..LooseLabelEnd(r)][q] != 'C'
  {
    var w := r[1..LooseLabelEnd(r)];
    forall q | 0 <= q < |w| ensures w[q] != 'A' && w[q] != 'C' {
      assert w[q] == r[q + 1];
      LooseLabelTail(r, q + 1);
    }
  }

  /** Where no match starts at the front, `Tighten` does not start a loose label. */
  lemma NoLooseLabelAtFront(s: string)
    requires s != [] && MatchEnd(s) == 0
    ensures !LooseLabel(Tighten(s))
  {
    var r := Tighten(s);
    TightenAtPlain(s);
    if LooseLabel(r) {
      var e := LooseLabelEnd(r);
      LooseLabelShortest(r);
      LooseLabelPlainTail(r);
      TakeAfterHead(s[0], Tighten(s[1..]), e);
      TightenCopiesPlain(s[1..], r[1..e]);
      assert r[..e][1..] == r[1..e];
      PrefixCons(s, r[..e]);
      LooseLabelExtends(r[..e], s);
      LooseLabelMatches(s);
    }
  }

  /** A loose label is a match of the substitution. */
  lemma LooseLabelMatches(t: string)
    requires LooseLabel(t)
    ensures MatchEnd(t) > 0
  {
  }

  /** Where a match starts at the front, no loose label starts in its replacement. */
  lemma NoLooseLabelInReplacement(s: string, i: nat)
    requires s != [] && MatchEnd(s) > 0
    requires i <= LabelLength(s)
    ensures i < |Tighten(s)| && !LooseLabel(Tighten(s)[i..])
  {
    var n := LabelLength(s);
    var r := Tighten(s);
    TightenAtMatch(s);
    assert r[..n] == s[..n];
    assert r[n] == ':';
    if i == 0 {
      LabelLengthOfPrefix(s, r);
      assert r[0..] == r;
      ColonAfterLabel(r);
    } else if i < n {
      LabelTail(s, i);
      NoLabelStart(r[i..]);
    } else {
      NoLabelStart(r[i..]);
    }
  }

  /** The replacement of a match does not start a loose label before the rest of the text. */
  lemma NoLooseLabelAfterMatch(s: string)
    requires s != [] && MatchEnd(s) > 0
    requires NoLooseLabel(Tighten(s[MatchEnd(s)..]))
    ensures NoLooseLabel(Tighten(s))
  {
    var n := LabelLength(s);
    var r := Tighten(s);
    TightenAtMatch(s);
    forall i | 0 <= i < |r| ensures !LooseLabelAt(r, i) {
      if i <= n {
        NoLooseLabelInReplacement(s, i);
      } else {
        NoLooseLabelPastReplacement(s, i);
      }
    }
  }

  /** Past the replacement of a match, the text is the rest's, which has no loose label. */
  lemma NoLooseLabelPastReplacement(s: string, i: nat)
    requires s != [] && MatchEnd(s) > 0
    requires NoLooseLabel(Tighten(s[MatchEnd(s)..]))
    requires LabelLength(s) < i < |Tighten(s)|
    ensures !LooseLabelAt(Tighten(s), i)
  {
    TightenAtMatch(s);
    NoLooseLabelPastPrefix(s[..LabelLength(s)] + ":", Tighten(s[MatchEnd(s)..]), i);
  }

  /** Past a prefix, a concatenation starts a loose label only where its second part does. */
  lemma NoLooseLabelPastPrefix(a: string, b: string, i: nat)
    requires NoLooseLabel(b) && |a| <= i < |a| + |b|
    ensures !LooseLabelAt(a + b, i)
  {
    assert !LooseLabelAt(b, i - |a|);
    DropPastPrefix(a, b, i);
  }

  /** A copied character does not start a loose label before the rest of the text. */
  lemma NoLooseLabelAfterPlain(s: string)
    requires s != [] && MatchEnd(s) == 0
    requires NoLooseLabel(Tighten(s[1..]))
    ensures NoLooseLabel(Tighten(s))
  {
    var rest := Tighten(s[1..]);
    var r := Tighten(s);
    TightenAtPlain(s);
    forall i | 0 <= i < |r| ensures !LooseLabelAt(r, i) {
      if i == 0 {
        NoLooseLabelAtFront(s);
        assert r[0..] == r;
      } else {
        assert !LooseLabelAt(rest, i - 1);
        DropPastPrefix([s[0]], rest, i);
      }
    }
  }

  /** After `Tighten` no label is separated from its colon. */
  lemma {:induction false} TightenLeavesNoLooseLabel(s: string)
    ensures NoLooseLabel(Tighten(s))
    decreases |s|
  {
    if s != [] {
      if MatchEnd(s) > 0 {
        TightenLeavesNoLooseLabel(s[MatchEnd(s)..]);
        NoLooseLabelAfterMatch(s);
      } else {
        TightenLeavesNoLooseLabel(s[1..]);
        NoLooseLabelAfterPlain(s);
      }
    }
  }

  /** Text without whitespace is single-spaced. */
  predicate NoSpaces(a: string) {
    forall j :: 0 <= j < |a| ==> !IsSpace(a[j])
  }

  /** Joining two single-spaced texts keeps single spacing unless whitespace meets whitespace at the seam. */
  lemma SingleSpacedConcat(a: string, b: string)
    requires SingleSpaced(a) && SingleSpaced(b)
    requires a != [] && b != [] ==> !(IsSpace(a[|a| - 1]) && IsSpace(b[0]))
    ensures SingleSpaced(a + b)
  {
    var c := a + b;
    forall i | 0 <= i < |c| && IsSpace(c[i]) ensures c[i] == ' ' {
      if i >= |a| {
        assert c[i] == b[i - |a|];
      }
    }
    forall i | 0 <= i < |c| - 1 ensures !SpacePairAt(c, i) {
      if i >= |a| {
        assert !SpacePairAt(b, i - |a|);
        assert c[i] == b[i - |a|] && c[i + 1] == b[i + 1 - |a|];
      } else if i == |a| - 1 {
        assert c[i + 1] == b[0];
      } else {
        assert !SpacePairAt(a, i);
      }
    }
  }

  /** A slice of single-spaced text is single-spaced. */
  lemma SingleSpacedInfix(t: string, a: nat, b: nat, r: string)
    requires SingleSpaced(t) && a <= b <= |t| && r == t[a..b]
    ensures SingleSpaced(r)
  {
    forall i | 0 <= i < |r| - 1 ensures !SpacePairAt(r, i) {
      assert !SpacePairAt(t, a + i);
      assert r[i] == t[a + i] && r[i + 1] == t[a + i + 1];
    }
    forall i | 0 <= i < |r| && IsSpace(r[i]) ensures r[i] == ' ' {
      assert r[i] == t[a + i];
    }
  }

  /** A suffix of single-spaced text is single-spaced. */
  lemma SingleSpacedSuffix(t: string, a: nat)
    requires SingleSpaced(t) && a <= |t|
    ensures SingleSpaced(t[a..])
  {
    SingleSpacedInfix(t, a, |t|, t[a..]);
  }

  /** The replacement of a match keeps single spacing. */
  lemma SingleSpacedAfterMatch(s: string)
    requires s != [] && MatchEnd(s) > 0
    requires SingleSpaced(Tighten(s[MatchEnd(s)..]))
    ensures SingleSpaced(Tighten(s))
  {
    var n := LabelLength(s);
    var head := s[..n] + ":";
    forall i | 0 <= i < |head| ensures !IsSpace(head[i]) {
      if i < n {
        LabelTail(s, i);
        assert head[i] == s[i];
      }
    }
    assert NoSpaces(head);
    TightenAtMatch(s);
    SingleSpacedConcat(head, Tighten(s[MatchEnd(s)..]));
  }

  /** Copying one character keeps single spacing when the input was single-spaced. */
  lemma SingleSpacedAfterPlain(s: string)
    requires s != [] && MatchEnd(s) == 0 && SingleSpaced(s)
    requires SingleSpaced(Tighten(s[1..]))
    ensures SingleSpaced(Tighten(s))
  {
    var rest := Tighten(s[1..]);
    TightenAtPlain(s);
    if rest != [] {
      assert rest[0] == s[1];
    }
    assert IsSpace(s[0]) ==> s[0] == ' ';
    assert |s| > 1 ==> !SpacePairAt(s, 0);
    SingleSpacedConcat([s[0]], rest);
  }

  /** `Tighten` keeps text single-spaced: it only deletes whitespace before a colon. */
  lemma {:induction false} TightenKeepsSingleSpaced(s: string)
    requires SingleSpaced(s)
    ensures SingleSpaced(Tighten(s))
    decreases |s|
  {
    if s != [] {
      if MatchEnd(s) > 0 {
        SingleSpacedSuffix(s, MatchEnd(s));
        TightenKeepsSingleSpaced(s[MatchEnd(s)..]);
        SingleSpacedAfterMatch(s);
      } else {
        SingleSpacedSuffix(s, 1);
        TightenKeepsSingleSpaced(s[1..]);
        SingleSpacedAfterPlain(s);
      }
    }
  }

  /** In text without loose labels a match is a label directly followed by its colon. */
  lemma MatchInCleanText(s: string)
    requires s != [] && NoLooseLabel(s) && MatchEnd(s) > 0
    ensures MatchEnd(s) == LabelLength(s) + 1
  {
    assert !LooseLabelAt(s, 0);
    assert s[0..] == s;
  }

  /** Text without loose labels is left alone by `Tighten`. */
  lemma {:induction false} TightenFixesNoLooseLabel(s: string)
    requires NoLooseLabel(s)
    ensures Tighten(s) == s
    decreases |s|
  {
    if s != [] {
      if MatchEnd(s) > 0 {
        MatchInCleanText(s);
        NoLooseLabelSuffix(s, MatchEnd(s));
        TightenFixesNoLooseLabel(s[MatchEnd(s)..]);
        TightenFixesMatch(s);
      } else {
        NoLooseLabelSuffix(s, 1);
        TightenFixesNoLooseLabel(s[1..]);
        TightenAtPlain(s);
        assert s == [s[0]] + s[1..];
      }
    }
  }

  /** A tight label before text that `Tighten` leaves alone is itself left alone. */
  lemma TightenFixesMatch(s: string)
    requires s != [] && MatchEnd(s) == LabelLength(s) + 1
    requires Tighten(s[MatchEnd(s)..]) == s[MatchEnd(s)..]
    ensures Tighten(s) == s
  {
    var n := LabelLength(s);
    TightenAtMatch(s);
    SplitAround(s, n);
  }

  /** A text is its part before position `n`, its character there and the rest. */
  lemma SplitAround(s: string, n: nat)
    requires n < |s|
    ensures s == s[..n] + [s[n]] + s[n + 1..]
  {
  }

  /** `Collapse` leaves only single plain spaces. */
  lemma {:induction false} CollapseSingleSpaced(s: string)
    ensures SingleSpaced(Collapse(s))
    decreases |s|
  {
    if s != [] {
      if IsSpace(s[0]) {
        var rest := s[LeadingSpaces(s)..];
        CollapseSingleSpaced(rest);
        SingleSpacedConcat(" ", Collapse(rest));
      } else {
        CollapseSingleSpaced(s[1..]);
        SingleSpacedConcat([s[0]], Collapse(s[1..]));
      }
    }
  }

  /** Single-spaced text is left alone by `Collapse`. */
  lemma {:induction false} CollapseFixesSingleSpaced(s: string)
    requires SingleSpaced(s)
    ensures Collapse(s) == s
    decreases |s|
  {
    if s != [] {
      SingleSpacedSuffix(s, 1);
      CollapseFixesSingleSpaced(s[1..]);
      if IsSpace(s[0]) {
        assert s[0] == ' ';
        assert |s| > 1 ==> !SpacePairAt(s, 0);
        LeadingSpacesExact(s, 1);
      }
      assert s == [s[0]] + s[1..];
    }
  }

  /** Text with no whitespace at its ends is left unchanged by `Strip`. */
  lemma StripFixesTrimmed(s: string)
    requires Trimmed(s)
    ensures Strip(s) == s
  {
    if s != [] {
      LeadingSpacesExact(s, 0);
    }
  }

  /**
   * A cleaned transcript has no whitespace at its ends, only single plain
   * spaces inside, and no label separated from its colon.
   */
  lemma CleanIsClean(transcript: string)
    ensures IsClean(Clean(transcript))
  {
    if transcript != [] {
      var c := Collapse(transcript);
      TightenLeavesNoLooseLabel(c);
      CollapseSingleSpaced(transcript);
      TightenKeepsSingleSpaced(c);
      StripKeepsShape(Tighten(c));
    }
  }

  /** Stripping keeps text single-spaced and free of loose labels. */
  lemma StripKeepsShape(t: string)
    requires SingleSpaced(t) && NoLooseLabel(t)
    ensures SingleSpaced(Strip(t)) && NoLooseLabel(Strip(t))
  {
    var a := LeadingSpaces(t);
    var r := Strip(t);
    NoLooseLabelInfix(t, a, a + |r|, r);
    SingleSpacedInfix(t, a, a + |r|, r);
  }

  /** Cleaning a cleaned transcript changes nothing. */
  lemma CleanIdempotent(transcript: string)
    ensures Clean(Clean(transcript)) == Clean(transcript)
  {
    var r := Clean(transcript);
    CleanIsClean(transcript);
    if r != [] {
      CollapseFixesSingleSpaced(r);
      TightenFixesNoLooseLabel(r);
      StripFixesTrimmed(r);
    }
  }

  // ---------------------------------------------------------------------
  // What cleaning keeps: the text itself

  /** The characters of `s` that are not whitespace, in order. */
  function NonSpace(s: string): (r: string)
    ensures |r| <= |s|
    ensures NoSpaces(r)
    decreases |s|
  {
    if s == [] then []
    else if IsSpace(s[0]) then NonSpace(s[1..])
    else [s[0]] + NonSpace(s[1..])
  }

  /** Text made only of whitespace. */
  predicate AllSpaces(g: string) {
    forall j :: 0 <= j < |g| ==> IsSpace(g[j])
  }

  /** `NonSpace` distributes over concatenation. */
  lemma {:induction false} NonSpaceConcat(a: string, b: string)
    ensures NonSpace(a + b) == NonSpace(a) + NonSpace(b)
    decreases |a|
  {
    if a == [] {
      assert a + b == b;
    } else {
      NonSpaceConcat(a[1..], b);
      assert (a + b)[1..] == a[1..] + b;
    }
  }

  /** Whitespace has no non-whitespace text. */
  lemma {:induction false} NonSpaceOfSpaces(g: string)
    requires AllSpaces(g)
    ensures NonSpace(g) == []
    decreases |g|
  {
    if g != [] {
      NonSpaceOfSpaces(g[1..]);
    }
  }

  /** Text without whitespace is its own non-whitespace text. */
  lemma {:induction false} NonSpaceOfNoSpaces(a: string)
    requires NoSpaces(a)
    ensures NonSpace(a) == a
    decreases |a|
  {
    if a != [] {
      NonSpaceOfNoSpaces(a[1..]);
      assert a == [a[0]] + a[1..];
    }
  }

  /** Whitespace between two texts does not show in their non-whitespace text. */
  lemma NonSpaceSkipsGap(a: string, g: string, b: string)
    requires AllSpaces(g)
    ensures NonSpace(a + g + b) == NonSpace(a) + NonSpace(b)
  {
    NonSpaceConcat(a + g, b);
    NonSpaceConcat(a, g);
    NonSpaceOfSpaces(g);
  }

  /** Leading whitespace does not show in the non-whitespace text. */
  lemma {:induction false} NonSpaceSkipsFront(s: string, k: nat)
    requires k <= |s| && forall j :: 0 <= j < k ==> IsSpace(s[j])
    ensures NonSpace(s) == NonSpace(s[k..])
    decreases k
  {
    if k > 0 {
      NonSpaceSkipsFront(s[1..], k - 1);
      assert s[1..][k - 1..] == s[k..];
    }
  }

  /** `Collapse` keeps every non-whitespace character, in order. */
  lemma {:induction false} CollapseKeepsText(s: string)
    ensures NonSpace(Collapse(s)) == NonSpace(s)
    decreases |s|
  {
    if s != [] {
      if IsSpace(s[0]) {
        var rest := s[LeadingSpaces(s)..];
        CollapseKeepsText(rest);
        DropHead(' ', Collapse(rest));
        NonSpaceSkipsFront(s, LeadingSpaces(s));
      } else {
        CollapseKeepsText(s[1..]);
        DropHead(s[0], Collapse(s[1..]));
      }
    }
  }

  /** A non-empty run of whitespace collapses to exactly one space. */
  lemma CollapseRun(g: string)
    requires g != [] && AllSpaces(g)
    ensures Collapse(g) == " "
  {
    LeadingSpacesExact(g, |g|);
    assert g[|g|..] == [];
  }

  /**
   * Collapsing works run by run: at a seam where whitespace does not meet
   * whitespace, the collapse of the whole is the collapses of the parts.
   */
  lemma {:induction false} CollapseConcat(a: string, b: string)
    requires a == [] || b == [] || !IsSpace(a[|a| - 1]) || !IsSpace(b[0])
    ensures Collapse(a + b) == Collapse(a) + Collapse(b)
    decreases |a|
  {
    if a == [] {
      assert a + b == b;
    } else if !IsSpace(a[0]) {
      assert a[1..] != [] ==> a[1..][|a[1..]| - 1] == a[|a| - 1];
      CollapseConcat(a[1..], b);
      CollapseConcatPlain(a, b);
    } else if LeadingSpaces(a) < |a| {
      var n := LeadingSpaces(a);
      assert a[n..][|a[n..]| - 1] == a[|a| - 1];
      CollapseConcat(a[n..], b);
      CollapseConcatRun(a, b);
    } else {
      CollapseConcatAllRun(a, b);
    }
  }

  /** `CollapseConcat` where `a` starts with a non-whitespace character. */
  lemma CollapseConcatPlain(a: string, b: string)
    requires a != [] && !IsSpace(a[0])
    requires Collapse(a[1..] + b) == Collapse(a[1..]) + Collapse(b)
    ensures Collapse(a + b) == Collapse(a) + Collapse(b)
  {
    var ab := a + b;
    TailOfConcat(a, b);
    CollapseAtPlain(ab);
    CollapseAtPlain(a);
    ConsAssoc(a[0], Collapse(a[1..]), Collapse(b));
  }

  /** `CollapseConcat` where `a` starts with a whitespace run that ends inside `a`. */
  lemma CollapseConcatRun(a: string, b: string)
    requires a != [] && IsSpace(a[0]) && LeadingSpaces(a) < |a|
    requires Collapse(a[LeadingSpaces(a)..] + b) == Collapse(a[LeadingSpaces(a)..]) + Collapse(b)
    ensures Collapse(a + b) == Collapse(a) + Collapse(b)
  {
    var n := LeadingSpaces(a);
    var ab := a + b;
    LeadingSpacesOfConcat(a, b);
    assert ab[0] == a[0];
    assert ab[n..] == a[n..] + b;
    CollapseAtSpace(ab);
    CollapseAtSpace(a);
    ConsAssoc(' ', Collapse(a[n..]), Collapse(b));
  }

  /** Putting a character in front of a concatenation. */
  lemma ConsAssoc(c: char, x: string, y: string)
    ensures [c] + (x + y) == ([c] + x) + y
  {
  }

  /** The head and the tail of a concatenation whose first part is not empty. */
  lemma TailOfConcat(a: string, b: string)
    requires a != []
    ensures (a + b)[0] == a[0] && (a + b)[1..] == a[1..] + b
  {
  }

  /** `Collapse` where `s` starts with a non-whitespace character: it is copied. */
  lemma CollapseAtPlain(s: string)
    requires s != [] && !IsSpace(s[0])
    ensures Collapse(s) == [s[0]] + Collapse(s[1..])
  {
  }

  /** `Collapse` where `s` starts with whitespace: the run becomes one space. */
  lemma CollapseAtSpace(s: string)
    requires s != [] && IsSpace(s[0])
    ensures Collapse(s) == " " + Collapse(s[LeadingSpaces(s)..])
  {
  }

  /** A whitespace run that ends inside `a` is the run of `a + b` too. */
  lemma LeadingSpacesOfConcat(a: string, b: string)
    requires LeadingSpaces(a) < |a|
    ensures LeadingSpaces(a + b) == LeadingSpaces(a)
  {
    var n := LeadingSpaces(a);
    forall j | 0 <= j < n ensures IsSpace((a + b)[j]) {
      assert (a + b)[j] == a[j];
    }
    assert (a + b)[n] == a[n];
    LeadingSpacesExact(a + b, n);
  }

  /** `CollapseConcat` where `a` is one whitespace run and `b` does not continue it. */
  lemma CollapseConcatAllRun(a: string, b: string)
    requires a != [] && AllSpaces(a)
    requires b == [] || !IsSpace(b[0])
    ensures Collapse(a + b) == Collapse(a) + Collapse(b)
  {
    CollapseRun(a);
    forall j | 0 <= j < |a| ensures IsSpace((a + b)[j]) {
      assert (a + b)[j] == a[j];
    }
    if b != [] {
      assert (a + b)[|a|] == b[0];
    }
    LeadingSpacesExact(a + b, |a|);
    assert (a + b)[|a|..] == b;
  }

  /** A match's whitespace before its colon does not show in the non-whitespace text. */
  lemma MatchKeepsText(s: string)
    requires s != [] && MatchEnd(s) > 0
    ensures NonSpace(s[..MatchEnd(s)]) == NonSpace(s[..LabelLength(s)]) + NonSpace(":")
  {
    var n := LabelLength(s);
    var k := LeadingSpaces(s[n..]);
    var g := s[n..n + k];
    forall j | 0 <= j < k ensures IsSpace(g[j]) {
      assert g[j] == s[n..][j];
    }
    assert s[n + k] == s[n..][k];
    assert s[..MatchEnd(s)] == s[..n] + g + ":";
    NonSpaceSkipsGap(s[..n], g, ":");
  }

  /** `Tighten` keeps every non-whitespace character, in order: it only deletes whitespace. */
  lemma {:induction false} TightenKeepsText(s: string)
    ensures NonSpace(Tighten(s)) == NonSpace(s)
    decreases |s|
  {
    if s != [] {
      if MatchEnd(s) > 0 {
        var n := LabelLength(s);
        var e := MatchEnd(s);
        TightenKeepsText(s[e..]);
        TightenAtMatch(s);
        NonSpaceConcat(s[..n] + ":", Tighten(s[e..]));
        NonSpaceConcat(s[..n], ":");
        assert s == s[..e] + s[e..];
        NonSpaceConcat(s[..e], s[e..]);
        MatchKeepsText(s);
      } else {
        TightenKeepsText(s[1..]);
        TightenAtPlain(s);
        DropHead(s[0], Tighten(s[1..]));
      }
    }
  }

  /** `Strip` keeps every non-whitespace character, in order. */
  lemma StripKeepsText(s: string)
    ensures NonSpace(Strip(s)) == NonSpace(s)
  {
    var n := LeadingSpaces(s);
    var r := Strip(s);
    forall j | 0 <= j < n ensures IsSpace(s[..n][j]) {
      assert s[..n][j] == s[j];
    }
    var back := s[n + |r|..];
    forall j | 0 <= j < |back| ensures IsSpace(back[j]) {
      assert back[j] == s[n + |r| + j];
    }
    NonSpaceOfInfix(s, n, n + |r|, r);
  }

  /** Between whitespace at both ends, a slice holds all the non-whitespace text. */
  lemma NonSpaceOfInfix(s: string, a: nat, b: nat, r: string)
    requires a <= b <= |s| && r == s[a..b]
    requires AllSpaces(s[..a]) && AllSpaces(s[b..])
    ensures NonSpace(s) == NonSpace(r)
  {
    assert s == s[..a] + r + s[b..];
    NonSpaceConcat(s[..a] + r, s[b..]);
    NonSpaceConcat(s[..a], r);
    NonSpaceOfSpaces(s[..a]);
    NonSpaceOfSpaces(s[b..]);
  }

  /**
   * Cleaning keeps the transcript's text: it changes only whitespace, so the
   * non-whitespace characters of the result are exactly those of the input.
   */
  lemma CleanKeepsText(transcript: string)
    ensures NonSpace(Clean(transcript)) == NonSpace(transcript)
  {
    if transcript != [] {
      var c := Collapse(transcript);
      CollapseKeepsText(transcript);
      TightenKeepsText(c);
      StripKeepsText(Tighten(c));
    }
  }

  // ---------------------------------------------------------------------
  // What the substitution does, piece by piece

  /** A label, then whitespace, then a colon becomes the label glued to the colon. */
  lemma TightenLabel(l: string, g: string)
    requires l == "Agent" || l == "Customer"
    requires AllSpaces(g)
    ensures Tighten(l + g + ":") == l + ":"
  {
    var s := l + g + ":";
    var n := |l|;
    assert s[..n] == l;
    assert LabelLength(s) == n;
    assert s[n..] == g + ":";
    LeadingSpacesExact(s[n..], |g|);
    assert MatchEnd(s) == |s|;
    TightenAtMatch(s);
    assert s[|s|..] == [];
  }

  /**
   * No match of the pattern can run from `a` into `b`: `a` ends with the colon
   * that closes any match inside it, or `b` starts with a character that can
   * continue neither a label, nor the whitespace after it, nor reach the colon.
   */
  predicate NoMatchAcross(a: string, b: string) {
    a == [] || b == [] || a[|a| - 1] == ':'
    || !(IsSpace(b[0]) || b[0] == ':' || 'a' <= b[0] <= 'z')
  }

  /** Every character of a label after its first is a lower-case letter. */
  lemma LabelLower(t: string, q: nat)
    requires 0 < q < LabelLength(t)
    ensures 'a' <= t[q] <= 'z'
  {
  }

  /** A match that ends inside `a` is unaffected by what follows `a`. */
  lemma MatchEndLabelInside(a: string, b: string)
    requires LabelLength(a) > 0
    requires LabelLength(a) + LeadingSpaces(a[LabelLength(a)..]) < |a|
    ensures LabelLength(a + b) == LabelLength(a) && MatchEnd(a + b) == MatchEnd(a)
  {
    var n := LabelLength(a);
    var s := a + b;
    assert s[..n] == a[..n];
    LabelLengthOfPrefix(a, s);
    assert s[n..] == a[n..] + b;
    LeadingSpacesOfConcat(a[n..], b);
    var k := LeadingSpaces(a[n..]);
    assert s[n + k] == a[n + k];
  }

  /** A label whose whitespace runs to the end of `a` still finds no colon after it. */
  lemma MatchEndRunsOut(a: string, b: string)
    requires LabelLength(a) > 0
    requires LabelLength(a) + LeadingSpaces(a[LabelLength(a)..]) == |a|
    requires b != [] && !IsSpace(b[0]) && b[0] != ':'
    ensures MatchEnd(a) == 0 && MatchEnd(a + b) == 0
  {
    var n := LabelLength(a);
    var s := a + b;
    assert s[..n] == a[..n];
    LabelLengthOfPrefix(a, s);
    var k := LeadingSpaces(a[n..]);
    var t := s[n..];
    forall j | 0 <= j < k ensures IsSpace(t[j]) {
      assert t[j] == a[n..][j];
    }
    assert t[k] == b[0];
    LeadingSpacesExact(t, k);
    assert s[n + k] == b[0];
  }

  /** Where `a` starts with no label, `a + b` starts with none either. */
  lemma MatchEndNoLabel(a: string, b: string)
    requires a != [] && LabelLength(a) == 0
    requires b == [] || a[|a| - 1] == ':' || !('a' <= b[0] <= 'z')
    ensures MatchEnd(a + b) == 0
  {
    var s := a + b;
    if LabelLength(s) > |a| {
      LabelTail(s, |a| - 1);
      LabelLower(s, |a|);
    }
  }

  /** Where no match runs across the seam, the match at the front of `a` is the one at the front of `a + b`. */
  lemma MatchEndOfConcat(a: string, b: string)
    requires a != [] && NoMatchAcross(a, b)
    ensures MatchEnd(a + b) == MatchEnd(a)
    ensures MatchEnd(a) > 0 ==> LabelLength(a + b) == LabelLength(a)
  {
    if b == [] {
      assert a + b == a;
    } else if LabelLength(a) == 0 {
      MatchEndNoLabel(a, b);
    } else {
      var n := LabelLength(a);
      var k := LeadingSpaces(a[n..]);
      if n + k < |a| {
        MatchEndLabelInside(a, b);
      } else {
        if k > 0 {
          assert a[|a| - 1] == a[n..][k - 1];
        } else {
          LabelTail(a, n - 1);
        }
        MatchEndRunsOut(a, b);
      }
    }
  }

  /** No match runs across the seam after a suffix of `a` either. */
  lemma NoMatchAcrossRest(a: string, b: string, e: nat)
    requires 0 < e <= |a| && NoMatchAcross(a, b)
    ensures NoMatchAcross(a[e..], b)
  {
    var rest := a[e..];
    assert rest == [] || rest[|rest| - 1] == a[|a| - 1];
  }

  /** The match step of `TightenConcat`, given the result for the rest of `a`. */
  lemma TightenConcatMatch(a: string, b: string)
    requires a != [] && MatchEnd(a) > 0
    requires MatchEnd(a + b) == MatchEnd(a) && LabelLength(a + b) == LabelLength(a)
    requires Tighten(a[MatchEnd(a)..] + b) == Tighten(a[MatchEnd(a)..]) + Tighten(b)
    ensures Tighten(a + b) == Tighten(a) + Tighten(b)
  {
    var s := a + b;
    var n := LabelLength(a);
    var e := MatchEnd(a);
    var p := a[..n] + ":";
    assert Tighten(s) == p + Tighten(a[e..] + b) by {
      TightenAtMatch(s);
      SlicesOfConcat(a, b, n);
      SlicesOfConcat(a, b, e);
    }
    assert Tighten(a) == p + Tighten(a[e..]) by {
      TightenAtMatch(a);
    }
    ConcatAssoc(p, Tighten(a[e..]), Tighten(b));
  }

  /** Slicing `a + b` at a position inside `a`. */
  lemma SlicesOfConcat(a: string, b: string, i: nat)
    requires i <= |a|
    ensures (a + b)[..i] == a[..i] && (a + b)[i..] == a[i..] + b
  {
  }

  /** Concatenation regroups. */
  lemma ConcatAssoc(x: string, y: string, z: string)
    ensures x + (y + z) == (x + y) + z
  {
  }

  /** The copying step of `TightenConcat`, given the result for the rest of `a`. */
  lemma TightenConcatPlain(a: string, b: string)
    requires a != [] && MatchEnd(a) == 0 && MatchEnd(a + b) == 0
    requires Tighten(a[1..] + b) == Tighten(a[1..]) + Tighten(b)
    ensures Tighten(a + b) == Tighten(a) + Tighten(b)
  {
    TailOfConcat(a, b);
    TightenAtPlain(a + b);
    TightenAtPlain(a);
    ConsAssoc(a[0], Tighten(a[1..]), Tighten(b));
  }

  /**
   * The substitution works piece by piece: text that no match runs across is
   * tightened by tightening each side.
   */
  lemma {:induction false} TightenConcat(a: string, b: string)
    requires NoMatchAcross(a, b)
    ensures Tighten(a + b) == Tighten(a) + Tighten(b)
    decreases |a|
  {
    if a == [] {
      assert a + b == b;
    } else {
      MatchEndOfConcat(a, b);
      var e := if MatchEnd(a) > 0 then MatchEnd(a) else 1;
      NoMatchAcrossRest(a, b, e);
      TightenConcat(a[e..], b);
      if MatchEnd(a) > 0 {
        TightenConcatMatch(a, b);
      } else {
        TightenConcatPlain(a, b);
      }
    }
  }
}
