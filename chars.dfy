/**
 * Character classes used by the regular expressions of the extraction
 * pipeline.
 *
 * `IsSpace` is the whitespace set of Python's `str.isspace`, which is also
 * what `\s` matches in a `str` pattern and what `str.strip()` removes.
 * `\d`, `\w` and case-insensitive matching are modelled on ASCII only
 * (Python's versions also accept non-ASCII digits, letters and case pairs).
 */
module Chars {

  /** Python's `str.isspace` / regex `\s` on `str`. */
  predicate IsSpace(c: char) {
    || c == ' ' || c == '\t' || c == '\n' || c == '\r'
    || c == '\U{000B}' || c == '\U{000C}'
    || ('\U{001C}' <= c <= '\U{001F}')
    || c == '\U{0085}' || c == '\U{00A0}' || c == '\U{1680}'
    || ('\U{2000}' <= c <= '\U{200A}')
    || c == '\U{2028}' || c == '\U{2029}' || c == '\U{202F}'
    || c == '\U{205F}' || c == '\U{3000}'
  }

  /** Regex `\d`, ASCII digits only. */
  predicate IsDigit(c: char) {
    '0' <= c <= '9'
  }

  predicate IsAsciiLetter(c: char) {
    ('a' <= c <= 'z') || ('A' <= c <= 'Z')
  }

  /** Regex `\w`, ASCII only. */
  predicate IsWordChar(c: char) {
    IsAsciiLetter(c) || IsDigit(c) || c == '_'
  }

  /** Regex `\b` at position `i` of `s` (a gap between two characters). */
  predicate Boundary(s: string, i: nat)
    requires i <= |s|
  {
    (i > 0 && IsWordChar(s[i - 1])) != (i < |s| && IsWordChar(s[i]))
  }

  /** ASCII lower-casing, the folding used for case-insensitive matches. */
  function Lower(c: char): (r: char)
    ensures IsWordChar(r) <==> IsWordChar(c)
    ensures IsDigit(c) ==> r == c
  {
    if 'A' <= c <= 'Z' then (c as int + 32) as char else c
  }

  /** `a` and `b` are equal ignoring ASCII case. */
  predicate FoldEq(a: string, b: string) {
    |a| == |b| && forall i :: 0 <= i < |a| ==> Lower(a[i]) == Lower(b[i])
  }

  /** `s` starts with `p`, compared case-sensitively. */
  predicate StartsWith(s: string, p: string) {
    |p| <= |s| && s[..|p|] == p
  }

  /** `s` holds `w` at position `i`, ignoring ASCII case. */
  predicate FoldAt(s: string, i: nat, w: string) {
    i + |w| <= |s| && FoldEq(s[i..i + |w|], w)
  }

  /** Exactly `n` digits start at position `i` (a regex `\d{n}`). */
  predicate DigitsAt(s: string, i: nat, n: nat) {
    i + n <= |s| && forall j :: i <= j < i + n ==> IsDigit(s[j])
  }

  /** One whitespace character at position `i`. */
  predicate SpaceAt(s: string, i: nat) {
    i < |s| && IsSpace(s[i])
  }

  /** Length of the run of whitespace that `s` starts with. */
  function LeadingSpaces(s: string): (n: nat)
    ensures n <= |s|
    ensures forall j :: 0 <= j < n ==> IsSpace(s[j])
    ensures n < |s| ==> !IsSpace(s[n])
  {
    if s != [] && IsSpace(s[0]) then 1 + LeadingSpaces(s[1..]) else 0
  }
}
