/**
 * Characters, whitespace skipping and the "remaining input" views that every
 * rule of the parser works on.  Strings are sequences of characters; the
 * remaining input of a rule is always a suffix of the text it was given.
 */
module Text {

  /** Result of one grammar rule: failure, or the unconsumed suffix and a value. */
  datatype Parse<+T> = Fail | Ok(rest: string, value: T)

  datatype Option<+T> = None | Some(value: T)

  /** Part of the whitespace that `str.lstrip()` removes: space, tab, line
      feed, vertical tab, form feed, carriage return.  The ASCII separators
      U+001C to U+001F and the non-ASCII whitespace are not included. */
  predicate IsSpace(c: char) {
    c == ' ' || '\t' <= c <= '\r'
  }

  predicate IsDigit(c: char) {
    '0' <= c <= '9'
  }

  predicate IsNonZeroDigit(c: char) {
    '1' <= c <= '9'
  }

  /** ASCII letters only: an underscore may not start an identifier. */
  predicate IsLetter(c: char) {
    'a' <= c <= 'z' || 'A' <= c <= 'Z'
  }

  /** Characters that may continue an identifier. */
  predicate IsIdentChar(c: char) {
    IsLetter(c) || IsDigit(c) || c == '_'
  }

  predicate StartsWith(s: string, c: char) {
    |s| > 0 && s[0] == c
  }

  predicate AllSpace(w: string) {
    forall i :: 0 <= i < |w| ==> IsSpace(w[i])
  }

  /** `r` is a suffix of `s`. */
  predicate IsSuffix(r: string, s: string) {
    |r| <= |s| && s[|s| - |r|..] == r
  }

  /** Python's `s.lstrip()`: drop the maximal whitespace prefix. */
  function Strip(s: string): (r: string)
    ensures |r| <= |s|
    ensures r == [] || !IsSpace(r[0])
  {
    if |s| > 0 && IsSpace(s[0]) then Strip(s[1..]) else s
  }

  /** `Strip` removes a prefix, and that prefix is whitespace. */
  lemma {:induction false} StripSuffix(s: string)
    ensures IsSuffix(Strip(s), s)
    ensures AllSpace(s[..|s| - |Strip(s)|])
  {
    if |s| > 0 && IsSpace(s[0]) {
      StripSuffix(s[1..]);
      SuffixTransitive(Strip(s), s[1..], s);
      assert s[..|s| - |Strip(s)|] == [s[0]] + s[1..][..|s[1..]| - |Strip(s[1..])|];
    }
  }

  lemma SuffixTail(t: string)
    requires |t| > 0
    ensures IsSuffix(t[1..], t)
  {
  }

  lemma SplitHead(w: string, c: char)
    requires StartsWith(w, c)
    ensures w == [c] + w[1..]
  {
  }

  lemma SuffixOfConcat(x: string, r: string)
    ensures IsSuffix(r, x + r)
  {
    assert (x + r)[|x|..] == r;
  }

  lemma SuffixTransitive(a: string, b: string, c: string)
    requires IsSuffix(a, b) && IsSuffix(b, c)
    ensures IsSuffix(a, c)
  {
    assert c[|c| - |a|..] == c[|c| - |b|..][|b| - |a|..];
  }

  /** Whitespace in front of a text is invisible to `Strip`. */
  lemma {:induction false} StripSkipsSpace(w: string, s: string)
    requires AllSpace(w)
    ensures Strip(w + s) == Strip(s)
  {
    if w != [] {
      var ws := w + s;
      assert ws[0] == w[0] && IsSpace(ws[0]);
      assert ws[1..] == w[1..] + s;
      calc {
        Strip(ws);
        Strip(ws[1..]);
        { StripSkipsSpace(w[1..], s); }
        Strip(s);
      }
    } else {
      assert w + s == s;
    }
  }

  /** A text that does not start with whitespace is left unchanged. */
  lemma StripSolid(s: string)
    requires s == [] || !IsSpace(s[0])
    ensures Strip(s) == s
  {
  }

  lemma StripIdempotent(s: string)
    ensures Strip(Strip(s)) == Strip(s)
  {
    StripSolid(Strip(s));
  }
}
