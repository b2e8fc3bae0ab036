/**
 * The two leaf rules of the grammar: integer literals and identifiers.
 *
 *   Literal    -> 0 | NonZeroDigit Digit*
 *   Identifier -> Letter (Letter | Digit | _)*
 *
 * Each rule is given twice: as a function (what the rule returns, used by
 * the rest of the grammar) and as a method that scans the text with the
 * accumulator loop of the original, proved to return what the function does.
 */
module Scanners {
  import opened Text

  predicate AllDigits(d: string) {
    forall i :: 0 <= i < |d| ==> IsDigit(d[i])
  }

  function DigitValue(c: char): (v: nat)
    requires IsDigit(c)
    ensures v < 10
  {
    (c as int) - ('0' as int)
  }

  /** Python's `int(d)` on a string of decimal digits, read left to right.
      Digits that do not start with `0` have a positive value. */
  function DecimalValue(d: string): (v: nat)
    requires AllDigits(d)
    ensures |d| > 0 && IsNonZeroDigit(d[0]) ==> v > 0
  {
    if d == [] then 0 else 10 * DecimalValue(d[..|d| - 1]) + DigitValue(d[|d| - 1])
  }

  function Pow10(k: nat): nat {
    if k == 0 then 1 else 10 * Pow10(k - 1)
  }

  /** A number written with `n` digits is below `10^n`, and at least
      `10^(n-1)` when its first digit is not `0`. */
  lemma {:induction false} DecimalBounds(d: string)
    requires AllDigits(d)
    ensures DecimalValue(d) < Pow10(|d|)
    ensures |d| > 0 && IsNonZeroDigit(d[0]) ==> Pow10(|d| - 1) <= DecimalValue(d)
  {
    if d != [] {
      var p := d[..|d| - 1];
      assert AllDigits(p);
      DecimalBounds(p);
      if |d| > 1 {
        assert p[0] == d[0];
      }
    }
  }

  /** The shape of a literal token: `0` alone, or a non-zero digit followed by digits. */
  predicate IsLiteralToken(c: string) {
    c == "0" || (|c| > 0 && IsNonZeroDigit(c[0]) && AllDigits(c))
  }

  /** The shape of an identifier: an ASCII letter, then letters, digits and `_`. */
  predicate IsIdentifier(x: string) {
    |x| > 0 && IsLetter(x[0]) && forall i :: 0 <= i < |x| ==> IsIdentChar(x[i])
  }

  /** The text that a rule consumed from `t` when it left `rest`. */
  function Taken(t: string, rest: string): string
    requires |rest| <= |t|
  {
    t[..|t| - |rest|]
  }

  /** Length of the maximal run of digits at the start of `t`. */
  function DigitRun(t: string): (n: nat)
    ensures n <= |t| && AllDigits(t[..n])
    ensures n == |t| || !IsDigit(t[n])
  {
    if |t| > 0 && IsDigit(t[0]) then
      var n := 1 + DigitRun(t[1..]);
      assert t[..n] == [t[0]] + t[1..][..n - 1];
      n
    else
      0
  }

  /** Length of the maximal run of identifier characters at the start of `t`. */
  function IdentRun(t: string): (n: nat)
    ensures n <= |t| && forall i :: 0 <= i < n ==> IsIdentChar(t[i])
    ensures n == |t| || !IsIdentChar(t[n])
  {
    if |t| > 0 && IsIdentChar(t[0]) then 1 + IdentRun(t[1..]) else 0
  }

  /** `parse_literal`: skip whitespace, then read a literal token.  A leading
      `0` is a whole literal on its own, so `007` reads as 0 leaving `07`. */
  function Literal(s: string): (r: Parse<int>)
    ensures r.Ok? <==> Strip(s) != [] && IsDigit(Strip(s)[0])
    ensures r.Ok? ==> |r.rest| < |Strip(s)| && r.value >= 0
  {
    var t := Strip(s);
    if StartsWith(t, '0') then
      Ok(t[1..], 0)
    else if |t| == 0 || !IsNonZeroDigit(t[0]) then
      Fail
    else
      var n := DigitRun(t);
      Ok(t[n..], DecimalValue(t[..n]))
  }

  /** What `Literal` consumes is one literal token, the longest one at the
      start of the stripped text, and its value is the token's decimal value. */
  lemma LiteralShape(s: string)
    ensures var r := Literal(s); var t := Strip(s);
      r.Ok? ==>
        IsSuffix(r.rest, t) &&
        IsLiteralToken(Taken(t, r.rest)) &&
        r.value == DecimalValue(Taken(t, r.rest)) &&
        (Taken(t, r.rest) == "0" || r.rest == [] || !IsDigit(r.rest[0]))
  {
    var t := Strip(s);
    if StartsWith(t, '0') {
      assert Taken(t, t[1..]) == "0";
    } else if |t| > 0 && IsNonZeroDigit(t[0]) {
      var n := DigitRun(t);
      assert Taken(t, t[n..]) == t[..n];
    }
  }

  /** `parse_identifier`: skip whitespace, then read an identifier.  Empty
      remaining input fails (the original indexes past the end there). */
  function Identifier(s: string): (r: Parse<string>)
    ensures r.Ok? <==> Strip(s) != [] && IsLetter(Strip(s)[0])
    ensures r.Ok? ==> |r.rest| < |Strip(s)| && |r.value| == |Strip(s)| - |r.rest|
  {
    var t := Strip(s);
    if |t| == 0 || !IsLetter(t[0]) then
      Fail
    else
      var n := 1 + IdentRun(t[1..]);
      Ok(t[n..], t[..n])
  }

  /** What `Identifier` consumes is the longest identifier at the start of
      the stripped text, and that identifier is the value. */
  lemma IdentifierShape(s: string)
    ensures var r := Identifier(s);
      r.Ok? ==>
        IsIdentifier(r.value) &&
        r.value + r.rest == Strip(s) &&
        (r.rest == [] || !IsIdentChar(r.rest[0]))
  {
    var t := Strip(s);
    if |t| > 0 && IsLetter(t[0]) {
      var n := 1 + IdentRun(t[1..]);
      assert t[..n] + t[n..] == t;
    }
  }

  /** The scanning loop of `parse_literal`: grow `literal` one digit at a
      time while shrinking the remaining text, then convert. */
  method ParseLiteral(expr: string) returns (r: Parse<int>)
    ensures r == Literal(expr)
  {
    var t := Strip(expr);
    var e := t;
    if StartsWith(e, '0') {
      return Ok(e[1..], 0);
    }
    if |e| == 0 || !IsNonZeroDigit(e[0]) {
      return Fail;
    }
    var literal := [e[0]];
    e := e[1..];
    while |e| > 0 && IsDigit(e[0])
      invariant literal + e == t
      invariant |literal| + DigitRun(e) == DigitRun(t)
      decreases |e|
    {
      literal := literal + [e[0]];
      e := e[1..];
    }
    assert literal == t[..DigitRun(t)] && e == t[DigitRun(t)..];
    return Ok(e, DecimalValue(literal));
  }

  /** The scanning loop of `parse_identifier`: one letter, then every
      following letter, digit or underscore. */
  method ParseIdentifier(expr: string) returns (r: Parse<string>)
    ensures r == Identifier(expr)
  {
    var t := Strip(expr);
    var e := t;
    if |e| == 0 || !IsLetter(e[0]) {
      return Fail;
    }
    var identifier := [e[0]];
    e := e[1..];
    while |e| > 0
      invariant identifier + e == t
      invariant |identifier| + IdentRun(e) == 1 + IdentRun(t[1..])
      decreases |e|
    {
      if IsIdentChar(e[0]) {
        identifier := identifier + [e[0]];
        e := e[1..];
        continue;
      }
      break;
    }
    assert identifier == t[..1 + IdentRun(t[1..])];
    return Ok(e, identifier);
  }

  /** A digit string followed by a non-digit is read as one whole run. */
  lemma {:induction false} DigitRunOfDigits(d: string, rest: string)
    requires AllDigits(d) && (rest == [] || !IsDigit(rest[0]))
    ensures DigitRun(d + rest) == |d|
  {
    if d != [] {
      assert (d + rest)[1..] == d[1..] + rest;
      DigitRunOfDigits(d[1..], rest);
    } else {
      assert d + rest == rest;
    }
  }

  /** An identifier followed by a character that cannot continue it is read as one whole name. */
  lemma {:induction false} IdentRunOfName(y: string, rest: string)
    requires forall i :: 0 <= i < |y| ==> IsIdentChar(y[i])
    requires rest == [] || !IsIdentChar(rest[0])
    ensures IdentRun(y + rest) == |y|
  {
    if y != [] {
      assert (y + rest)[1..] == y[1..] + rest;
      IdentRunOfName(y[1..], rest);
    } else {
      assert y + rest == rest;
    }
  }

  /** `parse_identifier` reads back a well-formed name that is followed by a
      character that cannot continue it. */
  lemma IdentifierOfName(x: string, rest: string)
    requires IsIdentifier(x) && (rest == [] || !IsIdentChar(rest[0]))
    ensures Identifier(x + rest) == Ok(rest, x)
  {
    var s := x + rest;
    StripSolid(s);
    assert s[1..] == x[1..] + rest;
    IdentRunOfName(x[1..], rest);
    assert s[..|x|] == x && s[|x|..] == rest;
  }
}
