/**
 * The expression rules, rewritten from the left-recursive grammar so that
 * the continuation of an operator is a whole expression (or term):
 *
 *   Exp  -> Term + Exp | Term - Exp | Term
 *   Term -> Fact * Term | Fact
 *   Fact -> ( Exp ) | - Fact | + Fact | Literal | Identifier
 *
 * Parsing and evaluation happen in the same pass: each rule returns the
 * unconsumed text and the value of what it read.  The rules only read the
 * variable environment.  Every call either moves to a lower rule on a text
 * no longer than its own, or recurses on a strictly shorter text, which is
 * the termination measure `|s|, rank`.
 */
module Grammar {
  import opened Text
  import opened Scanners

  type Env = map<string, int>

  /** `parse_expression`: skip whitespace, then read an expression. */
  function Expression(s: string, env: Env): (r: Parse<int>)
    decreases |s|, 5
    ensures r.Ok? ==> |r.rest| < |Strip(s)| && (r.rest == [] || !IsSpace(r.rest[0]))
  {
    ExpressionAt(Strip(s), env)
  }

  /** The body of `parse_expression` on the stripped text.  A `+` or `-`
      whose right operand does not parse is left unconsumed, and the term
      alone is the result. */
  function ExpressionAt(t: string, env: Env): (r: Parse<int>)
    decreases |t|, 4
    ensures r.Ok? ==> |r.rest| < |Strip(t)| && (r.rest == [] || !IsSpace(r.rest[0]))
  {
    match Term(t, env)
    case Fail => Fail
    case Ok(rest, value) =>
      var u := Strip(rest);
      var plus := if StartsWith(u, '+') then Expression(u[1..], env) else Fail;
      if plus.Ok? then
        Ok(plus.rest, value + plus.value)
      else
        var minus := if StartsWith(u, '-') then Expression(u[1..], env) else Fail;
        if minus.Ok? then
          Ok(minus.rest, value - minus.value)
        else
          Ok(u, value)
  }

  /** `parse_term`: skip whitespace, then read a term. */
  function Term(s: string, env: Env): (r: Parse<int>)
    decreases |s|, 3
    ensures r.Ok? ==> |r.rest| < |Strip(s)| && (r.rest == [] || !IsSpace(r.rest[0]))
  {
    TermAt(Strip(s), env)
  }

  /** The body of `parse_term` on the stripped text.  A `*` whose right
      operand does not parse is left unconsumed, and the factor alone is the
      result. */
  function TermAt(t: string, env: Env): (r: Parse<int>)
    decreases |t|, 2
    ensures r.Ok? ==> |r.rest| < |Strip(t)| && (r.rest == [] || !IsSpace(r.rest[0]))
  {
    match Fact(t, env)
    case Fail => Fail
    case Ok(rest, value) =>
      var u := Strip(rest);
      var times := if StartsWith(u, '*') then Term(u[1..], env) else Fail;
      if times.Ok? then
        Ok(times.rest, value * times.value)
      else
        Ok(u, value)
  }

  /** `parse_fact`: skip whitespace, then read a factor. */
  function Fact(s: string, env: Env): (r: Parse<int>)
    decreases |s|, 1
    ensures r.Ok? ==> |r.rest| < |Strip(s)|
  {
    FactAt(Strip(s), env)
  }

  /** The body of `parse_fact` on the stripped text.  The alternatives are
      tried in order, each from the same position: a parenthesised
      expression whose remainder starts with `)`, a unary sign applied to a
      factor, a literal, a defined variable. */
  function FactAt(t: string, env: Env): (r: Parse<int>)
    decreases |t|, 0
    ensures r.Ok? ==> |r.rest| < |Strip(t)|
  {
    var paren := if StartsWith(t, '(') then Expression(t[1..], env) else Fail;
    if paren.Ok? && StartsWith(paren.rest, ')') then
      Ok(paren.rest[1..], paren.value)
    else
      var signed := if StartsWith(t, '-') || StartsWith(t, '+') then Fact(t[1..], env) else Fail;
      if signed.Ok? then
        Ok(signed.rest, if StartsWith(t, '-') then -signed.value else signed.value)
      else
        var literal := Literal(t);
        if literal.Ok? then
          literal
        else
          Variable(t, env)
  }

  /** The last alternative of `parse_fact`: an identifier that names a
      variable of the environment yields its value.  An identifier missing
      from the environment, and text that is not an identifier, both fail. */
  function Variable(s: string, env: Env): (r: Parse<int>)
    ensures r.Ok? <==> Identifier(s).Ok? && Identifier(s).value in env
    ensures r.Ok? ==> r.rest == Identifier(s).rest && r.value == env[Identifier(s).value]
  {
    match Identifier(s)
    case Fail => Fail
    case Ok(rest, name) => if name in env then Ok(rest, env[name]) else Fail
  }

  /** Every rule skips leading whitespace first, so whitespace in front of
      the text changes no rule's result. */
  lemma RulesSkipSpace(w: string, s: string, env: Env)
    requires AllSpace(w)
    ensures Expression(w + s, env) == Expression(s, env)
    ensures Term(w + s, env) == Term(s, env)
    ensures Fact(w + s, env) == Fact(s, env)
  {
    StripSkipsSpace(w, s);
  }

  /** The alternatives of `parse_fact`, one lemma each, in the order tried. */
  lemma FactParen(s: string, env: Env, x: string, a: int)
    requires StartsWith(Strip(s), '(') && Expression(Strip(s)[1..], env) == Ok(x, a)
    requires StartsWith(x, ')')
    ensures Fact(s, env) == Ok(x[1..], a)
  {
  }

  lemma FactSign(s: string, env: Env, x: string, a: int)
    requires StartsWith(Strip(s), '-') || StartsWith(Strip(s), '+')
    requires Fact(Strip(s)[1..], env) == Ok(x, a)
    ensures Fact(s, env) == Ok(x, if Strip(s)[0] == '-' then -a else a)
  {
  }

  lemma FactLiteral(s: string, env: Env)
    requires Strip(s) != [] && IsDigit(Strip(s)[0])
    ensures Fact(s, env) == Literal(Strip(s))
  {
  }

  lemma FactVariable(s: string, env: Env)
    requires Strip(s) != [] && IsLetter(Strip(s)[0])
    ensures Fact(s, env) == Variable(Strip(s), env)
  {
  }

  /** A `(` whose expression is not closed by `)` right at its remainder
      makes the factor fail: no other alternative starts with `(`. */
  lemma ParenUnclosedFails(s: string, env: Env)
    requires StartsWith(Strip(s), '(')
    requires var e := Expression(Strip(s)[1..], env); !(e.Ok? && StartsWith(e.rest, ')'))
    ensures Fact(s, env) == Fail
  {
  }

  /** A sign whose operand is not a factor makes the factor fail: no other
      alternative starts with a sign. */
  lemma SignFails(s: string, env: Env)
    requires StartsWith(Strip(s), '-') || StartsWith(Strip(s), '+')
    requires Fact(Strip(s)[1..], env).Fail?
    ensures Fact(s, env) == Fail
  {
  }

  /** `parse_term` multiplies its factor by the whole term after `*`. */
  lemma TermProduct(s: string, env: Env, x: string, a: int, y: string, b: int)
    requires Fact(Strip(s), env) == Ok(x, a)
    requires StartsWith(Strip(x), '*') && Term(Strip(x)[1..], env) == Ok(y, b)
    ensures Term(s, env) == Ok(y, a * b)
  {
  }

  /** Without a `*`, or when no term follows it, the factor alone is the
      term, and the `*` is left unconsumed. */
  lemma TermAlone(s: string, env: Env, x: string, a: int)
    requires Fact(Strip(s), env) == Ok(x, a)
    requires !StartsWith(Strip(x), '*') || Term(Strip(x)[1..], env).Fail?
    ensures Term(s, env) == Ok(Strip(x), a)
  {
  }

  /** `parse_expression` adds or subtracts the whole expression after the
      operator, which makes `+` and `-` associate to the right. */
  lemma ExpressionSum(s: string, env: Env, x: string, a: int, y: string, b: int)
    requires Term(Strip(s), env) == Ok(x, a)
    requires StartsWith(Strip(x), '+') && Expression(Strip(x)[1..], env) == Ok(y, b)
    ensures Expression(s, env) == Ok(y, a + b)
  {
    assert Expression(s, env) == ExpressionAt(Strip(s), env);
  }

  lemma ExpressionDifference(s: string, env: Env, x: string, a: int, y: string, b: int)
    requires Term(Strip(s), env) == Ok(x, a)
    requires StartsWith(Strip(x), '-') && Expression(Strip(x)[1..], env) == Ok(y, b)
    ensures Expression(s, env) == Ok(y, a - b)
  {
    assert Expression(s, env) == ExpressionAt(Strip(s), env);
  }

  /** Without `+` or `-`, or when no expression follows it, the term alone
      is the expression, and the operator is left unconsumed. */
  lemma ExpressionAlone(s: string, env: Env, x: string, a: int)
    requires Term(Strip(s), env) == Ok(x, a)
    requires !(StartsWith(Strip(x), '+') || StartsWith(Strip(x), '-')) || Expression(Strip(x)[1..], env).Fail?
    ensures Expression(s, env) == Ok(Strip(x), a)
  {
  }

  /** Every successful rule returns a suffix of its input: the rules only
      ever move forward through the text. */
  lemma {:induction false} ExpressionSuffix(s: string, env: Env)
    ensures var r := Expression(s, env); r.Ok? ==> IsSuffix(r.rest, s)
    decreases |s|, 6
  {
    StripSuffix(s);
    ExpressionAtSuffix(Strip(s), env);
    var r := Expression(s, env);
    if r.Ok? {
      SuffixTransitive(r.rest, Strip(s), s);
    }
  }

  lemma {:induction false} ExpressionAtSuffix(t: string, env: Env)
    ensures var r := ExpressionAt(t, env); r.Ok? ==> IsSuffix(r.rest, t)
    decreases |t|, 5
  {
    var m := Term(t, env);
    TermSuffix(t, env);
    if m.Ok? {
      var u := Strip(m.rest);
      StripSuffix(m.rest);
      SuffixTransitive(u, m.rest, t);
      if StartsWith(u, '+') || StartsWith(u, '-') {
        SuffixTail(u);
        SuffixTransitive(u[1..], u, t);
        ExpressionSuffix(u[1..], env);
        var e := Expression(u[1..], env);
        if e.Ok? {
          SuffixTransitive(e.rest, u[1..], t);
        }
      }
    }
  }

  lemma {:induction false} TermSuffix(s: string, env: Env)
    ensures var r := Term(s, env); r.Ok? ==> IsSuffix(r.rest, s)
    decreases |s|, 4
  {
    StripSuffix(s);
    TermAtSuffix(Strip(s), env);
    var r := Term(s, env);
    if r.Ok? {
      SuffixTransitive(r.rest, Strip(s), s);
    }
  }

  lemma {:induction false} TermAtSuffix(t: string, env: Env)
    ensures var r := TermAt(t, env); r.Ok? ==> IsSuffix(r.rest, t)
    decreases |t|, 3
  {
    var m := Fact(t, env);
    FactSuffix(t, env);
    if m.Ok? {
      var u := Strip(m.rest);
      StripSuffix(m.rest);
      SuffixTransitive(u, m.rest, t);
      if StartsWith(u, '*') {
        SuffixTail(u);
        SuffixTransitive(u[1..], u, t);
        TermSuffix(u[1..], env);
        var e := Term(u[1..], env);
        if e.Ok? {
          SuffixTransitive(e.rest, u[1..], t);
        }
      }
    }
  }

  lemma {:induction false} FactSuffix(s: string, env: Env)
    ensures var r := Fact(s, env); r.Ok? ==> IsSuffix(r.rest, s)
    decreases |s|, 2
  {
    StripSuffix(s);
    FactAtSuffix(Strip(s), env);
    var r := Fact(s, env);
    if r.Ok? {
      SuffixTransitive(r.rest, Strip(s), s);
    }
  }

  lemma {:induction false} FactAtSuffix(t: string, env: Env)
    ensures var r := FactAt(t, env); r.Ok? ==> IsSuffix(r.rest, t)
    decreases |t|, 1
  {
    if StartsWith(t, '(') {
      ParenSuffix(t, env);
    }
    if StartsWith(t, '-') || StartsWith(t, '+') {
      SignSuffix(t, env);
    }
    LeafSuffix(t, env);
  }

  lemma {:induction false} ParenSuffix(t: string, env: Env)
    requires StartsWith(t, '(')
    ensures var e := Expression(t[1..], env);
      e.Ok? && StartsWith(e.rest, ')') ==> IsSuffix(e.rest[1..], t)
    decreases |t|, 0
  {
    SuffixTail(t);
    ExpressionSuffix(t[1..], env);
    var e := Expression(t[1..], env);
    if e.Ok? && StartsWith(e.rest, ')') {
      SuffixTail(e.rest);
      SuffixTransitive(e.rest[1..], e.rest, t[1..]);
      SuffixTransitive(e.rest[1..], t[1..], t);
    }
  }

  lemma {:induction false} SignSuffix(t: string, env: Env)
    requires |t| > 0
    ensures var f := Fact(t[1..], env); f.Ok? ==> IsSuffix(f.rest, t)
    decreases |t|, 0
  {
    SuffixTail(t);
    FactSuffix(t[1..], env);
    var f := Fact(t[1..], env);
    if f.Ok? {
      SuffixTransitive(f.rest, t[1..], t);
    }
  }

  /** The literal and variable alternatives return suffixes too. */
  lemma LeafSuffix(t: string, env: Env)
    ensures var l := Literal(t); l.Ok? ==> IsSuffix(l.rest, t)
    ensures var v := Variable(t, env); v.Ok? ==> IsSuffix(v.rest, t)
  {
    StripSuffix(t);
    LiteralShape(t);
    var l := Literal(t);
    if l.Ok? {
      SuffixTransitive(l.rest, Strip(t), t);
    }
    IdentifierShape(t);
    var x := Identifier(t);
    if x.Ok? {
      SuffixOfConcat(x.value, x.rest);
      SuffixTransitive(x.rest, Strip(t), t);
    }
  }
}
