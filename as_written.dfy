/**
 * The parser as written, where it raises exceptions instead of failing:
 * an IndexError when `parse_identifier` or the `=` test reads past the end
 * of the text, and a TypeError when `parse_fact` builds its message from a
 * missing name.  A `Run` is either a returned value or a raised exception.
 * Every rule here returns exactly what the model's rule returns whenever it
 * returns, and whenever it raises, the model's rule fails or stops before
 * an operator, so the statement around it is rejected.  The lemmas at the
 * end give inputs that reach each exception.  The RecursionError of deep
 * nesting and the ValueError of `int` on literals longer than 4300 digits
 * are not modelled here.
 */
module AsWritten {
  import opened Text
  import opened Scanners
  import opened Grammar
  import opened Statements
  import opened Reference
  import opened Examples

  datatype Exception = IndexError | TypeError

  datatype Run<T> = Returned(value: T) | Raised(error: Exception)

  /** `parse_identifier` as written: the first character of the stripped
      text is read before anything checks that there is one. */
  function IdentifierAsWritten(s: string): (r: Run<Parse<string>>)
    ensures r.Raised? <==> Strip(s) == []
    ensures r.Raised? ==> r.error == IndexError
    ensures r.Returned? ==> r.value == Identifier(s)
  {
    var t := Strip(s);
    if |t| == 0 then
      Raised(IndexError)
    else if !IsLetter(t[0]) then
      Returned(Fail)
    else
      var n := 1 + IdentRun(t[1..]);
      Returned(Ok(t[n..], t[..n]))
  }

  /** The identifier alternative of `parse_fact` as written: when no
      identifier is found the name is `None`, which is never a key of the
      environment, and building the message `None + " is not initialized"`
      raises a TypeError. */
  function VariableAsWritten(t: string, env: Env): (r: Run<Parse<int>>)
    ensures r.Raised? <==> Identifier(t).Fail?
    ensures r.Raised? ==> r.error == (if Strip(t) == [] then IndexError else TypeError)
    ensures r.Returned? ==> r.value == Variable(t, env)
  {
    match IdentifierAsWritten(t)
    case Raised(e) => Raised(e)
    case Returned(Fail) => Raised(TypeError)
    case Returned(Ok(rest, name)) => if name in env then Returned(Ok(rest, env[name])) else Returned(Fail)
  }

  /** What the model's rule has done when the rule as written raises: it
      failed, or it stopped right before a `*` it could not continue. */
  predicate StopsAtProduct(p: Parse<int>) {
    p.Fail? || StartsWith(p.rest, '*')
  }

  /** The same, where the operator can also be `+` or `-`. */
  predicate StopsAtOperator(p: Parse<int>) {
    StopsAtProduct(p) || StartsWith(p.rest, '+') || StartsWith(p.rest, '-')
  }

  /** `parse_expression` as written.  An exception raised by a rule it calls
      ends it at once. */
  function ExpressionAsWritten(s: string, env: Env): (r: Run<Parse<int>>)
    decreases |s|, 5
    ensures r.Returned? ==> r.value == Expression(s, env)
    ensures r.Raised? ==> StopsAtOperator(Expression(s, env))
  {
    ExpressionAtAsWritten(Strip(s), env)
  }

  function ExpressionAtAsWritten(t: string, env: Env): (r: Run<Parse<int>>)
    decreases |t|, 4
    ensures r.Returned? ==> r.value == ExpressionAt(t, env)
    ensures r.Raised? ==> StopsAtOperator(ExpressionAt(t, env))
  {
    match TermAsWritten(t, env)
    case Raised(e) => Raised(e)
    case Returned(Fail) => Returned(Fail)
    case Returned(Ok(rest, value)) =>
      var u := Strip(rest);
      var plus := if StartsWith(u, '+') then ExpressionAsWritten(u[1..], env) else Returned(Fail);
      if plus.Raised? then
        Raised(plus.error)
      else if plus.value.Ok? then
        Returned(Ok(plus.value.rest, value + plus.value.value))
      else
        var minus := if StartsWith(u, '-') then ExpressionAsWritten(u[1..], env) else Returned(Fail);
        if minus.Raised? then
          Raised(minus.error)
        else if minus.value.Ok? then
          Returned(Ok(minus.value.rest, value - minus.value.value))
        else
          Returned(Ok(u, value))
  }

  /** `parse_term` as written. */
  function TermAsWritten(s: string, env: Env): (r: Run<Parse<int>>)
    decreases |s|, 3
    ensures r.Returned? ==> r.value == Term(s, env)
    ensures r.Raised? ==> StopsAtProduct(Term(s, env))
  {
    TermAtAsWritten(Strip(s), env)
  }

  function TermAtAsWritten(t: string, env: Env): (r: Run<Parse<int>>)
    decreases |t|, 2
    ensures r.Returned? ==> r.value == TermAt(t, env)
    ensures r.Raised? ==> StopsAtProduct(TermAt(t, env))
  {
    match FactAsWritten(t, env)
    case Raised(e) => Raised(e)
    case Returned(Fail) => Returned(Fail)
    case Returned(Ok(rest, value)) =>
      var u := Strip(rest);
      var times := if StartsWith(u, '*') then TermAsWritten(u[1..], env) else Returned(Fail);
      if times.Raised? then
        Raised(times.error)
      else if times.value.Ok? then
        Returned(Ok(times.value.rest, value * times.value.value))
      else
        Returned(Ok(u, value))
  }

  /** `parse_fact` as written.  Every alternative that fails falls through
      to the identifier alternative, so the rule returns a failure only for
      an identifier missing from the environment, and raises otherwise. */
  function FactAsWritten(s: string, env: Env): (r: Run<Parse<int>>)
    decreases |s|, 1
    ensures r.Returned? ==> r.value == Fact(s, env)
    ensures r.Raised? ==> Fact(s, env).Fail?
  {
    FactAtAsWritten(Strip(s), env)
  }

  function FactAtAsWritten(t: string, env: Env): (r: Run<Parse<int>>)
    decreases |t|, 0
    ensures r.Returned? ==> r.value == FactAt(t, env)
    ensures r.Raised? ==> FactAt(t, env).Fail?
  {
    var paren := if StartsWith(t, '(') then ExpressionAsWritten(t[1..], env) else Returned(Fail);
    if paren.Raised? then
      Raised(paren.error)
    else if paren.value.Ok? && StartsWith(paren.value.rest, ')') then
      Returned(Ok(paren.value.rest[1..], paren.value.value))
    else
      var signed := if StartsWith(t, '-') || StartsWith(t, '+') then FactAsWritten(t[1..], env) else Returned(Fail);
      if signed.Raised? then
        Raised(signed.error)
      else if signed.value.Ok? then
        Returned(Ok(signed.value.rest, if StartsWith(t, '-') then -signed.value.value else signed.value.value))
      else
        var literal := Literal(t);
        if literal.Ok? then
          Returned(literal)
        else
          VariableAsWritten(t, env)
  }

  /** `parse_assignment` as written: besides the exceptions of the rules it
      calls, the test for `=` reads the first character after the name
      without checking that there is one. */
  function AssignmentAsWritten(s: string, env: Env): (r: Run<Parse<Binding>>)
    ensures r.Returned? ==> r.value == Assignment(s, env)
    ensures r.Raised? ==> Assignment(s, env).Fail?
    ensures r.Raised? <==>
      Strip(s) == [] ||
      (Identifier(s).Ok? &&
       var u := Strip(Identifier(s).rest);
       u == [] || (u[0] == '=' && ExpressionAsWritten(u[1..], env).Raised?))
    ensures Strip(s) == [] || (Identifier(s).Ok? && Strip(Identifier(s).rest) == []) ==>
      r == Raised(IndexError)
  {
    var t := Strip(s);
    StripIdempotent(s);
    match IdentifierAsWritten(t)
    case Raised(e) => Raised(e)
    case Returned(Fail) => Returned(Fail)
    case Returned(Ok(rest, name)) =>
      var u := Strip(rest);
      if |u| == 0 then
        Raised(IndexError)
      else if u[0] != '=' then
        Returned(Fail)
      else
        match ExpressionAsWritten(u[1..], env)
        case Raised(e) => Raised(e)
        case Returned(Fail) => Returned(Fail)
        case Returned(Ok(rest', value)) =>
          var w := Strip(rest');
          if StartsWith(w, ';') then Returned(Ok(w[1..], Binding(name, value))) else Returned(Fail)
  }

  /** `parse_program` as written: an exception ends the whole run. */
  function ProgramAsWritten(s: string, env: Env): (r: Run<Outcome>)
    decreases |s|
    ensures r.Returned? ==> env.Keys <= r.value.env.Keys
  {
    if |s| == 0 then
      Returned(Outcome(true, env))
    else
      match AssignmentAsWritten(s, env)
      case Raised(e) => Raised(e)
      case Returned(Fail) => Returned(Outcome(false, env))
      case Returned(Ok(rest, b)) => ProgramAsWritten(rest, env[b.name := b.value])
  }

  /** Modelling the exceptions as failures changes no returned outcome: a
      run of the original that returns, returns what the model computes. */
  lemma {:induction false} ProgramAgrees(s: string, env: Env)
    ensures var r := ProgramAsWritten(s, env); r.Returned? ==> r.value == Program(s, env)
    decreases |s|
  {
    if |s| > 0 {
      var a := AssignmentAsWritten(s, env);
      if a.Returned? && a.value.Ok? {
        ProgramAgrees(a.value.rest, env[a.value.value.name := a.value.value.value]);
      }
    }
  }

  /** And the model rejects every program whose run raises one of these
      exceptions. */
  lemma {:induction false} RaisedIsRejected(s: string, env: Env)
    ensures ProgramAsWritten(s, env).Raised? ==> !Program(s, env).accepted
    decreases |s|
  {
    if |s| > 0 {
      var a := AssignmentAsWritten(s, env);
      if a.Returned? && a.value.Ok? {
        RaisedIsRejected(a.value.rest, env[a.value.value.name := a.value.value.value]);
      }
    }
  }

  /** Whitespace after the last `;` reaches `parse_identifier` with nothing
      left to read: the original raises an IndexError, where the model
      rejects the program and keeps `x`. */
  lemma TrailingSpaceRaises()
    ensures ProgramAsWritten("x = 1; ", map[]) == Raised(IndexError)
    ensures Program("x = 1; ", map[]) == Outcome(false, map["x" := 1])
  {
    var st := Assign("x", Num(1));
    assert IsIdentifier("x");
    assert PrintStmt(st) + " " == "x = 1; ";
    AssignmentRoundTrip(st, " ", map[]);
    AssignedThenGoesOn("x = 1; ", map[]);
    assert ProgramAsWritten(" ", map["x" := 1]) == Raised(IndexError) by {
      StripSkipsSpace(" ", []);
      assert " " + [] == " ";
    }
    TrailingSpace();
  }

  /** An assignment the model reads is one the parser as written reads too:
      the run goes on with the rest of the text. */
  lemma AssignedThenGoesOn(s: string, env: Env)
    requires Assignment(s, env).Ok?
    ensures var a := Assignment(s, env);
      ProgramAsWritten(s, env) == ProgramAsWritten(a.rest, env[a.value.name := a.value.value])
  {
    assert s != [];
  }

  /** A name with nothing after it reaches the `=` test with nothing left to
      read: the original raises an IndexError, where the model rejects the
      program. */
  lemma NameAloneRaises()
    ensures ProgramAsWritten("x", map[]) == Raised(IndexError)
    ensures Program("x", map[]) == Outcome(false, map[])
  {
    StripSolid("x");
    IdentifierOfName("x", "");
    assert "x" + "" == "x";
  }

  /** In `x = ;` the factor rule reaches its identifier alternative on `;`:
      the original raises a TypeError, where the model rejects the
      program. */
  lemma MissingOperandRaises()
    ensures FactAt(";", map[]) == Variable(";", map[]) == Fail
    ensures ProgramAsWritten("x = ;", map[]) == Raised(TypeError)
    ensures Program("x = ;", map[]) == Outcome(false, map[])
  {
    StripSolid(";");
    assert FactAtAsWritten(";", map[]) == Raised(TypeError);
    assert ExpressionAsWritten(";", map[]) == Raised(TypeError) by {
      assert TermAsWritten(";", map[]) == Raised(TypeError);
    }
    RaisedAfterName(";");
    assert "x = " + ";" == "x = ;";
    assert AssignmentAsWritten("x = ;", map[]) == Raised(TypeError);
  }

  /** In `x = ` the factor rule reaches `parse_identifier` with nothing left
      to read: the original raises an IndexError, where the model rejects
      the program. */
  lemma MissingOperandAtEndRaises()
    ensures ProgramAsWritten("x = ", map[]) == Raised(IndexError)
    ensures Program("x = ", map[]) == Outcome(false, map[])
  {
    assert FactAtAsWritten("", map[]) == Raised(IndexError);
    assert ExpressionAsWritten("", map[]) == Raised(IndexError) by {
      assert TermAsWritten("", map[]) == Raised(IndexError);
    }
    RaisedAfterName("");
    assert "x = " + "" == "x = ";
    assert AssignmentAsWritten("x = ", map[]) == Raised(IndexError);
  }

  /** `x = ` followed by `tail`: the name and `=` are read, and an
      exception raised by the expression after them ends the statement. */
  lemma RaisedAfterName(tail: string)
    requires ExpressionAsWritten(tail, map[]).Raised?
    ensures AssignmentAsWritten("x = " + tail, map[]) == Raised(ExpressionAsWritten(tail, map[]).error)
  {
    assert IsIdentifier("x");
    NameThenEquals("x", tail);
    assert "x" + (" = " + tail) == "x = " + tail;
    StripSolid("x = " + tail);
  }
}
