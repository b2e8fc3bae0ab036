/**
 * Statements and programs:
 *
 *   Program    -> Assignment*
 *   Assignment -> Identifier = Exp ;
 *
 * The variable environment is a dictionary shared by reference with the
 * caller and written in place by each successful assignment; it is the
 * `bindings` field of a `Variables` object here.  `Assignment` and
 * `Program` say what the parse returns and what the environment becomes;
 * `ParseAssignment` and `ParseProgram` do it in place, with the loop of the
 * original.
 */
module Statements {
  import opened Text
  import opened Scanners
  import opened Grammar

  /** What a successful assignment writes: one name and its value. */
  datatype Binding = Binding(name: string, value: int)

  /** Outcome of a whole program: whether all of the text was consumed, and
      the environment as it stands when the loop stops.  Bindings made before
      a failing statement stay in place. */
  datatype Outcome = Outcome(accepted: bool, env: Env)

  /** `parse_assignment` without its write: skip whitespace, then read one
      assignment, giving the remaining text after the `;` and the binding to
      make. */
  function Assignment(s: string, env: Env): (r: Parse<Binding>)
    ensures r.Ok? ==> |r.rest| < |Strip(s)|
  {
    AssignmentAt(Strip(s), env)
  }

  /** The body of `parse_assignment` on the stripped text: an identifier,
      `=`, an expression and `;`, with whitespace allowed before each.  Text that
      ends right after the name fails. */
  function AssignmentAt(t: string, env: Env): (r: Parse<Binding>)
    ensures r.Ok? ==> |r.rest| < |Strip(t)|
  {
    match Identifier(t)
    case Fail => Fail
    case Ok(rest, name) =>
      var u := Strip(rest);
      if |u| == 0 || u[0] != '=' then
        Fail
      else
        match Expression(u[1..], env)
        case Fail => Fail
        case Ok(rest', value) =>
          var w := Strip(rest');
          if StartsWith(w, ';') then Ok(w[1..], Binding(name, value)) else Fail
  }

  /** `parse_program`: assignments one after another until no text is left.
      The first assignment that fails stops the loop with a rejection. */
  function Program(s: string, env: Env): (o: Outcome)
    decreases |s|
    ensures env.Keys <= o.env.Keys
  {
    if |s| == 0 then
      Outcome(true, env)
    else
      match Assignment(s, env)
      case Fail => Outcome(false, env)
      case Ok(rest, b) => Program(rest, env[b.name := b.value])
  }

  /** The successful path of `parse_assignment`: the identifier, then `=`
      after any whitespace, then an expression, then `;` after any
      whitespace. */
  lemma AssignmentSteps(s: string, env: Env, x: string, name: string, y: string, v: int)
    requires Identifier(Strip(s)) == Ok(x, name) && StartsWith(Strip(x), '=')
    requires Expression(Strip(x)[1..], env) == Ok(y, v) && StartsWith(Strip(y), ';')
    ensures Assignment(s, env) == Ok(Strip(y)[1..], Binding(name, v))
  {
  }

  /** A program made only of whitespace, such as what is left after the last
      `;` when the text ends in a space or a newline, is rejected: the loop
      only stops on empty text, and no assignment can be read. */
  lemma TrailingSpaceRejected(s: string, env: Env)
    requires s != [] && AllSpace(s)
    ensures Program(s, env) == Outcome(false, env)
  {
    StripSkipsSpace(s, []);
    assert s + [] == s;
  }

  /** Whitespace in front of a program changes nothing once some text
      follows it: the first assignment skips it. */
  lemma ProgramSkipsSpace(w: string, s: string, env: Env)
    requires AllSpace(w) && s != []
    ensures Program(w + s, env) == Program(s, env)
  {
    StripSkipsSpace(w, s);
    assert Assignment(w + s, env) == Assignment(s, env);
  }

  /** `s` is read by successive assignments that produce `bs`, in order,
      each one evaluated in the environment the earlier ones left, and
      `rest` is the text after the last of them. */
  predicate Reads(s: string, env: Env, bs: seq<Binding>, rest: string)
    decreases |bs|
  {
    if |bs| == 0 then
      s == rest
    else
      var a := Assignment(s, env);
      a.Ok? && a.value == bs[0] && Reads(a.rest, env[bs[0].name := bs[0].value], bs[1..], rest)
  }

  /** The environment after the bindings `bs`, in order. */
  function Apply(env: Env, bs: seq<Binding>): Env
    decreases |bs|
  {
    if |bs| == 0 then env else Apply(env[bs[0].name := bs[0].value], bs[1..])
  }

  /** No assignment can be read from `rest`: the text has run out, or the
      next assignment fails. */
  predicate Stops(rest: string, env: Env) {
    rest == [] || Assignment(rest, env).Fail?
  }

  /** The outcome of a program is its longest run of assignments: accepted
      when that run leaves no text, rejected when the next assignment fails,
      and in both cases with every binding of the run kept. */
  lemma {:induction false} ProgramRun(s: string, env: Env)
    ensures exists bs, rest ::
      Reads(s, env, bs, rest) && Stops(rest, Apply(env, bs)) &&
      Program(s, env) == Outcome(rest == [], Apply(env, bs))
    decreases |s|
  {
    var a := Assignment(s, env);
    if |s| == 0 || a.Fail? {
      assert Reads(s, env, [], s);
    } else {
      var env' := env[a.value.name := a.value.value];
      ProgramRun(a.rest, env');
      var bs, rest :|
        Reads(a.rest, env', bs, rest) && Stops(rest, Apply(env', bs)) &&
        Program(a.rest, env') == Outcome(rest == [], Apply(env', bs));
      var bs' := [a.value] + bs;
      assert bs'[1..] == bs;
      assert Reads(s, env, bs', rest);
      assert Apply(env, bs') == Apply(env', bs);
    }
  }

  /** Conversely, text that successive assignments read to the end is
      accepted, with the bindings of those assignments. */
  lemma {:induction false} RunAccepted(s: string, env: Env, bs: seq<Binding>)
    requires Reads(s, env, bs, [])
    ensures Program(s, env) == Outcome(true, Apply(env, bs))
    decreases |bs|
  {
    if |bs| > 0 {
      var a := Assignment(s, env);
      RunAccepted(a.rest, env[bs[0].name := bs[0].value], bs[1..]);
    }
  }

  /** What a successful assignment consumed: an identifier, which becomes the
      bound name, and everything up to and including a `;`.  The remaining
      text follows that `;` at the end of the input. */
  lemma AssignmentShape(s: string, env: Env)
    ensures var r := Assignment(s, env);
      r.Ok? ==> IsSuffix(";" + r.rest, s) && IsIdentifier(r.value.name)
  {
    StripSuffix(s);
    var r := AssignmentAt(Strip(s), env);
    AssignmentAtShape(Strip(s), env);
    if r.Ok? {
      SuffixTransitive(";" + r.rest, Strip(s), s);
    }
  }

  /** `AssignmentShape` for the text after the leading whitespace. */
  lemma AssignmentAtShape(t: string, env: Env)
    ensures var r := AssignmentAt(t, env);
      r.Ok? ==> IsSuffix(";" + r.rest, t) && IsIdentifier(r.value.name)
  {
    var r := AssignmentAt(t, env);
    if r.Ok? {
      var x := Identifier(t);
      var u := Strip(x.rest);
      var e := Expression(u[1..], env);
      IdentifierShape(t);
      SuffixOfConcat(x.value, x.rest);
      StripSuffix(t);
      SuffixTransitive(x.rest, Strip(t), t);
      ExpressionSuffix(u[1..], env);
      SemicolonSuffix(t, x.rest, e.rest);
    }
  }

  /** The suffix bookkeeping of `AssignmentAtShape`: from the text after the
      name, past `=` and the expression, to the text after `;`. */
  lemma SemicolonSuffix(t: string, afterName: string, afterValue: string)
    requires IsSuffix(afterName, t)
    requires Strip(afterName) != [] && IsSuffix(afterValue, Strip(afterName)[1..])
    requires StartsWith(Strip(afterValue), ';')
    ensures IsSuffix(";" + Strip(afterValue)[1..], t)
  {
    var u := Strip(afterName);
    var w := Strip(afterValue);
    StripSuffix(afterName);
    StripSuffix(afterValue);
    SuffixTail(u);
    SuffixTransitive(u, afterName, t);
    SuffixTransitive(u[1..], u, t);
    SuffixTransitive(afterValue, u[1..], t);
    SuffixTransitive(w, afterValue, t);
    SplitHead(w, ';');
  }

  /** The dictionary of variables, owned by the caller and written in place. */
  class Variables {
    var bindings: Env

    constructor ()
      ensures bindings == map[]
    {
      bindings := map[];
    }
  }

  /** `parse_assignment`: returns the text after the `;`, or nothing on
      failure.  The dictionary is written only when the identifier, the `=`,
      the expression and the `;` have all been read, and then only at that
      identifier. */
  method ParseAssignment(expr: string, vars: Variables) returns (r: Option<string>)
    modifies vars
    ensures var a := Assignment(expr, old(vars.bindings));
      (r.Some? <==> a.Ok?) &&
      (a.Ok? ==> r.value == a.rest && vars.bindings == old(vars.bindings)[a.value.name := a.value.value]) &&
      (a.Fail? ==> vars.bindings == old(vars.bindings))
  {
    var e := Strip(expr);
    var id := ParseIdentifier(e);
    if id.Fail? {
      return None;
    }
    e := Strip(id.rest);
    if |e| == 0 || e[0] != '=' {
      return None;
    }
    e := e[1..];
    var value := Expression(e, vars.bindings);
    if value.Fail? {
      return None;
    }
    e := Strip(value.rest);
    if StartsWith(e, ';') {
      vars.bindings := vars.bindings[id.value := value.value];
      return Some(e[1..]);
    }
    return None;
  }

  /** `parse_program`: the loop over assignments, updating `vars` in place. */
  method ParseProgram(expr: string, vars: Variables) returns (ok: bool)
    modifies vars
    ensures ok == Program(expr, old(vars.bindings)).accepted
    ensures vars.bindings == Program(expr, old(vars.bindings)).env
  {
    var e := expr;
    while |e| > 0
      invariant Program(e, vars.bindings) == Program(expr, old(vars.bindings))
      decreases |e|
    {
      var next := ParseAssignment(e, vars);
      if next.None? {
        return false;
      }
      e := next.value;
    }
    return true;
  }
}
