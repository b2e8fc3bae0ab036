/**
 * An independent account of what the parser computes: expression trees of
 * the accepted language, their arithmetic value, and a printer that writes a
 * tree back as program text.  The round-trip lemmas say that parsing the
 * printed text of a tree yields exactly the tree's value, which pins down
 * precedence (`*` binds tighter than `+` and `-`), right-associativity (the
 * right operand of a binary operator is a whole term or expression),
 * parentheses, unary signs, literals and variable lookup.
 */
module Reference {
  import opened Text
  import opened Scanners
  import opened Grammar
  import opened Statements

  datatype Expr =
    | Num(n: nat)
    | Var(name: string)
    | Neg(e: Expr)
    | Pos(e: Expr)
    | Paren(e: Expr)
    | Add(l: Expr, r: Expr)
    | Sub(l: Expr, r: Expr)
    | Mul(l: Expr, r: Expr)

  /** Trees the grammar's Fact rule can produce. */
  predicate IsFactor(e: Expr)
    decreases e, 0
  {
    match e
    case Num(_) => true
    case Var(x) => IsIdentifier(x)
    case Neg(f) => IsFactor(f)
    case Pos(f) => IsFactor(f)
    case Paren(x) => IsExp(x)
    case _ => false
  }

  /** Trees the Term rule can produce: a product's left operand is a factor. */
  predicate IsTerm(e: Expr)
    decreases e, 1
  {
    if e.Mul? then IsFactor(e.l) && IsTerm(e.r) else IsFactor(e)
  }

  /** Trees the Expression rule can produce: a sum's or difference's left
      operand is a term, so `a - b - c` can only be `a - (b - c)`. */
  predicate IsExp(e: Expr)
    decreases e, 2
  {
    if e.Add? || e.Sub? then IsTerm(e.l) && IsExp(e.r) else IsTerm(e)
  }

  /** Number of nodes of a tree, the measure of the round-trip proofs. */
  function Size(e: Expr): nat {
    match e
    case Num(_) => 1
    case Var(_) => 1
    case Neg(f) => Size(f) + 1
    case Pos(f) => Size(f) + 1
    case Paren(x) => Size(x) + 1
    case Add(l, r) => Size(l) + Size(r) + 1
    case Sub(l, r) => Size(l) + Size(r) + 1
    case Mul(l, r) => Size(l) + Size(r) + 1
  }

  /** Every variable of `e` has a value in `env`. */
  predicate Defined(e: Expr, env: Env) {
    match e
    case Num(_) => true
    case Var(x) => x in env
    case Neg(f) => Defined(f, env)
    case Pos(f) => Defined(f, env)
    case Paren(x) => Defined(x, env)
    case Add(l, r) => Defined(l, env) && Defined(r, env)
    case Sub(l, r) => Defined(l, env) && Defined(r, env)
    case Mul(l, r) => Defined(l, env) && Defined(r, env)
  }

  /** The arithmetic value of a tree, on unbounded integers. */
  function Eval(e: Expr, env: Env): int
    requires Defined(e, env)
  {
    match e
    case Num(n) => n
    case Var(x) => env[x]
    case Neg(f) => -Eval(f, env)
    case Pos(f) => Eval(f, env)
    case Paren(x) => Eval(x, env)
    case Add(l, r) => Eval(l, env) + Eval(r, env)
    case Sub(l, r) => Eval(l, env) - Eval(r, env)
    case Mul(l, r) => Eval(l, env) * Eval(r, env)
  }

  function DigitChar(k: nat): (c: char)
    requires k < 10
    ensures IsDigit(c) && DigitValue(c) == k
  {
    ('0' as int + k) as char
  }

  /** Decimal notation of a natural number, as `str` writes it: the literal
      token whose value is `n`. */
  function DecimalString(n: nat): (d: string)
    ensures IsLiteralToken(d) && DecimalValue(d) == n
    ensures n == 0 <==> d == "0"
  {
    if n < 10 then
      [DigitChar(n)]
    else
      var p := DecimalString(n / 10);
      var d := p + [DigitChar(n % 10)];
      assert d[..|d| - 1] == p;
      d
  }

  /** Program text for a tree: single spaces around binary operators. */
  function Print(e: Expr): string {
    match e
    case Num(n) => DecimalString(n)
    case Var(x) => x
    case Neg(f) => "-" + Print(f)
    case Pos(f) => "+" + Print(f)
    case Paren(x) => "(" + Print(x) + ")"
    case Add(l, r) => Print(l) + " + " + Print(r)
    case Sub(l, r) => Print(l) + " - " + Print(r)
    case Mul(l, r) => Print(l) + " * " + Print(r)
  }

  /** Characters that can begin an operand. */
  predicate BeginsOperand(c: char) {
    IsDigit(c) || IsLetter(c) || c == '-' || c == '+' || c == '('
  }

  /** A factor is a term, and a term is an expression. */
  lemma Levels(e: Expr)
    ensures IsFactor(e) ==> IsTerm(e)
    ensures IsTerm(e) ==> IsExp(e)
  {
    if e.Add? || e.Sub? {
      assert !IsFactor(e);
    }
  }

  lemma {:induction false} PrintBegins(e: Expr)
    requires IsExp(e)
    ensures |Print(e)| > 0 && BeginsOperand(Print(e)[0])
  {
    match e
    case Num(n) =>
    case Var(x) =>
      assert IsTerm(e) && IsFactor(e);
    case Neg(f) =>
    case Pos(f) =>
    case Paren(x) =>
    case Add(l, r) =>
      Levels(l);
      PrintBegins(l);
    case Sub(l, r) =>
      Levels(l);
      PrintBegins(l);
    case Mul(l, r) =>
      assert IsTerm(e);
      Levels(l);
      PrintBegins(l);
  }

  /** What may follow a printed factor without being read into it. */
  predicate EndsFactor(rest: string) {
    rest == [] || !IsIdentChar(rest[0])
  }

  /** What may follow a printed term: not a `*` continuing the product. */
  predicate EndsTerm(rest: string) {
    EndsFactor(rest) && !StartsWith(Strip(rest), '*')
  }

  /** What may follow a printed expression: no `+` or `-` continuing it. */
  predicate EndsExp(rest: string) {
    EndsTerm(rest) && !StartsWith(Strip(rest), '+') && !StartsWith(Strip(rest), '-')
  }

  /** `parse_literal` reads back the decimal notation of any natural number. */
  lemma LiteralOfDecimal(n: nat, rest: string)
    requires rest == [] || !IsDigit(rest[0])
    ensures Literal(DecimalString(n) + rest) == Ok(rest, n)
  {
    var d := DecimalString(n);
    var s := d + rest;
    StripSolid(s);
    if n == 0 {
      assert s[1..] == rest;
    } else {
      DigitRunOfDigits(d, rest);
      assert s[..|d|] == d && s[|d|..] == rest;
    }
  }

  /** How the text of a binary operation splits around its operator. */
  lemma BinaryText(l: Expr, op: char, r: Expr, rest: string)
    ensures var u := [op, ' '] + (Print(r) + rest);
      Print(l) + [' ', op, ' '] + Print(r) + rest == Print(l) + (" " + u) &&
      u[1..] == " " + (Print(r) + rest)
  {
  }

  /** A name missing from the environment is no factor, term or
      expression: the statement it stands in fails. */
  lemma UndefinedFails(x: string, rest: string, env: Env)
    requires IsIdentifier(x) && x !in env && EndsFactor(rest)
    ensures Fact(x + rest, env) == Fail
    ensures Term(x + rest, env) == Fail
    ensures Expression(x + rest, env) == Fail
  {
    StripSolid(x + rest);
    IdentifierOfName(x, rest);
    assert (x + rest)[0] == x[0];
  }

  /** An operator followed by an undefined name is left unread: the
      expression is the term before it. */
  lemma OperatorBeforeUndefined(e: Expr, op: char, y: string, env: Env)
    requires IsTerm(e) && Defined(e, env) && (op == '+' || op == '-')
    requires IsIdentifier(y) && y !in env
    ensures Expression(Print(e) + [' ', op, ' '] + y, env) == Ok([op, ' '] + y, Eval(e, env))
  {
    var u := [op, ' '] + y;
    var s := Print(e) + [' ', op, ' '] + y;
    assert s == Print(e) + (" " + u);
    Levels(e);
    PrintBegins(e);
    StripSolid(s);
    StripSkipsSpace(" ", u);
    StripSolid(u);
    TermRoundTrip(e, " " + u, env);
    assert u[1..] == " " + (y + "");
    RulesSkipSpace(" ", y + "", env);
    UndefinedFails(y, "", env);
    ExpressionAlone(s, env, u, Eval(e, env));
  }

  /** A statement whose expression is an undefined name fails. */
  lemma UndefinedStatement(x: string, y: string, rest: string, env: Env)
    requires IsIdentifier(x) && IsIdentifier(y) && y !in env && EndsFactor(rest)
    ensures Assignment(x + (" = " + (y + rest)), env) == Fail
  {
    StatementOf(x, y + rest, env);
    UndefinedFails(y, rest, env);
  }

  /** Text that does not begin with an operand is no factor, term or
      expression. */
  lemma NoOperand(s: string, env: Env)
    requires Strip(s) == [] || !BeginsOperand(Strip(s)[0])
    ensures Fact(s, env) == Fail
    ensures Term(s, env) == Fail
    ensures Expression(s, env) == Fail
  {
    var t := Strip(s);
    StripIdempotent(s);
    assert FactAt(t, env) == Fail;
    assert Fact(t, env) == Fail;
    assert TermAt(t, env) == Fail;
    assert Term(t, env) == Fail;
    assert ExpressionAt(t, env) == Fail;
  }

  /** Parsing a printed factor yields its value and leaves exactly what followed it. */
  lemma {:induction false} FactRoundTrip(e: Expr, rest: string, env: Env)
    requires IsFactor(e) && Defined(e, env) && EndsFactor(rest)
    ensures Fact(Print(e) + rest, env) == Ok(rest, Eval(e, env))
    decreases Size(e), 1
  {
    var s := Print(e) + rest;
    match e
    case Num(n) =>
      StripSolid(s);
      FactLiteral(s, env);
      LiteralOfDecimal(n, rest);
    case Var(x) =>
      StripSolid(s);
      FactVariable(s, env);
      IdentifierOfName(x, rest);
    case Neg(f) =>
      SignRoundTrip(e, rest, env);
    case Pos(f) =>
      SignRoundTrip(e, rest, env);
    case Paren(x) =>
      ParenRoundTrip(x, rest, env);
  }

  /** The case of `FactRoundTrip` for a unary sign applied to a factor. */
  lemma {:induction false} SignRoundTrip(e: Expr, rest: string, env: Env)
    requires e.Neg? || e.Pos?
    requires IsFactor(e) && Defined(e, env) && EndsFactor(rest)
    ensures Fact(Print(e) + rest, env) == Ok(rest, Eval(e, env))
    decreases Size(e), 0
  {
    var c := if e.Neg? then '-' else '+';
    var s := Print(e) + rest;
    assert Print(e) == [c] + Print(e.e);
    assert s == [c] + (Print(e.e) + rest);
    StripSolid(s);
    FactRoundTrip(e.e, rest, env);
    FactSign(s, env, rest, Eval(e.e, env));
  }

  /** The case of `FactRoundTrip` for a parenthesised expression. */
  lemma {:induction false} ParenRoundTrip(x: Expr, rest: string, env: Env)
    requires IsExp(x) && Defined(x, env) && EndsFactor(rest)
    ensures Fact(Print(Paren(x)) + rest, env) == Ok(rest, Eval(x, env))
    decreases Size(x) + 1, 0
  {
    var s := Print(Paren(x)) + rest;
    StripSolid(s);
    assert s[1..] == Print(x) + (")" + rest);
    StripSolid(")" + rest);
    ExpRoundTrip(x, ")" + rest, env);
    assert (")" + rest)[1..] == rest;
    FactParen(s, env, ")" + rest, Eval(x, env));
  }

  /** Parsing a printed term yields its value and leaves what followed it,
      stripped of leading whitespace. */
  lemma {:induction false} TermRoundTrip(e: Expr, rest: string, env: Env)
    requires IsTerm(e) && Defined(e, env) && EndsTerm(rest)
    ensures Term(Print(e) + rest, env) == Ok(Strip(rest), Eval(e, env))
    decreases Size(e), 3
  {
    if e.Mul? {
      ProductRoundTrip(e, rest, env);
    } else {
      var s := Print(e) + rest;
      Levels(e);
      PrintBegins(e);
      StripSolid(s);
      FactRoundTrip(e, rest, env);
      TermAlone(s, env, rest, Eval(e, env));
    }
  }

  /** The case of `TermRoundTrip` for a product: the left operand is read as
      a factor, the right one as a whole term. */
  lemma {:induction false} ProductRoundTrip(e: Expr, rest: string, env: Env)
    requires e.Mul?
    requires IsTerm(e) && Defined(e, env) && EndsTerm(rest)
    ensures Term(Print(e) + rest, env) == Ok(Strip(rest), Eval(e, env))
    decreases Size(e), 2
  {
    var s := Print(e) + rest;
    var u := "* " + (Print(e.r) + rest);
    Levels(e.l);
    PrintBegins(e.l);
    assert s[0] == Print(e.l)[0];
    StripSolid(s);
    BinaryText(e.l, '*', e.r, rest);
    FactRoundTrip(e.l, " " + u, env);
    StripSkipsSpace(" ", u);
    StripSolid(u);
    TermRoundTrip(e.r, rest, env);
    RulesSkipSpace(" ", Print(e.r) + rest, env);
    TermProduct(s, env, " " + u, Eval(e.l, env), Strip(rest), Eval(e.r, env));
  }

  /** Parsing a printed expression yields its value and leaves what followed
      it, stripped of leading whitespace. */
  lemma {:induction false} ExpRoundTrip(e: Expr, rest: string, env: Env)
    requires IsExp(e) && Defined(e, env) && EndsExp(rest)
    ensures Expression(Print(e) + rest, env) == Ok(Strip(rest), Eval(e, env))
    decreases Size(e), 5
  {
    if e.Add? {
      SumRoundTrip(e, rest, env);
    } else if e.Sub? {
      DifferenceRoundTrip(e, rest, env);
    } else {
      var s := Print(e) + rest;
      PrintBegins(e);
      StripSolid(s);
      TermRoundTrip(e, rest, env);
      StripIdempotent(rest);
      ExpressionAlone(s, env, Strip(rest), Eval(e, env));
    }
  }

  /** The case of `ExpRoundTrip` for a sum: the left operand is read as a
      term, the right one as a whole expression. */
  lemma {:induction false} SumRoundTrip(e: Expr, rest: string, env: Env)
    requires e.Add?
    requires IsExp(e) && Defined(e, env) && EndsExp(rest)
    ensures Expression(Print(e) + rest, env) == Ok(Strip(rest), Eval(e, env))
    decreases Size(e), 4
  {
    var s := Print(e) + rest;
    assert Print(e) == Print(e.l) + [' ', '+', ' '] + Print(e.r);
    SumOperands(e.l, '+', e.r, rest, env);
    ExpressionSum(s, env, "+ " + (Print(e.r) + rest), Eval(e.l, env), Strip(rest), Eval(e.r, env));
  }

  /** The case of `ExpRoundTrip` for a difference, like a sum. */
  lemma {:induction false} DifferenceRoundTrip(e: Expr, rest: string, env: Env)
    requires e.Sub?
    requires IsExp(e) && Defined(e, env) && EndsExp(rest)
    ensures Expression(Print(e) + rest, env) == Ok(Strip(rest), Eval(e, env))
    decreases Size(e), 4
  {
    var s := Print(e) + rest;
    assert Print(e) == Print(e.l) + [' ', '-', ' '] + Print(e.r);
    SumOperands(e.l, '-', e.r, rest, env);
    ExpressionDifference(s, env, "- " + (Print(e.r) + rest), Eval(e.l, env), Strip(rest), Eval(e.r, env));
  }

  /** How `parse_expression` reads the text of a sum or a difference: a term
      for the left operand, then the operator, then a whole expression for
      the right operand. */
  lemma {:induction false} SumOperands(l: Expr, op: char, r: Expr, rest: string, env: Env)
    requires op == '+' || op == '-'
    requires IsTerm(l) && IsExp(r) && Defined(l, env) && Defined(r, env) && EndsExp(rest)
    ensures var s := Print(l) + [' ', op, ' '] + Print(r) + rest;
      var u := [op, ' '] + (Print(r) + rest);
      Term(Strip(s), env) == Ok(u, Eval(l, env)) &&
      Strip(u) == u && StartsWith(u, op) &&
      Expression(u[1..], env) == Ok(Strip(rest), Eval(r, env))
    decreases Size(l) + Size(r) + 1, 3
  {
    var s := Print(l) + [' ', op, ' '] + Print(r) + rest;
    var u := [op, ' '] + (Print(r) + rest);
    Levels(l);
    PrintBegins(l);
    assert s[0] == Print(l)[0];
    StripSolid(s);
    BinaryText(l, op, r, rest);
    StripSkipsSpace(" ", u);
    StripSolid(u);
    TermRoundTrip(l, " " + u, env);
    ExpRoundTrip(r, rest, env);
    RulesSkipSpace(" ", Print(r) + rest, env);
  }

  /** A statement of a program: a name and the tree assigned to it. */
  datatype Stmt = Assign(name: string, rhs: Expr)

  /** Program text for a statement, in the form `x = e;`. */
  function PrintStmt(st: Stmt): string {
    st.name + " = " + Print(st.rhs) + ";"
  }

  /** Program text for a list of statements, one per line. */
  function PrintProgram(stmts: seq<Stmt>): string
    decreases |stmts|
  {
    if |stmts| == 0 then ""
    else if |stmts| == 1 then PrintStmt(stmts[0])
    else PrintStmt(stmts[0]) + "\n" + PrintProgram(stmts[1..])
  }

  /** Every statement is well formed and only uses variables assigned before
      it, or already present in `env`. */
  predicate Scoped(stmts: seq<Stmt>, env: Env)
    decreases |stmts|
  {
    |stmts| == 0 ||
    (IsIdentifier(stmts[0].name) && IsExp(stmts[0].rhs) && Defined(stmts[0].rhs, env) &&
     Scoped(stmts[1..], env[stmts[0].name := Eval(stmts[0].rhs, env)]))
  }

  /** The environment after running the statements in order: each one
      evaluates its tree and overwrites its name. */
  function Exec(stmts: seq<Stmt>, env: Env): Env
    requires Scoped(stmts, env)
    decreases |stmts|
  {
    if |stmts| == 0 then env
    else Exec(stmts[1..], env[stmts[0].name := Eval(stmts[0].rhs, env)])
  }

  /** `parse_assignment` reads back a printed statement, binding its name to
      the value of its tree, and leaves exactly the text after the `;`. */
  lemma AssignmentRoundTrip(st: Stmt, rest: string, env: Env)
    requires IsIdentifier(st.name) && IsExp(st.rhs) && Defined(st.rhs, env)
    ensures Assignment(PrintStmt(st) + rest, env) == Ok(rest, Binding(st.name, Eval(st.rhs, env)))
  {
    var tail := Print(st.rhs) + (";" + rest);
    var a := " = " + tail;
    assert PrintStmt(st) + rest == st.name + a;
    NameThenEquals(st.name, tail);
    ValueThenSemicolon(st.rhs, rest, env);
    AssignmentSteps(st.name + a, env, a, st.name, ";" + rest, Eval(st.rhs, env));
  }

  /** A statement `x = ...` is decided by what the expression rule does with
      the text after `=`: it must succeed and be followed by `;`. */
  lemma StatementOf(x: string, tail: string, env: Env)
    requires IsIdentifier(x)
    ensures var e := Expression(tail, env);
      Assignment(x + (" = " + tail), env) ==
        if e.Ok? && StartsWith(Strip(e.rest), ';') then Ok(Strip(e.rest)[1..], Binding(x, e.value)) else Fail
  {
    NameThenEquals(x, tail);
    RulesSkipSpace(" ", tail, env);
  }

  /** The head of a printed statement: the name, then `=` after a space. */
  lemma NameThenEquals(x: string, tail: string)
    requires IsIdentifier(x)
    ensures var a := " = " + tail;
      Identifier(Strip(x + a)) == Ok(a, x) && StartsWith(Strip(a), '=') && Strip(a)[1..] == " " + tail
  {
    var b := "= " + tail;
    var a := " " + b;
    assert " = " + tail == a;
    StripSolid(x + a);
    IdentifierOfName(x, a);
    StripSkipsSpace(" ", b);
    StripSolid(b);
  }

  /** The tail of a printed statement: the expression, then `;`. */
  lemma ValueThenSemicolon(rhs: Expr, rest: string, env: Env)
    requires IsExp(rhs) && Defined(rhs, env)
    ensures Expression(" " + (Print(rhs) + (";" + rest)), env) == Ok(";" + rest, Eval(rhs, env))
    ensures Strip(";" + rest) == ";" + rest && StartsWith(";" + rest, ';') && (";" + rest)[1..] == rest
  {
    RulesSkipSpace(" ", Print(rhs) + (";" + rest), env);
    StripSolid(";" + rest);
    ExpRoundTrip(rhs, ";" + rest, env);
  }

  /** Running a printed program and then some more text is running the more
      text from the environment the printed statements leave behind: the
      loop never undoes a binding. */
  lemma {:induction false} ProgramThen(stmts: seq<Stmt>, rest: string, env: Env)
    requires |stmts| > 0 && Scoped(stmts, env)
    ensures Program(PrintProgram(stmts) + rest, env) == Program(rest, Exec(stmts, env))
    decreases |stmts|
  {
    var st := stmts[0];
    var env' := env[st.name := Eval(st.rhs, env)];
    if |stmts| == 1 {
      AssignmentRoundTrip(st, rest, env);
      assert Exec(stmts[1..], env') == env';
    } else {
      var more := PrintProgram(stmts[1..]) + rest;
      assert PrintProgram(stmts) + rest == PrintStmt(st) + ("\n" + more);
      StatementThenLine(st, more, env);
      ProgramThen(stmts[1..], rest, env');
    }
  }

  /** A printed statement, a line break and more text: the statement binds
      its name, and the program goes on with the text after the line break. */
  lemma StatementThenLine(st: Stmt, more: string, env: Env)
    requires IsIdentifier(st.name) && IsExp(st.rhs) && Defined(st.rhs, env) && more != []
    ensures Program(PrintStmt(st) + ("\n" + more), env) == Program(more, env[st.name := Eval(st.rhs, env)])
  {
    AssignmentRoundTrip(st, "\n" + more, env);
    ProgramSkipsSpace("\n", more, env[st.name := Eval(st.rhs, env)]);
  }

  /** A printed program is accepted, and leaves the environment its
      statements compute. */
  lemma ProgramRoundTrip(stmts: seq<Stmt>, env: Env)
    requires Scoped(stmts, env)
    ensures Program(PrintProgram(stmts), env) == Outcome(true, Exec(stmts, env))
  {
    if |stmts| > 0 {
      ProgramThen(stmts, [], env);
      assert PrintProgram(stmts) + [] == PrintProgram(stmts);
    }
  }

  /** No rollback: when a statement fails after some that succeeded, the
      program is rejected but keeps every binding made before the failure. */
  lemma NoRollback(stmts: seq<Stmt>, rest: string, env: Env)
    requires |stmts| > 0 && Scoped(stmts, env)
    requires rest != [] && Assignment(rest, Exec(stmts, env)).Fail?
    ensures Program(PrintProgram(stmts) + rest, env) == Outcome(false, Exec(stmts, env))
  {
    ProgramThen(stmts, rest, env);
  }
}
