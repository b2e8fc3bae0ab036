/**
 * Concrete programs and what the parser does with them: the leading-zero
 * rule, right-associativity, precedence, unary signs, operators left unread,
 * forward references, and the rejections.
 */
module Examples {
  import opened Text
  import opened Scanners
  import opened Grammar
  import opened Statements
  import opened Reference

  /** A leading `0` is a whole literal: `007` reads as 0 and leaves `07`. */
  lemma LeadingZero()
    ensures Literal("007") == Ok("07", 0)
  {
  }

  /** ... so `x = 007;` is rejected at the `;` check. */
  lemma LeadingZeroProgram()
    ensures Program("x = 007;", map[]) == Outcome(false, map[])
  {
    assert "x = 007;" == "x" + (" = " + "007;");
    StatementOf("x", "007;", map[]);
    StripSolid("007;");
    StripSolid("07;");
    FactLiteral("007;", map[]);
    TermAlone("007;", map[], "07;", 0);
    ExpressionAlone("007;", map[], "07;", 0);
  }

  /** `-` associates to the right: `10 - 3 - 2` is `10 - (3 - 2)`, which is 9. */
  lemma RightAssociative()
    ensures Expression("10 - 3 - 2", map[]) == Ok("", 9)
  {
    var e := Sub(Num(10), Sub(Num(3), Num(2)));
    assert Print(e) + "" == "10 - 3 - 2";
    assert Eval(e, map[]) == 9;
    assert Strip("") == "";
    ExpRoundTrip(e, "", map[]);
  }

  /** `*` binds tighter than `+`: `2 + 3 * 4` is 14. */
  lemma Precedence()
    ensures Expression("2 + 3 * 4", map[]) == Ok("", 14)
  {
    var e := Add(Num(2), Mul(Num(3), Num(4)));
    assert Print(e) + "" == "2 + 3 * 4";
    assert Eval(e, map[]) == 14;
    assert Strip("") == "";
    ExpRoundTrip(e, "", map[]);
  }

  /** Parentheses override precedence: `(2 + 3) * 4` is 20. */
  lemma Parenthesised()
    ensures Expression("(2 + 3) * 4", map[]) == Ok("", 20)
  {
    var e := Mul(Paren(Add(Num(2), Num(3))), Num(4));
    assert Print(e) + "" == "(2 + 3) * 4";
    assert IsExp(e);
    assert Eval(e, map[]) == 20;
    assert Strip("") == "";
    ExpRoundTrip(e, "", map[]);
  }

  /** Unary `-` negates and unary `+` does nothing: `--5` is 5, `-+5` is -5. */
  lemma UnarySigns()
    ensures Fact("--5", map[]) == Ok("", 5)
    ensures Fact("-+5", map[]) == Ok("", -5)
  {
    var e := Neg(Neg(Num(5)));
    assert Print(e) + "" == "--5";
    FactRoundTrip(e, "", map[]);
    var f := Neg(Pos(Num(5)));
    assert Print(f) + "" == "-+5";
    FactRoundTrip(f, "", map[]);
  }

  /** A `(` whose expression is not followed by `)` makes the factor fail:
      the later alternatives do not accept a `(` either. */
  lemma UnclosedParenthesis()
    ensures Fact("(1", map[]) == Fail
  {
    assert Print(Num(1)) + "" == "1";
    ExpRoundTrip(Num(1), "", map[]);
    StripSolid("(1");
  }

  /** When nothing parses after an operator, the operator is left unread and
      the left operand alone is the value. */
  lemma OperatorLeftUnread()
    ensures Expression("1 + y", map[]) == Ok("+ y", 1)
  {
    assert IsIdentifier("y");
    OperatorBeforeUndefined(Num(1), '+', "y", map[]);
    assert Print(Num(1)) + [' ', '+', ' '] + "y" == "1 + y";
    assert ['+', ' '] + "y" == "+ y";
  }

  /** A variable that was never assigned makes its statement fail. */
  lemma UndefinedVariable()
    ensures Program("x = y;", map[]) == Outcome(false, map[])
  {
    assert IsIdentifier("x") && IsIdentifier("y");
    assert "x = y;" == "x" + (" = " + ("y" + ";"));
    UndefinedStatement("x", "y", ";", map[]);
  }

  /** Two statements on two lines run one after the other. */
  lemma TwoStatements(a: Stmt, b: Stmt, env: Env)
    requires IsIdentifier(a.name) && IsExp(a.rhs) && Defined(a.rhs, env)
    requires IsIdentifier(b.name) && IsExp(b.rhs) && Defined(b.rhs, env[a.name := Eval(a.rhs, env)])
    ensures var env1 := env[a.name := Eval(a.rhs, env)];
      Program(PrintStmt(a) + "\n" + PrintStmt(b), env) == Outcome(true, env1[b.name := Eval(b.rhs, env1)])
  {
    var p := [a, b];
    var env1 := env[a.name := Eval(a.rhs, env)];
    assert p[1..] == [b] && p[1..][1..] == [];
    assert PrintProgram(p) == PrintStmt(a) + "\n" + PrintStmt(b) by {
      assert PrintProgram(p[1..]) == PrintStmt(b);
    }
    assert Scoped(p, env) by {
      assert Scoped([b], env1);
    }
    assert Exec(p, env) == env1[b.name := Eval(b.rhs, env1)] by {
      assert Exec([b], env1) == Exec([], env1[b.name := Eval(b.rhs, env1)]);
    }
    ProgramRoundTrip(p, env);
  }

  /** The text of the two statements used by `ForwardReference`. */
  lemma ForwardReferenceText()
    ensures PrintStmt(Assign("x", Num(1))) + "\n" + PrintStmt(Assign("y", Add(Var("x"), Num(1)))) == "x = 1;\ny = x + 1;"
  {
    assert PrintStmt(Assign("x", Num(1))) == "x = 1;";
    assert PrintStmt(Assign("y", Add(Var("x"), Num(1)))) == "y = x + 1;";
  }

  /** A later statement sees the value an earlier one assigned. */
  lemma ForwardReference()
    ensures Program("x = 1;\ny = x + 1;", map[]) == Outcome(true, map["x" := 1, "y" := 2])
  {
    var first := Assign("x", Num(1));
    var second := Assign("y", Add(Var("x"), Num(1)));
    assert IsIdentifier("x") && IsIdentifier("y");
    assert Eval(first.rhs, map[]) == 1;
    assert Defined(second.rhs, map["x" := 1]) && Eval(second.rhs, map["x" := 1]) == 2;
    TwoStatements(first, second, map[]);
    ForwardReferenceText();
  }

  /** The text of the two statements used by `Overwrite`. */
  lemma OverwriteText()
    ensures PrintStmt(Assign("x", Num(1))) + "\n" + PrintStmt(Assign("x", Mul(Var("x"), Num(2)))) == "x = 1;\nx = x * 2;"
  {
    assert PrintStmt(Assign("x", Num(1))) == "x = 1;";
    assert PrintStmt(Assign("x", Mul(Var("x"), Num(2)))) == "x = x * 2;";
  }

  /** A later assignment to the same name overwrites the earlier value. */
  lemma Overwrite()
    ensures Program("x = 1;\nx = x * 2;", map[]) == Outcome(true, map["x" := 2])
  {
    var first := Assign("x", Num(1));
    var second := Assign("x", Mul(Var("x"), Num(2)));
    assert IsIdentifier("x");
    assert Eval(first.rhs, map[]) == 1;
    assert Defined(second.rhs, map["x" := 1]) && Eval(second.rhs, map["x" := 1]) == 2;
    TwoStatements(first, second, map[]);
    OverwriteText();
  }

  /** Whitespace after the last `;` is rejected, and the bindings made
      before it stay. */
  lemma TrailingSpace()
    ensures Program("x = 1; ", map[]) == Outcome(false, map["x" := 1])
  {
    var p := [Assign("x", Num(1))];
    assert PrintProgram(p) + " " == "x = 1; ";
    assert IsIdentifier("x");
    assert Scoped(p, map[]) by {
      assert Scoped(p[1..], map["x" := 1]);
    }
    ProgramThen(p, " ", map[]);
    assert Exec(p, map[]) == map["x" := 1] by {
      assert Exec(p[1..], map["x" := 1]) == map["x" := 1];
    }
    TrailingSpaceRejected(" ", map["x" := 1]);
  }

  /** A failing statement after a successful one: rejected, and `x` stays bound. */
  lemma FailureKeepsEarlierBindings()
    ensures Program("x = 1;\ny = z;", map[]) == Outcome(false, map["x" := 1])
  {
    var p := [Assign("x", Num(1))];
    var env1 := map["x" := 1];
    assert PrintProgram(p) + "\ny = z;" == "x = 1;\ny = z;";
    assert Scoped(p, map[]) && Exec(p, map[]) == env1 by {
      assert p[1..] == [];
      assert IsIdentifier("x");
    }
    assert Assignment("\ny = z;", env1) == Fail by {
      assert IsIdentifier("y") && IsIdentifier("z");
      assert "y = z;" == "y" + (" = " + ("z" + ";"));
      UndefinedStatement("y", "z", ";", env1);
      StripSkipsSpace("\n", "y = z;");
    }
    NoRollback(p, "\ny = z;", map[]);
  }

  /** An assignment with no expression after `=` is rejected. */
  lemma MissingExpression()
    ensures Program("x = ;", map[]) == Outcome(false, map[])
  {
    assert "x = ;" == "x" + (" = " + ";");
    StatementOf("x", ";", map[]);
    StripSolid(";");
    NoOperand(";", map[]);
  }

  /** An assignment with no `=` is rejected. */
  lemma MissingEquals()
    ensures Program("x 5;", map[]) == Outcome(false, map[])
  {
    assert "x 5;" == "x" + " 5;";
    StripSolid("x 5;");
    IdentifierOfName("x", " 5;");
    StripSkipsSpace(" ", "5;");
    StripSolid("5;");
  }

  /** An assignment with no name is rejected. */
  lemma MissingName()
    ensures Program("= 5;", map[]) == Outcome(false, map[])
  {
    StripSolid("= 5;");
  }

  /** A name alone is rejected: there is no `=` after it. */
  lemma NameAlone()
    ensures Program("x", map[]) == Outcome(false, map[])
  {
    StripSolid("x");
    IdentifierOfName("x", "");
    assert "x" + "" == "x";
  }

  /** An identifier cannot start with `_`, so `_x = 1;` is rejected. */
  lemma UnderscoreStart()
    ensures Identifier("_x") == Fail
    ensures Program("_x = 1;", map[]) == Outcome(false, map[])
  {
    StripSolid("_x");
    StripSolid("_x = 1;");
  }
}
