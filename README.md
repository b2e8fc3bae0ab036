# A recursive-descent parser and evaluator for assignment programs, in Dafny

`parser.py` reads a program made of statements `identifier = expression;`.
It evaluates each expression as it parses it and stores the value in a
dictionary of variables. The grammar is:

    Program    -> Assignment*
    Assignment -> Identifier = Exp ;
    Exp        -> Term + Exp | Term - Exp | Term
    Term       -> Fact * Term | Fact
    Fact       -> ( Exp ) | - Fact | + Fact | Literal | Identifier
    Literal    -> 0 | NonZeroDigit Digit*
    Identifier -> Letter (Letter | Digit | _)*

Every rule strips leading whitespace first. It then returns either failure
or the remaining text together with a value. Because the recursion is to the
right, `+`, `-` and `*` associate to the right: `10 - 3 - 2` is
`10 - (3 - 2)`.

The model keeps the source's shape:

- `text.dfy` (module `Text`) holds the shared vocabulary. `Parse<T>` is the
  `(rest, value)` / `(False, None)` pair of the source. `Strip` is
  `str.lstrip()`. `IsSuffix` relates a remainder to its input.
- `scanners.dfy` (module `Scanners`) has `parse_literal` and
  `parse_identifier`. The source scans these with loops, so each is a method
  with its loop, proved equal to a specification function. The specification
  function's own properties are proved as lemmas.
- `grammar.dfy` (module `Grammar`) has `parse_expression`, `parse_term` and
  `parse_fact`. These are pure and mutually recursive, so they become
  mutually recursive functions. Each rule `R` is split into `R(s) = RAt(Strip(s))`:
  the first step of the source is `expr.lstrip()`, and `RAt` is the rest of
  that function's body. Step lemmas give each branch of each rule.
- `statements.dfy` (module `Statements`) has `parse_assignment` and
  `parse_program`:
  - `Assignment` and `Program` are the pure specifications;
  - the class `Variables` holds the dictionary that the source mutates;
  - the methods `ParseAssignment` and `ParseProgram` write into it in place
    and are proved against those functions.
- `reference.dfy` (module `Reference`) is an independent reference semantics:
  - expression trees, their evaluation, and a printer producing program text;
  - the round-trip lemmas: parsing printed text yields the tree's value, and
    a printed program of statements yields the environment that executing
    them gives;
  - the general failure lemmas: undefined variables, missing operands, and
    no rollback.
- `examples.dfy` (module `Examples`) holds the concrete behaviours:
  - `007` reads as 0 and leaves `07`;
  - `10 - 3 - 2` is 9;
  - `2 + 3 * 4` is 14;
  - `--5` is 5 and `-+5` is -5;
  - malformed statements are rejected.
- `as_written.dfy` (module `AsWritten`) models the parser as written, with
  the exceptions it raises instead of failing (see Findings). Every rule,
  statement and program there is proved to return what the model returns
  whenever it returns. Whenever it raises an IndexError or a TypeError, the
  model rejects the statement. The RecursionError and the ValueError listed
  under Left out are outside this.

Arithmetic is on unbounded integers, like Python's `int`. The environment is
a `map<string, int>`.

## Model

| member | source | states |
|---|---|---|
| Text.Strip | parser.py:37 | `lstrip` never lengthens the text, and its result does not begin with whitespace |
| Text.StripSuffix | parser.py:37 | `lstrip` removes exactly a whitespace prefix: the result is a suffix of the input and everything removed is whitespace |
| Text.StripSkipsSpace | parser.py:37 | whitespace placed in front of a text does not change what `lstrip` returns |
| Text.StripIdempotent | parser.py:75 | stripping twice is stripping once, so the repeated `lstrip` at each rule entry changes nothing |
| Scanners.DecimalValue | parser.py:187 | `int` of a digit string is a natural number, positive when the first digit is not `0` |
| Scanners.DecimalBounds | parser.py:187 | `int` of a string of `n` digits is below `10^n`, and at least `10^(n-1)` when the first digit is not `0` |
| Scanners.DigitRun | parser.py:183-185 | the scanned prefix is all digits and is maximal: it ends the text or stops at a non-digit |
| Scanners.IdentRun | parser.py:208-213 | the scanned prefix is all letters, digits or `_`, and is maximal |
| Scanners.Literal | parser.py:166-187 | succeeds exactly when the stripped text starts with a digit; then it consumes at least one character and the value is non-negative |
| Scanners.LiteralShape | parser.py:172-187 | the consumed text is `0` alone or a non-zero digit followed by the maximal run of digits; the remainder is a suffix of the stripped input; the value is the decimal value of the consumed digits |
| Scanners.ParseLiteral | parser.py:166-187 | the scanning loop returns exactly `Literal` of its input |
| Scanners.Identifier | parser.py:190-215 | succeeds exactly when the stripped text starts with an ASCII letter, so `_` and digits are refused first; then it consumes at least one character, and the name is what was consumed |
| Scanners.IdentifierShape | parser.py:196-215 | the name is an identifier; name plus remainder is the stripped input; the remainder does not start with a letter, digit or `_`, so the name is maximal |
| Scanners.ParseIdentifier | parser.py:190-215 | the scanning loop returns exactly `Identifier` of its input |
| Scanners.IdentifierOfName | parser.py:205-215 | any identifier followed by a character that cannot continue it is read back as itself, leaving that character |
| Grammar.Expression | parser.py:69-97 | on success it consumes at least one character of the stripped input, and the remainder does not begin with whitespace |
| Grammar.ExpressionAt | parser.py:78-97 | the same, for the body after the leading `lstrip` |
| Grammar.Term | parser.py:100-122 | on success it consumes at least one character, and the remainder does not begin with whitespace |
| Grammar.TermAt | parser.py:109-122 | the same, for the body after the leading `lstrip` |
| Grammar.Fact | parser.py:125-163 | on success it consumes at least one character of the stripped input |
| Grammar.FactAt | parser.py:131-163 | the same, for the body after the leading `lstrip` |
| Grammar.Variable | parser.py:152-163 | the identifier alternative succeeds exactly when an identifier is read and is bound in the environment; the value is the bound value and the remainder is the text after the name |
| Grammar.RulesSkipSpace | parser.py:75 | leading whitespace changes the result of no rule |
| Grammar.FactParen | parser.py:132-135 | `(` then an expression whose remainder starts with `)` gives the inner value, and the text after `)` remains |
| Grammar.FactSign | parser.py:138-144 | a sign then a factor gives the factor's value, negated for `-` and unchanged for `+` |
| Grammar.FactLiteral | parser.py:146-150 | a factor starting with a digit is exactly the literal there |
| Grammar.FactVariable | parser.py:152-161 | a factor starting with a letter is exactly the variable there |
| Grammar.ParenUnclosedFails | parser.py:132-135 | a `(` whose expression fails, or is not followed by `)` right at its remainder, makes the whole factor fail |
| Grammar.SignFails | parser.py:138-144 | a sign whose operand is not a factor makes the whole factor fail |
| Grammar.TermProduct | parser.py:115-118 | a factor followed by `*` and a term gives the product of the factor and the whole remaining term, so `*` is right-associative |
| Grammar.TermAlone | parser.py:111-120 | when no `*` follows, or the term after it fails, the term is the factor alone and the `*` stays unconsumed |
| Grammar.ExpressionSum | parser.py:84-87 | a term followed by `+` and an expression gives their sum, with the whole remaining expression as the right operand |
| Grammar.ExpressionDifference | parser.py:90-93 | a term followed by `-` and an expression gives the term minus the whole remaining expression, so `-` is right-associative |
| Grammar.ExpressionAlone | parser.py:80-95 | when no `+` or `-` follows, or the expression after it fails, the expression is the term alone and the operator stays unconsumed |
| Grammar.ExpressionSuffix | parser.py:69-97 | the remainder of a successful expression is a suffix of its input |
| Grammar.ExpressionAtSuffix | parser.py:78-97 | the same, for the body after the leading `lstrip` |
| Grammar.TermSuffix | parser.py:100-122 | the remainder of a successful term is a suffix of its input |
| Grammar.TermAtSuffix | parser.py:109-122 | the same, for the body after the leading `lstrip` |
| Grammar.FactSuffix | parser.py:125-163 | the remainder of a successful factor is a suffix of its input |
| Grammar.FactAtSuffix | parser.py:131-163 | the same, for the body after the leading `lstrip` |
| Grammar.ParenSuffix | parser.py:132-135 | the remainder after `( expression )` is a suffix of the text |
| Grammar.SignSuffix | parser.py:138-144 | the remainder after a signed factor is a suffix of the text |
| Grammar.LeafSuffix | parser.py:146-161 | the remainders of the literal and identifier alternatives are suffixes of the text |
| Statements.Assignment | parser.py:31-66 | a successful assignment consumes at least one character of the stripped input |
| Statements.AssignmentAt | parser.py:39-66 | the same, for the body after the leading `lstrip` |
| Statements.Program | parser.py:17-28 | running a program never removes a variable: the final environment has every name of the initial one |
| Statements.AssignmentSteps | parser.py:37-64 | name, `=`, an expression and `;` bind the name to the expression's value and leave the text after `;` |
| Statements.AssignmentShape | parser.py:31-66 | a successful assignment binds an identifier, and the text it leaves comes right after a `;` at the end of its input |
| Statements.AssignmentAtShape | parser.py:39-66 | the same, for the body after the leading `lstrip` |
| Statements.TrailingSpaceRejected | parser.py:21-25 | text made only of whitespace, but not empty, is rejected and leaves the environment unchanged |
| Statements.ProgramSkipsSpace | parser.py:37 | whitespace in front of a non-empty program changes neither the verdict nor the environment |
| Statements.ProgramRun | parser.py:17-28 | the outcome is the longest run of successive assignments. It is accepted exactly when that run reads the whole text. In both cases the environment holds every binding of the run, so nothing is rolled back |
| Statements.RunAccepted | parser.py:21-28 | text that successive assignments read to the end is accepted, with exactly the bindings of those assignments |
| Statements.Variables.constructor | parser.py:8 | the dictionary starts empty |
| Statements.ParseAssignment | parser.py:31-66 | returns the remaining text exactly when the assignment succeeds. Then the dictionary changes at that one name only, overwriting it; on failure it is unchanged |
| Statements.ParseProgram | parser.py:17-28 | the loop's verdict and final dictionary are exactly those of `Program` applied to the initial dictionary |
| Reference.DecimalString | parser.py:168-170 | the decimal notation of a natural number is a literal token whose value is that number; `0` is written only as `0` |
| Reference.LiteralOfDecimal | parser.py:172-187 | `parse_literal` reads back the decimal notation of every natural number |
| Reference.FactRoundTrip | parser.py:125-163 | parsing the printed text of any factor tree gives the tree's value and leaves exactly the text after it |
| Reference.SignRoundTrip | parser.py:138-144 | the same, for signed factors |
| Reference.ParenRoundTrip | parser.py:132-135 | the same, for a parenthesised expression |
| Reference.TermRoundTrip | parser.py:100-122 | parsing the printed text of any term tree gives the tree's value and leaves the following text, stripped |
| Reference.ProductRoundTrip | parser.py:115-118 | the same, for a product |
| Reference.ExpRoundTrip | parser.py:69-97 | parsing the printed text of any expression tree gives the tree's value under right-associative evaluation and leaves the following text, stripped |
| Reference.SumRoundTrip | parser.py:84-87 | the same, for a sum |
| Reference.DifferenceRoundTrip | parser.py:90-93 | the same, for a difference |
| Reference.SumOperands | parser.py:78-93 | in a printed sum or difference, the left term is read first, the operator comes next, and the rest of the expression follows it |
| Reference.UndefinedFails | parser.py:153-158 | an identifier with no value in the environment makes the factor, the term and the expression fail |
| Reference.OperatorBeforeUndefined | parser.py:84-95 | in `e + y` or `e - y` with `y` unbound, the expression succeeds with the value of `e` and leaves the operator and `y` unread |
| Reference.UndefinedStatement | parser.py:54-57 | an assignment whose right-hand side is an unbound variable fails |
| Reference.NoOperand | parser.py:125-163 | text that does not begin with a digit, a letter, a sign or `(` fails as a factor, a term and an expression |
| Reference.AssignmentRoundTrip | parser.py:31-66 | a printed statement is read back as the binding of its name to the value of its expression, leaving exactly the text after the `;` |
| Reference.StatementOf | parser.py:40-66 | after `name = `, the assignment succeeds exactly when the expression does and a `;` follows it; the binding is the name with the expression's value |
| Reference.NameThenEquals | parser.py:40-51 | after a name and ` = `, the name is read and the expression starts right after `=` |
| Reference.ValueThenSemicolon | parser.py:54-64 | a printed expression followed by `;` gives its value and leaves the `;` for the semicolon test |
| Reference.StatementThenLine | parser.py:21-25 | a printed statement, a line break and more text: the program binds the statement's name to its value and goes on with the text after the line break |
| Reference.ProgramThen | parser.py:21-25 | running printed statements then some text is the same as running that text in the environment the statements produce |
| Reference.ProgramRoundTrip | parser.py:17-28 | a printed program is accepted with the environment that executing its statements in order gives |
| Reference.NoRollback | parser.py:21-25 | when a statement fails after successful ones, the program is rejected and keeps the earlier bindings |
| Examples.LeadingZero | parser.py:174-175 | `007` reads as 0 and leaves `07` |
| Examples.LeadingZeroProgram | parser.py:60-66 | `x = 007;` is rejected at the `;` test and binds nothing |
| Examples.RightAssociative | parser.py:90-93 | `10 - 3 - 2` is 9 |
| Examples.Precedence | parser.py:115-118 | `2 + 3 * 4` is 14 |
| Examples.Parenthesised | parser.py:132-135 | `(2 + 3) * 4` is 20 |
| Examples.UnarySigns | parser.py:138-144 | `--5` is 5 and `-+5` is -5 |
| Examples.UnclosedParenthesis | parser.py:132-135 | `(1` is not a factor (the model's clean failure; the source raises, see Findings) |
| Examples.OperatorLeftUnread | parser.py:84-95 | `1 + y` with `y` unbound is 1 and leaves `+ y` |
| Examples.UndefinedVariable | parser.py:153-158 | `x = y;` with `y` unbound is rejected |
| Examples.TwoStatements | parser.py:21-25 | two printed statements run one after the other |
| Examples.ForwardReference | parser.py:21-25 | `x = 1;` then `y = x + 1;` gives `x` 1 and `y` 2 |
| Examples.Overwrite | parser.py:62-63 | a second assignment to `x` overwrites the first |
| Examples.TrailingSpace | parser.py:21-25 | `x = 1; ` is rejected but keeps `x` (the model's clean failure; the source raises, see Findings) |
| Examples.FailureKeepsEarlierBindings | parser.py:21-25 | `x = 1;` then a failing `y = z;` is rejected, and `x` stays bound |
| Examples.MissingExpression | parser.py:54-57 | `x = ;` is rejected (the model's clean failure; the source raises, see Findings) |
| Examples.MissingEquals | parser.py:47-49 | `x 5;` is rejected |
| Examples.MissingName | parser.py:40-44 | `= 5;` is rejected |
| Examples.NameAlone | parser.py:47-49 | `x` is rejected (the model's clean failure; the source raises, see Findings) |
| Examples.UnderscoreStart | parser.py:201-202 | `_x` is not an identifier, so `_x = 1;` is rejected |
| AsWritten.IdentifierAsWritten | parser.py:196-202 | `parse_identifier` as written raises an IndexError exactly when the stripped text is empty, and otherwise returns what `Identifier` returns |
| AsWritten.VariableAsWritten | parser.py:152-163 | the identifier alternative as written raises exactly when no identifier is read: an IndexError on empty text, and otherwise a TypeError. When it returns, it returns what `Variable` returns |
| AsWritten.ExpressionAsWritten | parser.py:69-97 | `parse_expression` as written returns exactly what `Expression` returns whenever it returns; when it raises, `Expression` fails or stops right before a `+`, `-` or `*` |
| AsWritten.ExpressionAtAsWritten | parser.py:78-97 | the same, for the body after the leading `lstrip` |
| AsWritten.TermAsWritten | parser.py:100-122 | `parse_term` as written returns exactly what `Term` returns whenever it returns; when it raises, `Term` fails or stops right before a `*` |
| AsWritten.TermAtAsWritten | parser.py:109-122 | the same, for the body after the leading `lstrip` |
| AsWritten.FactAsWritten | parser.py:125-163 | `parse_fact` as written returns exactly what `Fact` returns whenever it returns; when it raises, `Fact` fails |
| AsWritten.FactAtAsWritten | parser.py:131-163 | the same, for the body after the leading `lstrip` |
| AsWritten.AssignmentAsWritten | parser.py:37-66 | `parse_assignment` as written raises exactly when the stripped text is empty, when nothing follows the name, or when the expression after `=` raises. The first two are IndexErrors. When it raises, `Assignment` fails; when it returns, it returns what `Assignment` returns |
| AsWritten.ProgramAsWritten | parser.py:17-28 | `parse_program` as written, where an exception ends the run; when it returns, no variable has been removed |
| AsWritten.ProgramAgrees | parser.py:17-28 | whenever the program as written returns, it returns the model's outcome (with the IndexError and TypeError as its only exceptions) |
| AsWritten.RaisedIsRejected | parser.py:17-28 | whenever the program as written raises an IndexError or a TypeError, whether in `parse_identifier`, at the `=` test or in the message of `parse_fact`, the model rejects it |
| AsWritten.AssignedThenGoesOn | parser.py:21-25 | when the model reads an assignment, the program as written binds it and goes on with the same rest of the text |
| AsWritten.TrailingSpaceRaises | parser.py:201 | `x = 1; ` raises an IndexError as written; the model rejects it and keeps `x` |
| AsWritten.NameAloneRaises | parser.py:48 | `x` raises an IndexError as written; the model rejects it |
| AsWritten.MissingOperandRaises | parser.py:156-157 | `x = ;` raises a TypeError as written, because the factor rule reaches its identifier alternative on `;`; the model's factor fails there and the program is rejected |
| AsWritten.MissingOperandAtEndRaises | parser.py:153 | `x = ` raises an IndexError as written, because the factor rule calls `parse_identifier` on empty text; the model rejects the program |
| AsWritten.RaisedAfterName | parser.py:54-57 | an exception raised by the expression after `x = ` ends the statement with that exception |

## Left out

- `main` (parser.py:2-14) reads the console and prints the variables. It is
  I/O only, and it is the only place where the dictionary's insertion order
  shows. The environment is a `map`, which has no order.
- The diagnostic `print` at parser.py:157 is not modelled. An unbound
  variable is a plain failure, not told apart from other failures.
- `str.lstrip()` strips all Unicode whitespace. `Text.IsSpace` is a subset:
  space, tab, line feed, vertical tab, form feed, carriage return. The ASCII
  separators U+001C to U+001F, which Python also strips, are not in it, nor
  is any non-ASCII whitespace.
- The IndexErrors and TypeErrors of the source are failures in the model
  (see Findings). `AsWritten` shows when the source raises. When it returns,
  it returns the model's result, and when it raises, the model rejects the
  program. This holds apart from RecursionError and the ValueError of `int`
  on long literals, neither of which is modelled (next lines).
- Python's recursion limit is not modelled. Each `+` or `-` (parser.py:85,
  :91), each `*` (parser.py:116) and each unary sign (parser.py:139) adds a
  stack frame, and each `(` adds three (parser.py:133, :78, :109). With the
  default limit of 1000 frames, a chain of about a thousand operands, or
  about 330 nested parentheses, raises RecursionError. The model accepts such
  programs as if the stack were unbounded.
- Scanners.DecimalValue, Scanners.Literal: the interpreter's limit of 4300
  digits on converting a string to an `int` (CPython 3.11 and later, and the
  3.7.14, 3.8.14, 3.9.14 and 3.10.7 releases) is not modelled. The call at
  parser.py:187 raises ValueError on a literal with more digits, for example
  `x = ` followed by 4301 `1`s and `;`. The model reads the literal's value
  and accepts such a program. `AsWritten` does not model this exception
  either, so it returns there.
- Grammar.Expression, Grammar.Term and Grammar.Fact state only lengths and
  whitespace in their own contracts. The fuller properties are the step
  lemmas, the suffix lemmas and the round trips beside them.
- The docstring of `parse_identifier` (parser.py:193) lists `_` as a letter.
  The code at parser.py:201 refuses `_` first, and the model follows the code.

## Findings

| source | as written | input that shows it | evidently intended | confidence | as-written member | corrected member |
|---|---|---|---|---|---|---|
| parser.py:201 | the first character of the stripped text is read before checking that there is one | `x = 1; ` (the second pass of the program loop reaches `parse_identifier` with empty text), also `x = ` (`AsWritten.MissingOperandAtEndRaises`) | fail like any other text that does not start with a letter | not executed | AsWritten.TrailingSpaceRaises | Scanners.Identifier |
| parser.py:48 | the character after the name is read before checking that there is one | `x` | fail, as for any text without `=` | not executed | AsWritten.NameAloneRaises | Statements.Assignment |
| parser.py:156-157 | when `parse_identifier` fails, the name is `None`; `None` is never a key, so the message `None + " is not initialized"` raises a TypeError | `x = ;`, also `(1` as a factor | fail without a message, since there is no identifier | not executed | AsWritten.MissingOperandRaises | Grammar.Variable |
