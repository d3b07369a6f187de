/**
 * What the parser of parser/parser.go does with the inputs its tests and
 * its structure call for: an operator alone is an identifier and prints
 * back as itself, a number argument panics, an identifier argument never
 * returns, a chain of calls (each the last argument of the one before)
 * printed by `Inspect` reads back as the same chain (proved in
 * ChainRoundTrip.dfy), and a call that is not the last argument leaves
 * its `)` to end the caller, so two call arguments do not read back.
 */
module ParsingProps {
  import opened Common
  import opened GoText
  import opened Lexing
  import opened LexingProps
  import opened Syntax
  import opened Parsing

  /** An identifier as the next argument: `parseIdentifier` does not move on, so the loop never ends. */
  lemma IdentifierArgumentHangs(input: string, s: PState)
    requires Inv(input, s) && s.cur.kind == Ident && s.peek.kind == Ident
    ensures CallSpec(input, s).Hangs? || CallSpec(input, s).Panicked?
    ensures Advance(input, s).Ok? ==> CallSpec(input, s) == Hangs
  {
  }

  /** A number where a statement is expected has no prefix parse function and panics. */
  lemma NumberStatementPanics(input: string, s: PState)
    requires Inv(input, s) && s.cur.kind == Digit
    ensures StatementSpec(input, s) == Panicked(NoParseForNumber(s.cur))
  {
  }

  /** `)` right after `(` panics. */
  lemma EmptyCallPanics(input: string, s: PState)
    requires Inv(input, s) && s.cur.kind == LParen && s.peek.kind == RParen
    ensures Advance(input, s).Ok? ==> StatementSpec(input, s) == Panicked("Unexpected ) at " + At(s.peek))
  {
  }

  const Star := Token(0, 0, Ident, "*")
  const StarEof := Token(0, 0, Eof, "EOF")

  lemma StarTokens()
    ensures NextTokenSpec("*", 1) == (Ok(Star), 2)
    ensures NextTokenSpec("*", 2) == (Ok(StarEof), 3)
    ensures NextTokenSpec("*", 3) == (Ok(StarEof), 4)
  {
    assert SkipWS("*", 1) == 1;
    assert SkipWS("*", 2) == 2;
    assert SkipWS("*", 3) == 3;
  }

  lemma StarProgram()
    ensures ProgramSpec("*", PState(Star, StarEof, 3), []) == Parsed([Identifier(Name("*", Star))], PState(StarEof, StarEof, 4))
  {
    StarTokens();
    var s := PState(Star, StarEof, 3);
    assert StatementSpec("*", s) == Parsed(Some(Identifier(Name("*", Star))), s);
    assert Advance("*", s) == Ok(PState(StarEof, StarEof, 4));
  }

  /** The parser test `*`: one Identifier, which prints back as `*`. */
  lemma ParseIdentifierTest()
    ensures ParseProgramSpec("*") == Parsed([Identifier(Name("*", Star))], PState(StarEof, StarEof, 4))
    ensures Inspect(Program([Identifier(Name("*", Star))])) == "*"
  {
    StarTokens();
    assert Start("*", 1) == Ok(PState(Star, StarEof, 3));
    StarProgram();
    var p := [Identifier(Name("*", Star))];
    assert seq(|p|, i requires 0 <= i < |p| => Inspect(p[i])) == ["*"];
    assert Concat(["*"]) == "*" + Concat([]);
  }

  const PairsOpen := Token(0, 0, LParen, "(")
  const PairsPlus := Token(1, 0, Ident, "+")
  const PairsOne := Token(3, 0, Digit, "1")

  /** The panic of a number where an expression is expected: `parseExpression` has no prefix parse function for it. */
  function NoParseForNumber(tok: Token): string
  {
    "No parse function for literal " + tok.literal + " and TokenType 7 at " + At(tok)
  }

  lemma OneMessage()
    ensures NoParseForNumber(PairsOne) == "No parse function for literal 1 and TokenType 7 at 0:3"
  {
    assert DecimalString(3) == "3" && DecimalString(0) == "0";
  }

  lemma PairsSteps()
    ensures Start(Pairs, 1) == Ok(PState(PairsOpen, PairsPlus, 3))
    ensures Advance(Pairs, PState(PairsOpen, PairsPlus, 3)) == Ok(PState(PairsPlus, PairsOne, 5))
    ensures Advance(Pairs, PState(PairsPlus, PairsOne, 5)) == Ok(PState(PairsOne, Token(5, 0, Digit, "1"), 7))
  {
    LexingPairs();
  }

  /** A number as the next argument of a call panics like a number statement. */
  lemma NumberArgumentPanics(input: string, s: PState, head: Token, args: seq<Ast>)
    requires Inv(input, s) && s.cur.kind == Digit
    requires head.kind == Ident && Operator(head.literal)
    requires forall i :: 0 <= i < |args| ==> CallTree(args[i])
    ensures ArgsSpec(input, s, head, args) == Panicked(NoParseForNumber(s.cur))
  {
    NumberStatementPanics(input, s);
  }

  /**
   * The parser test `(+ 1 1 1)` does not get its text back: the first `1`
   * is an argument with no prefix parse function, and the parser panics
   * on it.
   */
  lemma ParseListTestPanics()
    ensures ParseProgramSpec(Pairs) == Panicked(NoParseForNumber(PairsOne))
    ensures NoParseForNumber(PairsOne) == "No parse function for literal 1 and TokenType 7 at 0:3"
  {
    PairsSteps();
    NumberArgumentPanics(Pairs, PState(PairsOne, Token(5, 0, Digit, "1"), 7), PairsPlus, []);
    var s0 := PState(PairsOpen, PairsPlus, 3);
    assert CallSpec(Pairs, PState(PairsPlus, PairsOne, 5)) == Panicked(NoParseForNumber(PairsOne));
    assert StatementSpec(Pairs, s0) == Panicked(NoParseForNumber(PairsOne));
    OneMessage();
  }

  /** The text of a call with two calls as arguments, as `Inspect` prints it. */
  const TwoCalls := "(+ (- ) (* ))"

  function KindOf(c: char): TokenType
  {
    if c == '(' then LParen else if c == ')' then RParen else Ident
  }

  /** A parenthesis or operator right at read index `n`. */
  lemma TwoCallsByte(n: nat)
    requires n in {1, 2, 5, 10, 13}
    ensures NextTokenSpec(TwoCalls, n) == (Ok(Token(n - 1, 0, KindOf(TwoCalls[n - 1]), [TwoCalls[n - 1]])), n + 1)
  {
    assert TwoCalls[n - 1] in "()+-*/";
    SingleByteToken(TwoCalls, n);
    assert Rows(TwoCalls, n) == 0 && Cols(TwoCalls, n) == n - 1 by {
      SameLine(TwoCalls, 0, n);
    }
  }

  /** A parenthesis or operator after one space. */
  lemma TwoCallsAfterSpace(n: nat)
    requires n in {3, 6, 8, 11}
    ensures NextTokenSpec(TwoCalls, n) == (Ok(Token(n, 0, KindOf(TwoCalls[n]), [TwoCalls[n]])), n + 2)
  {
    assert TwoCalls[n - 1] == ' ' && TwoCalls[n] in "()+-*/";
    AfterBlank(TwoCalls, n);
    SingleByteToken(TwoCalls, n + 1);
    assert Rows(TwoCalls, n + 1) == 0 && Cols(TwoCalls, n + 1) == n by {
      SameLine(TwoCalls, 0, n + 1);
    }
  }

  const Open0 := Token(0, 0, LParen, "(")
  const Plus1 := Token(1, 0, Ident, "+")
  const Open3 := Token(3, 0, LParen, "(")
  const Minus4 := Token(4, 0, Ident, "-")
  const Close6 := Token(6, 0, RParen, ")")
  const Open8 := Token(8, 0, LParen, "(")
  const Star9 := Token(9, 0, Ident, "*")
  const Close11 := Token(11, 0, RParen, ")")
  const Close12 := Token(12, 0, RParen, ")")

  const MinusCall := ProcedureCall("-", [], Minus4)
  const PlusCall := ProcedureCall("+", [MinusCall], Plus1)
  /** The panic of a stray `)`: `parseExpression` has no prefix parse function for it. */
  function NoParseForClose(tok: Token): string
  {
    "No parse function for literal " + tok.literal + " and TokenType 1 at " + At(tok)
  }

  /** The tokens of `TwoCalls`, as the parser's steps over them. */
  predicate LexesAsTwoCalls(t: string)
  {
    |t| == 13 &&
    Start(t, 1) == Ok(PState(Open0, Plus1, 3)) &&
    Advance(t, PState(Open0, Plus1, 3)) == Ok(PState(Plus1, Open3, 5)) &&
    Advance(t, PState(Plus1, Open3, 5)) == Ok(PState(Open3, Minus4, 6)) &&
    Advance(t, PState(Open3, Minus4, 6)) == Ok(PState(Minus4, Close6, 8)) &&
    Advance(t, PState(Minus4, Close6, 8)) == Ok(PState(Close6, Open8, 10)) &&
    Advance(t, PState(Close6, Open8, 10)) == Ok(PState(Open8, Star9, 11)) &&
    Advance(t, PState(Open8, Star9, 11)) == Ok(PState(Star9, Close11, 13)) &&
    Advance(t, PState(Star9, Close11, 13)) == Ok(PState(Close11, Close12, 14))
  }

  lemma TwoCallsSteps()
    ensures LexesAsTwoCalls(TwoCalls)
  {
    TwoCallsByte(1);
    TwoCallsByte(2);
    TwoCallsAfterSpace(3);
    TwoCallsByte(5);
    TwoCallsAfterSpace(6);
    TwoCallsAfterSpace(8);
    TwoCallsByte(10);
    TwoCallsAfterSpace(11);
    TwoCallsByte(13);
  }

  /** The outer call ends at the `)` of its first argument, which was left current. */
  lemma TwoCallsFirstStatement(t: string)
    requires LexesAsTwoCalls(t)
    ensures StatementSpec(t, PState(Open0, Plus1, 3)) == Parsed(Some(PlusCall), PState(Open8, Star9, 11))
  {
    assert CallSpec(t, PState(Minus4, Close6, 8)) == Parsed(MinusCall, PState(Close6, Open8, 10));
    assert StatementSpec(t, PState(Open3, Minus4, 6)) == Parsed(Some(MinusCall), PState(Close6, Open8, 10));
    assert ArgsSpec(t, PState(Close6, Open8, 10), Plus1, [MinusCall]) == Parsed(PlusCall, PState(Open8, Star9, 11));
    assert ArgsSpec(t, PState(Open3, Minus4, 6), Plus1, []) == Parsed(PlusCall, PState(Open8, Star9, 11));
    assert CallSpec(t, PState(Plus1, Open3, 5)) == Parsed(PlusCall, PState(Open8, Star9, 11));
  }

  /** A stray `)` where the program loop expects a statement has no prefix parse function and panics. */
  lemma StrayCloseOfProgramPanics(input: string, s: PState, ast: seq<Ast>)
    requires Inv(input, s) && s.cur.kind == RParen
    requires forall i :: 0 <= i < |ast| ==> ast[i].Identifier? || CallTree(ast[i])
    ensures ProgramSpec(input, s, ast) == Panicked(NoParseForClose(s.cur))
  {
  }

  lemma CloseMessage()
    ensures NoParseForClose(Close11) == "No parse function for literal ) and TokenType 1 at 0:11"
  {
    assert DecimalString(11) == "11" && DecimalString(0) == "0";
  }

  /** After the outer call the program loop moves on to `*`. */
  lemma TwoCallsFirstLoop(t: string)
    requires LexesAsTwoCalls(t)
    ensures ProgramSpec(t, PState(Open0, Plus1, 3), []) == ProgramSpec(t, PState(Star9, Close11, 13), [PlusCall])
  {
    TwoCallsFirstStatement(t);
    assert [] + [PlusCall] == [PlusCall];
  }

  /** `*` is read as an identifier at top level, and the loop moves on to the `)` after it. */
  lemma TwoCallsSecondLoop(t: string)
    requires LexesAsTwoCalls(t)
    ensures ProgramSpec(t, PState(Star9, Close11, 13), [PlusCall]) ==
            ProgramSpec(t, PState(Close11, Close12, 14), [PlusCall, Identifier(Name("*", Star9))])
  {
    var star := Identifier(Name("*", Star9));
    assert StatementSpec(t, PState(Star9, Close11, 13)) == Parsed(Some(star), PState(Star9, Close11, 13));
    assert [PlusCall] + [star] == [PlusCall, star];
  }

  lemma TwoCallsProgram(t: string)
    requires LexesAsTwoCalls(t)
    ensures ProgramSpec(t, PState(Open0, Plus1, 3), []) == Panicked(NoParseForClose(Close11))
  {
    TwoCallsFirstLoop(t);
    TwoCallsSecondLoop(t);
    StrayCloseOfProgramPanics(t, PState(Close11, Close12, 14), [PlusCall, Identifier(Name("*", Star9))]);
  }

  /** `+` applied to the calls `(- )` and `(* )` prints as `TwoCalls`. */
  lemma TwoCallsText()
    ensures Inspect(ProcedureCall("+", [ProcedureCall("-", [], Minus4), ProcedureCall("*", [], Star9)], Plus1)) == TwoCalls
  {
    var a, b := ProcedureCall("-", [], Minus4), ProcedureCall("*", [], Star9);
    assert Inspect(a) == "(- )" && Inspect(b) == "(* )";
    var args := [a, b];
    assert seq(|args|, i requires 0 <= i < |args| => Inspect(args[i])) == ["(- )", "(* )"];
    assert Join(["(- )", "(* )"], " ") == "(- ) (* )";
  }

  lemma TwoCallsParse(t: string)
    requires LexesAsTwoCalls(t)
    ensures ParseProgramSpec(t) == Panicked(NoParseForClose(Close11))
  {
    TwoCallsProgram(t);
  }

  /**
   * A call with two calls as arguments does not read back: the first
   * argument's `)` is left current and taken as the end of the outer
   * call, so `*` becomes a top-level identifier and the next `)` panics.
   */
  lemma TwoCallArgumentsPanic(t: string)
    requires t == Inspect(ProcedureCall("+", [ProcedureCall("-", [], Minus4), ProcedureCall("*", [], Star9)], Plus1))
    ensures t == TwoCalls && ParseProgramSpec(t) == Panicked(NoParseForClose(Close11))
  {
    TwoCallsText();
    TwoCallsSteps();
    TwoCallsParse(t);
  }
}
