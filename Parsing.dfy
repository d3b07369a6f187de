/**
 * parser/parser.go: a parser that keeps the current and the next token
 * and pulls tokens from the lexer one at a time.  Only IDENT has a prefix
 * parse function, so a call's arguments can only be further calls: an
 * identifier argument is parsed without moving on and the argument loop
 * never ends, and any other token panics.
 *
 * The functions below say what each parse function answers from a given
 * parser state; class `Parser` keeps the Go struct's fields, drives the
 * `Lexer` object, and is proved to follow them.
 */
module Parsing {
  import opened Common
  import opened GoText
  import opened Lexing
  import opened Syntax

  /** The current token, the next token, and the lexer's read index. */
  datatype PState = PState(cur: Token, peek: Token, n: nat)

  /** What a parse function does: returns a value in a new state, panics, or never returns. */
  datatype Parsed<T> = Parsed(value: T, s: PState) | Panicked(msg: string) | Hangs

  const MissingClose := "Missing closing )"

  /**
   * What holds of every parser state: the lexer is primed, a pending token
   * other than EOF was read from within the input, and every IDENT is one
   * of the four operators.
   */
  predicate Inv(input: string, s: PState)
  {
    s.n >= 1 &&
    (s.peek.kind != Eof ==> s.n <= |input| + 1) &&
    (s.cur.kind != Eof ==> s.n <= |input| + 2) &&
    (s.cur.kind == Ident ==> Operator(s.cur.literal)) &&
    (s.peek.kind == Ident ==> Operator(s.peek.literal))
  }

  /** How much input is left to lex; it shrinks on every step taken from a token other than EOF. */
  function Left(input: string, s: PState): nat
  {
    if s.n <= |input| + 2 then |input| + 3 - s.n else 0
  }

  /** `%d:%d` of a token's row and column. */
  function At(t: Token): string
  {
    DecimalString(t.row) + ":" + DecimalString(t.column)
  }

  /** `nextToken`: the next token becomes current and the lexer is asked for another. */
  function Advance(input: string, s: PState): (r: Outcome<PState>)
    requires Inv(input, s)
    ensures r.Ok? ==> Inv(input, r.value) && r.value.cur == s.peek && r.value.n > s.n
    ensures r.Ok? && s.cur.kind != Eof ==> Left(input, r.value) < Left(input, s)
  {
    var (t, n') := NextTokenSpec(input, s.n);
    if t.Fault? then Fault(t.msg) else Ok(PState(s.peek, t.value, n'))
  }

  /** `NewParser` on a lexer at read index `n`: the first two tokens. */
  function Start(input: string, n: nat): (r: Outcome<PState>)
    requires n >= 1
    ensures r.Ok? ==> Inv(input, r.value)
  {
    var (t1, n1) := NextTokenSpec(input, n);
    if t1.Fault? then Fault(t1.msg)
    else
      var (t2, n2) := NextTokenSpec(input, n1);
      if t2.Fault? then Fault(t2.msg) else Ok(PState(t1.value, t2.value, n2))
  }

  /** `parseExpression`: IDENT becomes an Identifier, without moving on; anything else panics. */
  function ExpressionSpec(s: PState): (r: Parsed<Ast>)
  {
    if s.cur.kind == Ident then Parsed(Identifier(Name(s.cur.literal, s.cur)), s)
    else Panicked("No parse function for literal " + s.cur.literal + " and TokenType " +
                  DecimalString(TypeNumber(s.cur.kind)) + " at " + At(s.cur))
  }

  /** A call whose arguments are calls: the only nodes a call can hold. */
  predicate CallTree(a: Ast)
  {
    a.ProcedureCall? && Operator(a.name) && a.token.kind == Ident && a.token.literal == a.name &&
    forall i :: 0 <= i < |a.arguments| ==> CallTree(a.arguments[i])
  }

  /**
   * `parseStatement`: `(` starts a call, EOF gives nothing, anything else
   * is an expression.  An identifier leaves the state as it was; a call
   * moves on.
   */
  function StatementSpec(input: string, s: PState): (r: Parsed<Option<Ast>>)
    requires Inv(input, s)
    ensures r.Parsed? ==> Inv(input, r.s) && r.s.n >= s.n
    ensures r.Parsed? ==> (r.value.None? <==> s.cur.kind == Eof)
    ensures r.Parsed? && s.cur.kind == Ident ==> r.value == Some(Identifier(Name(s.cur.literal, s.cur))) && r.s == s
    ensures r.Parsed? && s.cur.kind != Ident && s.cur.kind != Eof ==>
              s.cur.kind == LParen && CallTree(r.value.value) && Left(input, r.s) < Left(input, s)
    decreases Left(input, s), 2
  {
    match s.cur.kind
    case LParen =>
      (match Advance(input, s)
       case Fault(m) => Panicked(m)
       case Ok(s1) =>
         match CallSpec(input, s1)
         case Parsed(c, s2) => Parsed(Some(c), s2)
         case Panicked(m) => Panicked(m)
         case Hangs => Hangs)
    case Eof => Parsed(None, s)
    case _ =>
      match ExpressionSpec(s)
      case Parsed(e, s1) => Parsed(Some(e), s1)
      case Panicked(m) => Panicked(m)
      case Hangs => Hangs
  }

  /**
   * `parseCallExpression`, after `(`: the name must be an IDENT; `)` right
   * after it ends the call and is left current; otherwise the arguments
   * follow.  A parsed call has moved past its name.
   */
  function CallSpec(input: string, s: PState): (r: Parsed<Ast>)
    requires Inv(input, s)
    ensures r.Parsed? ==> Inv(input, r.s) && r.s.n > s.n && Left(input, r.s) < Left(input, s)
    ensures r.Parsed? ==> s.cur.kind == Ident && CallTree(r.value) && r.value.token == s.cur
    decreases Left(input, s), 1
  {
    if s.cur.kind == RParen then Panicked("Unexpected ) at " + At(s.cur))
    else if s.cur.kind != Ident then Panicked("Unexpected value " + s.cur.literal + " at " + At(s.cur))
    else
      match Advance(input, s)
      case Fault(m) => Panicked(m)
      case Ok(s1) =>
        if s1.cur.kind == RParen then Parsed(ProcedureCall(s.cur.literal, [], s.cur), s1)
        else ArgsSpec(input, s1, s.cur, [])
  }

  /**
   * The argument loop of `parseCallExpression`: statements up to `)`,
   * which is consumed; EOF panics; an IDENT is parsed again and again
   * without end.
   */
  function ArgsSpec(input: string, s: PState, head: Token, args: seq<Ast>): (r: Parsed<Ast>)
    requires Inv(input, s)
    requires head.kind == Ident && Operator(head.literal)
    requires forall i :: 0 <= i < |args| ==> CallTree(args[i])
    ensures r.Parsed? ==> Inv(input, r.s) && r.s.n > s.n
    ensures r.Parsed? ==> CallTree(r.value) && r.value.token == head &&
                          |r.value.arguments| >= |args| && r.value.arguments[..|args|] == args
    decreases Left(input, s), 3
  {
    if s.cur.kind == RParen then
      match Advance(input, s)
      case Fault(m) => Panicked(m)
      case Ok(s1) => Parsed(ProcedureCall(head.literal, args, head), s1)
    else if s.cur.kind == Eof then Panicked(MissingClose)
    else if s.cur.kind == Ident then Hangs
    else
      match StatementSpec(input, s)
      case Panicked(m) => Panicked(m)
      case Hangs => Hangs
      case Parsed(st, s1) =>
        var r := ArgsSpec(input, s1, head, args + [st.value]);
        assert r.Parsed? ==> (args + [st.value])[..|args|] == args;
        r
  }

  /** The loop of `ParseProgram`: a statement, then `nextToken`, until EOF is current. */
  function ProgramSpec(input: string, s: PState, ast: seq<Ast>): (r: Parsed<seq<Ast>>)
    requires Inv(input, s)
    requires forall i :: 0 <= i < |ast| ==> ast[i].Identifier? || CallTree(ast[i])
    ensures r.Parsed? ==> r.s.cur.kind == Eof && |r.value| >= |ast| && r.value[..|ast|] == ast
    ensures r.Parsed? ==> forall i :: 0 <= i < |r.value| ==> r.value[i].Identifier? || CallTree(r.value[i])
    decreases Left(input, s)
  {
    if s.cur.kind == Eof then Parsed(ast, s)
    else
      match StatementSpec(input, s)
      case Panicked(m) => Panicked(m)
      case Hangs => Hangs
      case Parsed(st, s1) =>
        var ast' := if st.Some? then ast + [st.value] else ast;
        match Advance(input, s1)
        case Fault(m) => Panicked(m)
        case Ok(s2) =>
          var r := ProgramSpec(input, s2, ast');
          assert r.Parsed? ==> ast'[..|ast|] == ast;
          r
  }

  /** `NewParser(NewLexer(input)).ParseProgram()`. */
  function ParseProgramSpec(input: string): (r: Parsed<seq<Ast>>)
    ensures r.Parsed? ==> forall i :: 0 <= i < |r.value| ==> r.value[i].Identifier? || CallTree(r.value[i])
  {
    match Start(input, 1)
    case Fault(m) => Panicked(m)
    case Ok(s) => ProgramSpec(input, s, [])
  }

  /** The Go `Parser` struct; `prefixParseFns` is the fixed table of `ExpressionSpec`. */
  class Parser {
    const lex: Lexer
    var currentToken: Token
    var peekToken: Token

    function State(): PState
      reads this, lex
    {
      PState(currentToken, peekToken, lex.readPosition)
    }

    predicate Valid()
      reads this, lex
    {
      lex.Valid() && Inv(lex.input, State())
    }

    constructor (lex: Lexer, cur: Token, peek: Token)
      requires lex.Valid() && Inv(lex.input, PState(cur, peek, lex.readPosition))
      ensures this.lex == lex && State() == PState(cur, peek, lex.readPosition) && Valid()
    {
      this.lex := lex;
      currentToken := cur;
      peekToken := peek;
    }

    /** `NewParser`: reads the first two tokens from `lex`. */
    static method NewParser(lex: Lexer) returns (r: Outcome<Parser>)
      requires lex.Valid()
      modifies lex
      ensures lex.Valid()
      ensures var st := Start(lex.input, old(lex.readPosition));
              (r.Fault? <==> st.Fault?) && (r.Fault? ==> r.msg == st.msg) &&
              (r.Ok? ==> fresh(r.value) && r.value.lex == lex && r.value.Valid() && r.value.State() == st.value)
    {
      var t1 := lex.NextToken();
      if t1.Fault? {
        return Fault(t1.msg);
      }
      var t2 := lex.NextToken();
      if t2.Fault? {
        return Fault(t2.msg);
      }
      var p := new Parser(lex, t1.value, t2.value);
      r := Ok(p);
    }

    /** `nextToken`. */
    method NextToken() returns (r: Outcome<PState>)
      requires Valid()
      modifies this, lex
      ensures Valid() && r == Advance(lex.input, old(State())) && (r.Ok? ==> State() == r.value)
    {
      var t := lex.NextToken();
      if t.Fault? {
        return Fault(t.msg);
      }
      currentToken := peekToken;
      peekToken := t.value;
      r := Ok(State());
    }

    /** `parseExpression`. */
    method ParseExpression() returns (r: Parsed<Ast>)
      requires Valid()
      ensures r == ExpressionSpec(State())
    {
      if currentToken.kind == Ident {
        r := Parsed(Identifier(Name(currentToken.literal, currentToken)), State());
      } else {
        r := Panicked("No parse function for literal " + currentToken.literal + " and TokenType " +
                      DecimalString(TypeNumber(currentToken.kind)) + " at " + At(currentToken));
      }
    }

    /** `parseStatement`. */
    method ParseStatement() returns (r: Parsed<Option<Ast>>)
      requires Valid()
      modifies this, lex
      ensures Valid() && r == StatementSpec(lex.input, old(State())) && (r.Parsed? ==> r.s == State())
      decreases Left(lex.input, State()), 2
    {
      if currentToken.kind == LParen {
        var a := NextToken();
        if a.Fault? {
          return Panicked(a.msg);
        }
        var c := ParseCallExpression();
        match c
        case Parsed(v, s) => r := Parsed(Some(v), s);
        case Panicked(m) => r := Panicked(m);
        case Hangs => r := Hangs;
      } else if currentToken.kind == Eof {
        r := Parsed(None, State());
      } else {
        var e := ParseExpression();
        match e
        case Parsed(v, s) => r := Parsed(Some(v), s);
        case Panicked(m) => r := Panicked(m);
        case Hangs => r := Hangs;
      }
    }

    /**
     * `parseCallExpression`.  Where Go would run the argument loop for ever
     * on an identifier, this returns `Hangs`.
     */
    method ParseCallExpression() returns (r: Parsed<Ast>)
      requires Valid()
      modifies this, lex
      ensures Valid() && r == CallSpec(lex.input, old(State())) && (r.Parsed? ==> r.s == State())
      decreases Left(lex.input, State()), 1
    {
      if currentToken.kind == RParen {
        return Panicked("Unexpected ) at " + At(currentToken));
      }
      if currentToken.kind != Ident {
        return Panicked("Unexpected value " + currentToken.literal + " at " + At(currentToken));
      }
      var head := currentToken;
      var a := NextToken();
      if a.Fault? {
        return Panicked(a.msg);
      }
      if currentToken.kind == RParen {
        return Parsed(ProcedureCall(head.literal, [], head), State());
      }
      ghost var s1 := State();
      var args: seq<Ast> := [];
      while currentToken.kind != RParen && currentToken.kind != Eof
        invariant Valid() && head == old(State()).cur
        invariant Left(lex.input, State()) < Left(lex.input, old(State()))
        invariant forall i :: 0 <= i < |args| ==> CallTree(args[i])
        invariant ArgsSpec(lex.input, State(), head, args) == ArgsSpec(lex.input, s1, head, [])
        decreases Left(lex.input, State())
      {
        if currentToken.kind == Ident {
          return Hangs;
        }
        var st := ParseStatement();
        if st.Panicked? {
          return Panicked(st.msg);
        }
        if st.Hangs? {
          return Hangs;
        }
        args := args + [st.value.value];
      }
      if currentToken.kind != RParen {
        return Panicked(MissingClose);
      }
      a := NextToken();
      if a.Fault? {
        return Panicked(a.msg);
      }
      r := Parsed(ProcedureCall(head.literal, args, head), State());
    }

    /** `ParseProgram`. */
    method ParseProgram() returns (r: Parsed<seq<Ast>>)
      requires Valid()
      modifies this, lex
      ensures Valid() && r == ProgramSpec(lex.input, old(State()), []) && (r.Parsed? ==> r.s == State())
    {
      ghost var s0 := State();
      var ast: seq<Ast> := [];
      while currentToken.kind != Eof
        invariant Valid()
        invariant forall i :: 0 <= i < |ast| ==> ast[i].Identifier? || CallTree(ast[i])
        invariant ProgramSpec(lex.input, State(), ast) == ProgramSpec(lex.input, s0, [])
        decreases Left(lex.input, State())
      {
        var st := ParseStatement();
        if st.Panicked? {
          return Panicked(st.msg);
        }
        if st.Hangs? {
          return Hangs;
        }
        if st.value.Some? {
          ast := ast + [st.value.value];
        }
        var a := NextToken();
        if a.Fault? {
          return Panicked(a.msg);
        }
      }
      r := Parsed(ast, State());
    }
  }
}
