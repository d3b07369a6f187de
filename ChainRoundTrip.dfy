/**
 * A round trip through parser/ast.go and parser/parser.go: a chain of
 * calls `(o0 (o1 … (ok )…))`, each holding the next as its only argument,
 * prints as a text that the lexer and parser read back as the same chain,
 * every token stamped at the column it was printed at.
 */
module ChainRoundTrip {
  import opened Common
  import opened GoText
  import opened Lexing
  import opened LexingProps
  import opened Syntax
  import opened Parsing

  predicate Operators(ops: seq<char>)
  {
    forall k :: 0 <= k < |ops| ==> ops[k] in "+-*/"
  }

  /** `(o ` for every operator of the chain. */
  function Opens(ops: seq<char>): (r: string)
    ensures |r| == 3 * |ops|
  {
    if ops == [] then "" else "(" + [ops[0]] + " " + Opens(ops[1..])
  }

  function Closes(n: nat): (r: string)
    ensures |r| == n && forall p :: 0 <= p < n ==> r[p] == ')'
  {
    seq(n, _ => ')')
  }

  /** The text of a chain of `|ops|` calls. */
  function ChainText(ops: seq<char>): string
  {
    Opens(ops) + Closes(|ops|)
  }

  // ---------------------------------------------------------------------
  // The tokens of the chain text

  function OpenTok(k: nat): Token
  {
    Token(3 * k, 0, LParen, "(")
  }

  function OpTok(ops: seq<char>, k: nat): Token
    requires k < |ops|
  {
    Token(3 * k + 1, 0, Ident, [ops[k]])
  }

  function CloseTok(ops: seq<char>, j: nat): Token
  {
    Token(3 * |ops| + j, 0, RParen, ")")
  }

  function EofTok(ops: seq<char>): Token
  {
    Token(4 * |ops| - 1, 0, Eof, "EOF")
  }

  /** The call at depth `k` of the chain, stamped with its operator's token. */
  function ChainFrom(ops: seq<char>, k: nat): Ast
    requires k < |ops|
    decreases |ops| - k
  {
    ProcedureCall([ops[k]], if k + 1 < |ops| then [ChainFrom(ops, k + 1)] else [], OpTok(ops, k))
  }

  // ---------------------------------------------------------------------
  // The parser states met while reading the chain text

  /** `(` of depth `k` is current. */
  function AtOpen(ops: seq<char>, k: nat): PState
    requires k < |ops|
  {
    PState(OpenTok(k), OpTok(ops, k), 3 * k + 3)
  }

  /** The operator of depth `k` is current. */
  function AtOp(ops: seq<char>, k: nat): PState
    requires k < |ops|
  {
    if k + 1 < |ops| then PState(OpTok(ops, k), OpenTok(k + 1), 3 * k + 5)
    else PState(OpTok(ops, k), CloseTok(ops, 0), 3 * |ops| + 2)
  }

  /** The `j`-th closing parenthesis is current. */
  function AtClose(ops: seq<char>, j: nat): PState
    requires j < |ops|
  {
    PState(CloseTok(ops, j), if j + 1 < |ops| then CloseTok(ops, j + 1) else EofTok(ops), 3 * |ops| + j + 3)
  }

  function AtEof(ops: seq<char>): PState
  {
    PState(EofTok(ops), EofTok(ops), 4 * |ops| + 3)
  }

  // ---------------------------------------------------------------------
  // The bytes of the chain text

  lemma {:induction false} OpensAt(ops: seq<char>, k: nat)
    requires k < |ops|
    ensures Opens(ops)[3 * k] == '(' && Opens(ops)[3 * k + 1] == ops[k] && Opens(ops)[3 * k + 2] == ' '
  {
    if k > 0 {
      OpensAt(ops[1..], k - 1);
      assert Opens(ops)[3 * k..3 * k + 3] == Opens(ops[1..])[3 * (k - 1)..3 * (k - 1) + 3];
    }
  }

  lemma TextAt(ops: seq<char>, k: nat)
    requires k < |ops|
    ensures var t := ChainText(ops);
            t[3 * k] == '(' && t[3 * k + 1] == ops[k] && t[3 * k + 2] == ' '
  {
    OpensAt(ops, k);
  }

  lemma {:induction false} OpensHasNoNewline(ops: seq<char>)
    requires Operators(ops)
    ensures forall p :: 0 <= p < |Opens(ops)| ==> Opens(ops)[p] != '\n'
  {
    if ops != [] {
      OpensHasNoNewline(ops[1..]);
      assert forall p :: 3 <= p < |Opens(ops)| ==> Opens(ops)[p] == Opens(ops[1..])[p - 3];
    }
  }

  /** The chain text is one line: the row is 0 and the column is the index of the byte read. */
  lemma OneLine(ops: seq<char>, n: nat)
    requires Operators(ops) && n <= |ChainText(ops)|
    ensures Rows(ChainText(ops), n) == 0 && Cols(ChainText(ops), n) == n - 1
  {
    OpensHasNoNewline(ops);
    var t := ChainText(ops);
    assert forall p :: 0 <= p < |t| ==> t[p] != '\n' by {
      forall p | 0 <= p < |t|
        ensures t[p] != '\n'
      {
        if p >= |Opens(ops)| {
          assert t[p] == Closes(|ops|)[p - |Opens(ops)|];
        }
      }
    }
    SameLine(t, 0, n);
  }

  // ---------------------------------------------------------------------
  // Lexing the chain text

  lemma LexFirst(ops: seq<char>)
    requires |ops| >= 1 && Operators(ops)
    ensures NextTokenSpec(ChainText(ops), 1) == (Ok(OpenTok(0)), 2)
    ensures NextTokenSpec(ChainText(ops), 2) == (Ok(OpTok(ops, 0)), 3)
  {
    var t := ChainText(ops);
    TextAt(ops, 0);
    OneLine(ops, 1);
    OneLine(ops, 2);
    assert SkipWS(t, 1) == 1 && SkipWS(t, 2) == 2;
  }

  /** After the operator of depth `k`: a space, then `(` of depth `k + 1` or the first `)`. */
  lemma LexAfterOp(ops: seq<char>, k: nat)
    requires k < |ops| && Operators(ops)
    ensures NextTokenSpec(ChainText(ops), 3 * k + 3) ==
            if k + 1 < |ops| then (Ok(OpenTok(k + 1)), 3 * k + 5) else (Ok(CloseTok(ops, 0)), 3 * |ops| + 2)
  {
    var t := ChainText(ops);
    TextAt(ops, k);
    if k + 1 < |ops| {
      TextAt(ops, k + 1);
    } else {
      assert t[3 * |ops|] == Closes(|ops|)[0];
    }
    OneLine(ops, 3 * k + 4);
    assert SkipWS(t, 3 * k + 4) == 3 * k + 4;
    assert SkipWS(t, 3 * k + 3) == 3 * k + 4;
  }

  /** After `(` of depth `k + 1`: its operator. */
  lemma LexAfterOpen(ops: seq<char>, k: nat)
    requires k + 1 < |ops| && Operators(ops)
    ensures NextTokenSpec(ChainText(ops), 3 * k + 5) == (Ok(OpTok(ops, k + 1)), 3 * k + 6)
  {
    var t := ChainText(ops);
    TextAt(ops, k + 1);
    OneLine(ops, 3 * k + 5);
    assert SkipWS(t, 3 * k + 5) == 3 * k + 5;
  }

  /** In the run of `)`: the `j`-th of them, or EOF past the last. */
  lemma LexCloses(ops: seq<char>, j: nat)
    requires |ops| >= 1 && Operators(ops) && 1 <= j
    ensures NextTokenSpec(ChainText(ops), 3 * |ops| + j + 1) ==
            if j < |ops| then (Ok(CloseTok(ops, j)), 3 * |ops| + j + 2) else (Ok(EofTok(ops)), 3 * |ops| + j + 2)
  {
    var t := ChainText(ops);
    var n := 3 * |ops| + j + 1;
    assert SkipWS(t, n) == n;
    if j < |ops| {
      assert t[3 * |ops| + j] == Closes(|ops|)[j];
      OneLine(ops, n);
    } else {
      OneLine(ops, |t|);
      assert Cols(t, n) == Cols(t, |t|) && Rows(t, n) == Rows(t, |t|) by {
        FarCols(t, n);
      }
    }
  }

  /** Past the end of the input the row and column stay where they were. */
  lemma {:induction false} FarCols(t: string, n: nat)
    requires n >= |t|
    ensures Cols(t, n) == Cols(t, |t|) && Rows(t, n) == Rows(t, |t|)
  {
    if n > |t| {
      FarCols(t, n - 1);
    }
  }

  // ---------------------------------------------------------------------
  // The parser's steps over the chain text

  lemma StartChain(ops: seq<char>)
    requires |ops| >= 1 && Operators(ops)
    ensures Start(ChainText(ops), 1) == Ok(AtOpen(ops, 0))
  {
    LexFirst(ops);
  }

  lemma StepOpen(ops: seq<char>, k: nat)
    requires k < |ops| && Operators(ops)
    ensures Inv(ChainText(ops), AtOpen(ops, k))
    ensures Advance(ChainText(ops), AtOpen(ops, k)) == Ok(AtOp(ops, k))
  {
    LexAfterOp(ops, k);
  }

  lemma StepOp(ops: seq<char>, k: nat)
    requires k < |ops| && Operators(ops)
    ensures Inv(ChainText(ops), AtOp(ops, k))
    ensures Advance(ChainText(ops), AtOp(ops, k)) == Ok(if k + 1 < |ops| then AtOpen(ops, k + 1) else AtClose(ops, 0))
  {
    if k + 1 < |ops| {
      LexAfterOpen(ops, k);
    } else {
      LexCloses(ops, 1);
    }
  }

  lemma StepClose(ops: seq<char>, j: nat)
    requires j < |ops| && Operators(ops)
    ensures Inv(ChainText(ops), AtClose(ops, j))
    ensures Advance(ChainText(ops), AtClose(ops, j)) == Ok(if j + 1 < |ops| then AtClose(ops, j + 1) else AtEof(ops))
  {
    LexCloses(ops, j + 2);
  }

  /**
   * The call at depth `k` is read back from its operator on, and leaves
   * current the `)` that closes it.
   */
  lemma {:induction false} ReadCall(ops: seq<char>, k: nat)
    requires k < |ops| && Operators(ops)
    ensures Inv(ChainText(ops), AtOp(ops, k))
    ensures CallSpec(ChainText(ops), AtOp(ops, k)) == Parsed(ChainFrom(ops, k), AtClose(ops, |ops| - 1 - k))
    decreases |ops| - k
  {
    var t := ChainText(ops);
    StepOp(ops, k);
    if k + 1 < |ops| {
      var inner := AtOpen(ops, k + 1);
      StepOpen(ops, k + 1);
      ReadCall(ops, k + 1);
      assert StatementSpec(t, inner) == Parsed(Some(ChainFrom(ops, k + 1)), AtClose(ops, |ops| - 2 - k));
      StepClose(ops, |ops| - 2 - k);
      var head := OpTok(ops, k);
      assert ArgsSpec(t, AtClose(ops, |ops| - 2 - k), head, [ChainFrom(ops, k + 1)]) ==
             Parsed(ChainFrom(ops, k), AtClose(ops, |ops| - 1 - k));
      assert ArgsSpec(t, inner, head, []) == Parsed(ChainFrom(ops, k), AtClose(ops, |ops| - 1 - k));
    }
  }

  /** What `Inspect` prints for the call at depth `k`: its opening part, then its closing parentheses. */
  lemma {:induction false} InspectChain(ops: seq<char>, k: nat)
    requires k < |ops|
    ensures Inspect(ChainFrom(ops, k)) == Opens(ops[k..]) + Closes(|ops| - k)
    decreases |ops| - k
  {
    var c := ChainFrom(ops, k);
    var parts := seq(|c.arguments|, i requires 0 <= i < |c.arguments| => Inspect(c.arguments[i]));
    assert ops[k..][1..] == ops[k + 1..];
    if k + 1 < |ops| {
      InspectChain(ops, k + 1);
      var inner := Inspect(ChainFrom(ops, k + 1));
      assert parts == [inner];
      assert Join(parts, " ") == inner;
      assert Inspect(c) == "(" + [ops[k]] + " " + inner + ")";
      assert Opens(ops[k..]) == "(" + [ops[k]] + " " + Opens(ops[k + 1..]);
      assert Closes(|ops| - k) == Closes(|ops| - k - 1) + ")";
    } else {
      assert parts == [];
      assert ops[k + 1..] == [];
    }
  }

  /** A statement starting at the outermost `(` is the whole chain. */
  lemma ReadStatement(ops: seq<char>)
    requires |ops| >= 1 && Operators(ops)
    ensures Inv(ChainText(ops), AtOpen(ops, 0))
    ensures StatementSpec(ChainText(ops), AtOpen(ops, 0)) == Parsed(Some(ChainFrom(ops, 0)), AtClose(ops, |ops| - 1))
  {
    ReadStatementAt(ops, 0);
  }

  lemma ReadStatementAt(ops: seq<char>, k: nat)
    requires |ops| >= 1 && Operators(ops) && k == 0
    ensures Inv(ChainText(ops), AtOpen(ops, k))
    ensures StatementSpec(ChainText(ops), AtOpen(ops, k)) == Parsed(Some(ChainFrom(ops, k)), AtClose(ops, |ops| - 1))
  {
    StepOpen(ops, k);
    ReadCall(ops, k);
  }

  /** From the outermost `(` the program loop reads the chain and stops at EOF. */
  lemma ReadProgramFrom(ops: seq<char>)
    requires |ops| >= 1 && Operators(ops)
    ensures Inv(ChainText(ops), AtOpen(ops, 0))
    ensures ProgramSpec(ChainText(ops), AtOpen(ops, 0), []) == Parsed([ChainFrom(ops, 0)], AtEof(ops))
  {
    ReadProgramAt(ops, 0);
  }

  lemma ReadProgramAt(ops: seq<char>, k: nat)
    requires |ops| >= 1 && Operators(ops) && k == 0
    ensures Inv(ChainText(ops), AtOpen(ops, k))
    ensures ProgramSpec(ChainText(ops), AtOpen(ops, k), []) == Parsed([ChainFrom(ops, k)], AtEof(ops))
  {
    var t := ChainText(ops);
    ReadStatementAt(ops, k);
    var c := ChainFrom(ops, k);
    assert CallTree(c);
    StepClose(ops, |ops| - 1);
    assert ProgramSpec(t, AtEof(ops), [c]) == Parsed([c], AtEof(ops));
  }

  /** `ParseProgram` reads the chain text as one program holding the whole chain. */
  lemma ReadProgram(ops: seq<char>)
    requires |ops| >= 1 && Operators(ops)
    ensures ParseProgramSpec(ChainText(ops)) == Parsed([ChainFrom(ops, 0)], AtEof(ops))
  {
    StartChain(ops);
    ReadProgramFrom(ops);
  }

  /** The outermost call prints the whole chain text, and so does the program holding it. */
  lemma PrintChain(ops: seq<char>)
    requires |ops| >= 1
    ensures Inspect(ChainFrom(ops, 0)) == ChainText(ops)
    ensures Inspect(Program([ChainFrom(ops, 0)])) == ChainText(ops)
  {
    PrintChainAt(ops, 0);
  }

  lemma PrintChainAt(ops: seq<char>, k: nat)
    requires |ops| >= 1 && k == 0
    ensures Inspect(ChainFrom(ops, k)) == ChainText(ops)
    ensures Inspect(Program([ChainFrom(ops, k)])) == ChainText(ops)
  {
    var c := ChainFrom(ops, k);
    InspectChain(ops, k);
    assert ops[k..] == ops;
    var p := [c];
    assert seq(|p|, i requires 0 <= i < |p| => Inspect(p[i])) == [Inspect(c)];
    assert Concat([Inspect(c)]) == Inspect(c) + Concat([]);
  }

  /**
   * The round trip: the text `Inspect` prints for a chain of calls is
   * read back by `ParseProgram` as exactly that chain, and printing the
   * program read gives the text again.
   */
  lemma ChainReadsBack(ops: seq<char>)
    requires |ops| >= 1 && Operators(ops)
    ensures ParseProgramSpec(Inspect(ChainFrom(ops, 0))) == Parsed([ChainFrom(ops, 0)], AtEof(ops))
    ensures Inspect(Program([ChainFrom(ops, 0)])) == Inspect(ChainFrom(ops, 0))
  {
    PrintChain(ops);
    ReadProgram(ops);
  }
}
