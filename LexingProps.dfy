/**
 * What the lexer of lexer/lexer.go promises: a token is stamped with the
 * line and the offset within the line of its first byte, its literal is
 * the text it spans, a number is a maximal run of digits, a string stops
 * at the first quote and leaves that quote to open the next string, and
 * past the end the lexer answers EOF for ever.
 */
module LexingProps {
  import opened Common
  import opened GoText
  import opened Lexing

  /** The number of newlines in `s`. */
  function Newlines(s: string): nat
  {
    if s == [] then 0 else Newlines(s[..|s| - 1]) + (if s[|s| - 1] == '\n' then 1 else 0)
  }

  /** The index at which the last line of `s` starts: just after its last newline, or 0. */
  function LineStart(s: string): (r: nat)
    ensures r <= |s|
    ensures forall k :: r <= k < |s| ==> s[k] != '\n'
    ensures r > 0 ==> s[r - 1] == '\n'
  {
    if s == [] then 0
    else if s[|s| - 1] == '\n' then |s|
    else LineStart(s[..|s| - 1])
  }

  /** The row after reading `n` bytes is the number of newlines among them. */
  lemma {:induction false} RowsCountNewlines(input: string, n: nat)
    requires n <= |input|
    ensures Rows(input, n) == Newlines(input[..n])
  {
    if n > 0 {
      RowsCountNewlines(input, n - 1);
      assert input[..n][..n - 1] == input[..n - 1];
    }
  }

  /** The column of a byte that is not a newline is its offset from the start of its line. */
  lemma {:induction false} ColumnIsOffsetInLine(input: string, n: nat)
    requires 1 <= n <= |input| && input[n - 1] != '\n'
    ensures Cols(input, n) == n - 1 - LineStart(input[..n - 1])
  {
    if n > 1 {
      assert input[..n - 1][..n - 2] == input[..n - 2];
      if input[n - 2] != '\n' {
        ColumnIsOffsetInLine(input, n - 1);
      }
    }
  }

  /** Along a line the row stays and the column grows by one per byte. */
  lemma {:induction false} SameLine(input: string, a: nat, n: nat)
    requires a <= n <= |input| && forall k :: a <= k < n ==> input[k] != '\n'
    ensures Rows(input, n) == Rows(input, a) && Cols(input, n) == Cols(input, a) + (n - a)
    decreases n - a
  {
    if n > a {
      SameLine(input, a, n - 1);
    }
  }

  /**
   * Every token other than an EOF past the end of the input starts at an
   * input byte `p`; its row is the number of newlines before `p` and its
   * column is the offset of `p` in its line.
   */
  lemma TokenPosition(input: string, n: nat)
    requires n >= 1
    requires NextTokenSpec(input, n).0.Ok?
    ensures var m := SkipWS(input, n);
            var t := NextTokenSpec(input, n).0.value;
            m - 1 < |input| ==>
              t.row == Newlines(input[..m - 1]) && t.column == m - 1 - LineStart(input[..m - 1])
  {
    var m := SkipWS(input, n);
    if m - 1 < |input| {
      RowsCountNewlines(input, m);
      assert input[..m][..m - 1] == input[..m - 1];
      ColumnIsOffsetInLine(input, m);
    }
  }

  /**
   * A token's literal is the text it spans: the byte itself for a
   * parenthesis or operator, the digits for a number, and the bytes
   * between the quote and the stopping byte for a string; a string
   * literal holds no quote.
   */
  lemma TokenLiteralIsText(input: string, n: nat)
    requires n >= 1
    requires NextTokenSpec(input, n).0.Ok?
    ensures var m := SkipWS(input, n);
            var (t, e) := NextTokenSpec(input, n);
            var tok := t.value;
            (tok.kind in {LParen, RParen, Ident} ==> tok.literal == [input[m - 1]] && e == m + 1) &&
            (tok.kind == Digit ==>
               tok.literal == input[m - 1..e - 1] && tok.literal != [] &&
               (forall k :: 0 <= k < |tok.literal| ==> IsDigit(tok.literal[k])) &&
               !IsDigit(CharAt(input, e - 1))) &&
            (tok.kind == String ==>
               input[m - 1] == '"' && tok.literal == input[m..e - 1] &&
               (forall k :: 0 <= k < |tok.literal| ==> tok.literal[k] != '"') &&
               (CharAt(input, e - 1) == '"' || CharAt(input, e - 1) == '\0')) &&
            (tok.kind == Eof ==> CharAt(input, m - 1) == '\0' && tok.literal == "EOF")
  {
    TokenFromText(input, SkipWS(input, n));
  }

  lemma TokenFromText(input: string, m: nat)
    requires m >= 1
    requires TokenFrom(input, m).0.Ok?
    ensures var (t, e) := TokenFrom(input, m);
            var tok := t.value;
            (tok.kind in {LParen, RParen, Ident} ==> tok.literal == [input[m - 1]] && e == m + 1) &&
            (tok.kind == Digit ==>
               tok.literal == input[m - 1..e - 1] && tok.literal != [] &&
               (forall k :: 0 <= k < |tok.literal| ==> IsDigit(tok.literal[k])) &&
               !IsDigit(CharAt(input, e - 1))) &&
            (tok.kind == String ==>
               input[m - 1] == '"' && tok.literal == input[m..e - 1] &&
               (forall k :: 0 <= k < |tok.literal| ==> tok.literal[k] != '"') &&
               (CharAt(input, e - 1) == '"' || CharAt(input, e - 1) == '\0')) &&
            (tok.kind == Eof ==> CharAt(input, m - 1) == '\0' && tok.literal == "EOF")
  {
  }

  /** Past the end of the input every call answers the same EOF token. */
  lemma EofIsSticky(input: string, n: nat)
    requires n > |input|
    ensures var (t, e) := NextTokenSpec(input, n);
            t.Ok? && t.value.kind == Eof && e == n + 1 &&
            NextTokenSpec(input, e) == (t, e + 1)
  {
    assert SkipWS(input, n) == n;
    assert SkipWS(input, n + 1) == n + 1;
  }

  /** A string's closing quote is left as the current byte, so it opens a second, empty string. */
  lemma ClosingQuoteOpensString()
    ensures NextTokenSpec("\"ab\"", 1) == (Ok(Token(0, 0, String, "ab")), 4)
    ensures NextTokenSpec("\"ab\"", 4) == (Ok(Token(3, 0, String, "")), 5)
    ensures NextTokenSpec("\"ab\"", 5) == (Ok(Token(3, 0, Eof, "EOF")), 6)
  {
    var s := "\"ab\"";
    assert SkipWS(s, 1) == 1;
    assert StringEnd(s, 2) == 4;
    assert s[1..3] == "ab";
    assert SkipWS(s, 4) == 4;
    assert StringEnd(s, 5) == 5;
    assert s[4..4] == "";
    SameLine(s, 0, 4);
    assert SkipWS(s, 5) == 5;
  }

  const Pairs := "(+ 1 1 1)"

  /** The lexer test of `(+ 1 1 1)`: the literals ( + 1 1 1 ) and then EOF. */
  lemma LexingPairs()
    ensures NextTokenSpec(Pairs, 1) == (Ok(Token(0, 0, LParen, "(")), 2)
    ensures NextTokenSpec(Pairs, 2) == (Ok(Token(1, 0, Ident, "+")), 3)
    ensures NextTokenSpec(Pairs, 3) == (Ok(Token(3, 0, Digit, "1")), 5)
    ensures NextTokenSpec(Pairs, 5) == (Ok(Token(5, 0, Digit, "1")), 7)
    ensures NextTokenSpec(Pairs, 7) == (Ok(Token(7, 0, Digit, "1")), 9)
    ensures NextTokenSpec(Pairs, 9) == (Ok(Token(8, 0, RParen, ")")), 10)
    ensures NextTokenSpec(Pairs, 10) == (Ok(Token(8, 0, Eof, "EOF")), 11)
  {
    PairsByte(1);
    PairsByte(2);
    PairsDigit(3);
    PairsDigit(5);
    PairsDigit(7);
    PairsByte(9);
    PairsEof(10);
  }

  lemma PairsEof(n: nat)
    requires n == |Pairs| + 1
    ensures NextTokenSpec(Pairs, n) == (Ok(Token(8, 0, Eof, "EOF")), n + 1)
  {
    assert SkipWS(Pairs, n) == n;
    assert Rows(Pairs, n) == 0 && Cols(Pairs, n) == 8 by {
      SameLine(Pairs, 0, n - 1);
    }
  }

  lemma PairsByte(n: nat)
    requires n in {1, 2, 9}
    ensures NextTokenSpec(Pairs, n) == (Ok(Token(n - 1, 0, if n == 1 then LParen else if n == 2 then Ident else RParen, [Pairs[n - 1]])), n + 1)
  {
    assert Pairs[n - 1] in "()+-*/";
    SingleByteToken(Pairs, n);
    assert Rows(Pairs, n) == 0 && Cols(Pairs, n) == n - 1 by {
      SameLine(Pairs, 0, n);
    }
  }

  lemma PairsDigit(n: nat)
    requires n in {3, 5, 7}
    ensures NextTokenSpec(Pairs, n) == (Ok(Token(n, 0, Digit, "1")), n + 2)
  {
    assert Pairs[n - 1] == ' ' && Pairs[n] == '1' && Pairs[n + 1] in " )";
    AfterBlank(Pairs, n);
    DigitToken(Pairs, n + 1);
    assert Rows(Pairs, n + 1) == 0 && Cols(Pairs, n + 1) == n by {
      SameLine(Pairs, 0, n + 1);
    }
  }

  /** A parenthesis or an operator is a token of its own byte. */
  lemma SingleByteToken(input: string, n: nat)
    requires 1 <= n <= |input| && input[n - 1] in "()+-*/"
    ensures NextTokenSpec(input, n) ==
            (Ok(Token(Cols(input, n), Rows(input, n),
                      if input[n - 1] == '(' then LParen else if input[n - 1] == ')' then RParen else Ident,
                      [input[n - 1]])), n + 1)
  {
    assert SkipWS(input, n) == n;
  }

  /** A digit followed by a byte that is not one is a one-digit number. */
  lemma DigitToken(input: string, n: nat)
    requires 1 <= n < |input| && IsDigit(input[n - 1]) && !IsDigit(input[n])
    ensures NextTokenSpec(input, n) == (Ok(Token(Cols(input, n), Rows(input, n), Digit, [input[n - 1]])), n + 1)
  {
    assert SkipWS(input, n) == n;
    assert DigitsEnd(input, n) == n + 1 by {
      assert DigitsEnd(input, n + 1) == n + 1;
    }
    assert input[n - 1..n] == [input[n - 1]];
  }

  /** White space before a token changes nothing but where the search starts. */
  lemma AfterBlank(input: string, n: nat)
    requires 1 <= n <= |input| && IsWhiteSpace(input[n - 1])
    ensures NextTokenSpec(input, n) == NextTokenSpec(input, n + 1)
  {
    assert SkipWS(input, n) == SkipWS(input, n + 1);
  }

  /**
   * `NextToken` panics exactly when the first byte after the white space
   * is none of `( ) + - * / "`, a digit or 0; the message names the byte
   * (as `%c` prints it, its UTF-8 text) and its row and column.
   */
  lemma PanicsOnUnknownByte(input: string, n: nat)
    requires n >= 1
    ensures var m := SkipWS(input, n);
            var c := CharAt(input, m - 1);
            var r := NextTokenSpec(input, n).0;
            (r.Fault? <==> !(c in "()+-*/\"" || c == '\0' || IsDigit(c))) &&
            (r.Fault? ==> r.msg == UnknownCharacter + EncodeRune(c) + " at " + DecimalString(Rows(input, m)) + ":" + DecimalString(Cols(input, m)))
  {
  }

  /** A letter is no token at all: `lambda` panics on its first byte. */
  lemma LetterPanics()
    ensures NextTokenSpec("lambda", 1).0 == Fault("Unkown character l at 0:0")
  {
    assert SkipWS("lambda", 1) == 1;
    assert DecimalString(0) == "0";
  }
}
