/**
 * lexer/lexer.go: a lexer over the bytes of its input that keeps the byte
 * it is looking at, the index of the next byte to read, and the row and
 * column of the byte it is looking at.  Past the end of the input the
 * current byte is 0, which is also how a NUL byte in the input reads.
 *
 * The functions below say where the lexer stands after any number of
 * `consume` calls and what `NextToken` answers from a given read index;
 * class `Lexer` keeps the fields of the Go struct, updates them in place,
 * and is proved to follow those functions.
 */
module Lexing {
  import opened Common
  import opened GoText

  /**
   * lexer/token.go declares LPAREN … DIGIT; the lexer also produces IDENT
   * and STRING, which are given the next two numbers here.
   */
  datatype TokenType = LParen | RParen | Add | Sub | Div | Mul | Eof | Digit | Ident | String

  datatype Token = Token(column: int, row: int, kind: TokenType, literal: string)

  /** The `%d` of a token type in a panic message (the `iota` order of token.go). */
  function TypeNumber(t: TokenType): nat
  {
    match t
    case LParen => 0
    case RParen => 1
    case Add => 2
    case Sub => 3
    case Div => 4
    case Mul => 5
    case Eof => 6
    case Digit => 7
    case Ident => 8
    case String => 9
  }

  const UnknownCharacter := "Unkown character "

  predicate IsWhiteSpace(c: char)
  {
    c == ' ' || c == '\n' || c == '\t' || c == '\r'
  }

  /** The byte at index `p`, or 0 past the end of the input. */
  function CharAt(input: string, p: nat): char
  {
    if p < |input| then input[p] else '\0'
  }

  /** The row after `n` calls of `consume` from the zeroed struct: one more per newline read. */
  function Rows(input: string, n: nat): int
  {
    if n == 0 then 0
    else if n - 1 < |input| && input[n - 1] == '\n' then Rows(input, n - 1) + 1
    else Rows(input, n - 1)
  }

  /** The column after `n` calls of `consume`: -1 on a newline, one more on any other byte, unchanged past the end. */
  function Cols(input: string, n: nat): int
  {
    if n == 0 then -1
    else if n - 1 < |input| then (if input[n - 1] == '\n' then -1 else Cols(input, n - 1) + 1)
    else Cols(input, n - 1)
  }

  /**
   * `consumeWS` from read index `n`: the read index at which the current
   * byte is no longer white space.  Every byte skipped is white space.
   */
  function SkipWS(input: string, n: nat): (m: nat)
    requires n >= 1
    ensures n <= m && (m == n || m <= |input| + 1)
    ensures !IsWhiteSpace(CharAt(input, m - 1))
    ensures forall k :: n - 1 <= k < m - 1 ==> k < |input| && IsWhiteSpace(input[k])
    decreases |input| + 1 - n
  {
    if IsWhiteSpace(CharAt(input, n - 1)) then SkipWS(input, n + 1) else n
  }

  /**
   * The read index at which `consumeString` stops, searching from read
   * index `m`: the first byte from `m - 1` on that is a quote or 0.
   */
  function StringEnd(input: string, m: nat): (e: nat)
    requires 1 <= m <= |input| + 1
    ensures m <= e <= |input| + 1
    ensures CharAt(input, e - 1) == '"' || CharAt(input, e - 1) == '\0'
    ensures forall k :: m - 1 <= k < e - 1 ==> input[k] != '"' && input[k] != '\0'
    decreases |input| + 1 - m
  {
    if CharAt(input, m - 1) == '"' || CharAt(input, m - 1) == '\0' then m else StringEnd(input, m + 1)
  }

  /**
   * The read index at which `readNumber` stops, searching from read index
   * `m`: the first byte from `m - 1` on that is not a digit.
   */
  function DigitsEnd(input: string, m: nat): (e: nat)
    requires 1 <= m
    ensures m <= e && (m <= |input| + 1 ==> e <= |input| + 1)
    ensures !IsDigit(CharAt(input, e - 1))
    ensures forall k :: m - 1 <= k < e - 1 ==> k < |input| && IsDigit(input[k])
    decreases |input| + 1 - m
  {
    if IsDigit(CharAt(input, m - 1)) then DigitsEnd(input, m + 1) else m
  }

  /** The only identifiers the lexer knows are the four arithmetic operators. */
  predicate Operator(s: string)
  {
    s == "+" || s == "-" || s == "*" || s == "/"
  }

  function Max(a: int, b: int): int
  {
    if a < b then b else a
  }

  /**
   * `NextToken` from read index `n`: the token (or the panic) and the
   * read index afterwards.  A token is stamped with the row and column of
   * its first byte.  A string token is returned with the lexer still on
   * its closing quote; a number token with the lexer on the byte after it.
   */
  function NextTokenSpec(input: string, n: nat): (r: (Outcome<Token>, nat))
    requires n >= 1
    ensures n <= r.1
    ensures r.0.Ok? ==> n < r.1 <= Max(n, |input| + 1) + 1
    ensures r.0.Ok? && r.0.value.kind != Eof ==> r.1 <= |input| + 1
    ensures r.0.Ok? ==> r.0.value.kind in {LParen, RParen, Ident, String, Eof, Digit}
    ensures r.0.Ok? && r.0.value.kind == Ident ==> Operator(r.0.value.literal)
  {
    TokenFrom(input, SkipWS(input, n))
  }

  /** What `NextToken` answers once the white space is behind it, at read index `m`. */
  function TokenFrom(input: string, m: nat): (Outcome<Token>, nat)
    requires m >= 1
  {
    var c := CharAt(input, m - 1);
    var row, col := Rows(input, m), Cols(input, m);
    if c == '(' then (Ok(Token(col, row, LParen, "(")), m + 1)
    else if c == ')' then (Ok(Token(col, row, RParen, ")")), m + 1)
    else if c == '+' || c == '-' || c == '*' || c == '/' then (Ok(Token(col, row, Ident, [c])), m + 1)
    else if c == '"' then
      var e := StringEnd(input, m + 1);
      (Ok(Token(col, row, String, input[m..e - 1])), e)
    else if c == '\0' then (Ok(Token(col, row, Eof, "EOF")), m + 1)
    else if IsDigit(c) then
      var e := DigitsEnd(input, m);
      (Ok(Token(col, row, Digit, input[m - 1..e - 1])), e)
    else (Fault(UnknownCharacter + EncodeRune(c) + " at " + DecimalString(row) + ":" + DecimalString(col)), m)
  }

  /** The Go `Lexer` struct. */
  class Lexer {
    const input: string
    var row: int
    var column: int
    var position: int
    var readPosition: nat
    var currentChar: char

    /** Row and column are those reached after `readPosition` calls of `consume`. */
    predicate Counted()
      reads this
    {
      row == Rows(input, readPosition) && column == Cols(input, readPosition)
    }

    /** The lexer has been primed: it looks at the byte just before `readPosition`. */
    predicate Valid()
      reads this
    {
      Counted() && readPosition >= 1 && position == readPosition - 1 &&
      currentChar == CharAt(input, position)
    }

    /** `NewLexer`: row 0, column -1, then one `consume` to prime the current byte. */
    constructor (input: string)
      ensures this.input == input && Valid() && readPosition == 1
    {
      this.input := input;
      row, column, position, readPosition := 0, -1, 0, 0;
      currentChar := '\0';
      new;
      Consume();
    }

    /** `consume`: read the next byte (0 past the end) and move the row and column over it. */
    method Consume()
      requires Counted()
      modifies this
      ensures Valid() && readPosition == old(readPosition) + 1
    {
      if readPosition >= |input| {
        currentChar := '\0';
      } else {
        currentChar := input[readPosition];
        if currentChar == '\n' {
          row := row + 1;
          column := -1;
        } else {
          column := column + 1;
        }
      }
      position := readPosition;
      readPosition := readPosition + 1;
    }

    /** `consumeWS`. */
    method ConsumeWS()
      requires Valid()
      modifies this
      ensures Valid() && readPosition == SkipWS(input, old(readPosition))
    {
      while IsWhiteSpace(currentChar)
        invariant Valid()
        invariant SkipWS(input, readPosition) == SkipWS(input, old(readPosition))
        decreases |input| + 1 - readPosition
      {
        Consume();
      }
    }

    /** `consumeString`, called on the opening quote: the bytes up to the closing quote or 0. */
    method ConsumeString() returns (value: string)
      requires Valid() && currentChar == '"'
      modifies this
      ensures Valid() && readPosition == StringEnd(input, old(readPosition) + 1)
      ensures value == input[old(readPosition)..readPosition - 1]
    {
      var start := readPosition;
      Consume();
      while currentChar != '"' && currentChar != '\0'
        invariant Valid() && start < readPosition <= |input| + 1
        invariant StringEnd(input, readPosition) == StringEnd(input, start + 1)
        decreases |input| + 1 - readPosition
      {
        assert StringEnd(input, readPosition) == StringEnd(input, readPosition + 1);
        Consume();
      }
      assert StringEnd(input, readPosition) == readPosition;
      value := input[start..position];
    }

    /** `readNumber`, called on a digit: the run of digits from the current byte. */
    method ReadNumber() returns (literal: string)
      requires Valid() && IsDigit(currentChar)
      modifies this
      ensures Valid() && readPosition == DigitsEnd(input, old(readPosition))
      ensures literal == input[old(position)..position]
    {
      var start := position;
      while IsDigit(currentChar)
        invariant Valid() && start < readPosition <= |input| + 1
        invariant DigitsEnd(input, readPosition) == DigitsEnd(input, start + 1)
        decreases |input| + 1 - readPosition
      {
        Consume();
      }
      literal := input[start..position];
    }

    /** `NextToken`; an unknown byte panics (the panic carries what was printed). */
    method NextToken() returns (r: Outcome<Token>)
      requires Valid()
      modifies this
      ensures Valid() && (r, readPosition) == NextTokenSpec(input, old(readPosition))
    {
      ConsumeWS();
      var c := currentChar;
      var tok: Token;
      if c == '(' {
        tok := Token(column, row, LParen, "(");
      } else if c == ')' {
        tok := Token(column, row, RParen, ")");
      } else if c == '+' || c == '-' || c == '*' || c == '/' {
        tok := Token(column, row, Ident, [c]);
      } else if c == '"' {
        var row0, column0 := row, column;
        var value := ConsumeString();
        return Ok(Token(column0, row0, String, value));
      } else if c == '\0' {
        tok := Token(column, row, Eof, "EOF");
      } else if IsDigit(c) {
        var row0, column0 := row, column;
        var literal := ReadNumber();
        return Ok(Token(column0, row0, Digit, literal));
      } else {
        return Fault(UnknownCharacter + EncodeRune(c) + " at " + DecimalString(row) + ":" + DecimalString(column));
      }
      Consume();
      r := Ok(tok);
    }
  }
}
