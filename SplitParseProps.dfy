/**
 * What `parse` builds: written-out lists of plain symbols read back as the
 * Pair chains they denote (a round trip), a dotted tail ends the chain,
 * `( )` is not the empty list, and a vector leaves its `)` unread.
 */
module SplitParseProps {
  import opened Common
  import opened GoText
  import opened Objects
  import opened SplitParse

  /** A token that reads back as the Identifier of the same text. */
  predicate SymbolToken(t: string)
  {
    t != "(" && t != ")" && t != "." &&
    ParseInt64(t).None? && !ParsesAsFloat(t) &&
    Lower(t) == t && t != "#f" && t != "#t" && t != "#(" && !CharLiteral(t)
  }

  /** A symbol, or a non-empty list of data whose chain ends in nil or in a symbol. */
  predicate Datum(v: Value)
  {
    match v
    case Identifier(n) => SymbolToken(n)
    case Pair(car, cdr) => Datum(car) && DatumTail(cdr)
    case _ => false
  }

  predicate DatumTail(v: Value)
  {
    match v
    case Nil => true
    case Identifier(n) => SymbolToken(n)
    case Pair(car, cdr) => Datum(car) && DatumTail(cdr)
    case _ => false
  }

  /** The tokens of a datum, as `tokens` would split its written form. */
  function Unparse(v: Value): (r: seq<string>)
    requires Datum(v)
    ensures |r| >= 1 && r[0] != ")" && r[0] != "."
  {
    match v
    case Identifier(n) => [n]
    case Pair(car, cdr) => ["("] + Unparse(car) + TailTokens(cdr)
  }

  /** The tokens after a list's first element: the other elements, then `)` or `. tail )`. */
  function TailTokens(v: Value): (r: seq<string>)
    requires DatumTail(v)
  {
    match v
    case Nil => [")"]
    case Identifier(n) => [".", n, ")"]
    case Pair(car, cdr) => Unparse(car) + TailTokens(cdr)
  }

  lemma {:induction false} ChainSnoc(elems: seq<Value>, a: Value, d: Value)
    ensures Chain(elems + [a], d) == Chain(elems, Pair(a, d))
    decreases |elems|
  {
    if elems != [] {
      assert (elems + [a])[1..] == elems[1..] + [a];
      ChainSnoc(elems[1..], a, d);
    }
  }

  /** A symbol token is read as the Identifier of that text, and nothing is allocated. */
  lemma ParseSymbol(n: string, rest: seq<string>, h: Heap)
    requires SymbolToken(n)
    ensures ParseSpec(PState([n] + rest, h)) == (Ok(Identifier(n)), PState(rest, h))
  {
    assert ([n] + rest)[1..] == rest;
  }

  /**
   * Round trip: the tokens of a datum parse back to that datum, consume
   * exactly those tokens, and allocate nothing.
   */
  lemma {:induction false} ParseUnparse(v: Value, rest: seq<string>, h: Heap)
    requires Datum(v)
    ensures ParseSpec(PState(Unparse(v) + rest, h)) == (Ok(v), PState(rest, h))
    decreases v, 1
  {
    match v
    case Identifier(n) =>
      ParseSymbol(n, rest, h);
    case Pair(car, cdr) =>
      var tail := TailTokens(cdr) + rest;
      ParseUnparse(car, tail, h);
      ElemsUnparse([car], cdr, rest, h);
      ParseList(car, cdr, rest, h);
  }

  lemma Regroup(a: seq<string>, b: seq<string>, c: seq<string>, d: seq<string>)
    requires |a| == 1
    ensures a + b + c + d == a + (b + (c + d))
    ensures (a + (b + (c + d)))[1..] == b + (c + d)
  {
  }

  /** One list step of the round trip: `(`, then its first element, then the element loop. */
  lemma ParseList(car: Value, cdr: Value, rest: seq<string>, h: Heap)
    requires Datum(car) && DatumTail(cdr)
    requires ParseSpec(PState(Unparse(car) + (TailTokens(cdr) + rest), h)) == (Ok(car), PState(TailTokens(cdr) + rest, h))
    requires TailTokens(cdr) + rest != []
    requires ElemsSpec(PState(TailTokens(cdr) + rest, h), [car]) == (Ok(Chain([car], cdr)), PState(rest, h))
    ensures ParseSpec(PState(Unparse(Pair(car, cdr)) + rest, h)) == (Ok(Pair(car, cdr)), PState(rest, h))
  {
    var tail := TailTokens(cdr) + rest;
    var s0 := PState(Unparse(Pair(car, cdr)) + rest, h);
    var s1 := PState(Unparse(car) + tail, h);
    assert Datum(Pair(car, cdr));
    var u := Unparse(Pair(car, cdr));
    assert u == ["("] + Unparse(car) + TailTokens(cdr);
    assert Drop(s0) == s1 by {
      Regroup(["("], Unparse(car), TailTokens(cdr), rest);
    }
    assert ParseSpec(s0) == ListSpec(s1) by {
      assert s0.rest[0] == "(";
    }
    assert ListSpec(s1) == ElemsSpec(PState(tail, h), [car]);
    assert Chain([car], cdr) == Pair(car, cdr);
  }

  /** The element loop reads the rest of a list's tokens and ends the chain as they say. */
  lemma {:induction false} ElemsUnparse(elems: seq<Value>, t: Value, rest: seq<string>, h: Heap)
    requires DatumTail(t)
    ensures TailTokens(t) + rest != []
    ensures ElemsSpec(PState(TailTokens(t) + rest, h), elems) == (Ok(Chain(elems, t)), PState(rest, h))
    decreases t, 0
  {
    var s := PState(TailTokens(t) + rest, h);
    match t
    case Nil =>
      assert s.rest[0] == ")" && s.rest[1..] == rest;
    case Identifier(n) =>
      assert s.rest == ["."] + ([n] + ([")"] + rest));
      ParseSymbol(n, [")"] + rest, h);
    case Pair(a, d) =>
      var more := TailTokens(d) + rest;
      assert s.rest == Unparse(a) + more;
      ParseUnparse(a, more, h);
      ElemsUnparse(elems + [a], d, rest, h);
      ChainSnoc(elems, a, d);
  }

  /** An integer token allocates a new `*Integer` holding its value. */
  lemma ParseInteger(t: string, rest: seq<string>, h: Heap)
    requires t != "(" && ParseInt64(t).Some?
    ensures var r := ParseSpec(PState([t] + rest, h));
            r.0 == Ok(Integer(|h.cells|)) && r.1.rest == rest &&
            IntAt(r.1.heap, |h.cells|) == ParseInt64(t).value && Grows(h, r.1.heap)
  {
    assert ([t] + rest)[1..] == rest;
  }

  /** `( )` is not the empty list: the `)` is read as the first element, an Identifier. */
  lemma ParenPairIsNotNil(rest: seq<string>, h: Heap)
    ensures ParseSpec(PState(["(", ")", ")"] + rest, h)) == (Ok(Pair(Identifier(")"), Nil)), PState(rest, h))
  {
    var s := PState(["(", ")", ")"] + rest, h);
    assert Drop(s).rest == [")"] + ([")"] + rest);
    assert ParseInt64(")").None?;
    assert !ParsesAsFloat(")");
    assert Lower(")") == ")";
    ParseSymbolLike(")", [")"] + rest, h);
    var s1 := PState([")"] + rest, h);
    assert ParseSpec(Drop(s)) == (Ok(Identifier(")")), s1);
    assert Drop(s1) == PState(rest, h);
    assert Chain([Identifier(")")], Nil) == Pair(Identifier(")"), Nil);
    assert ElemsSpec(s1, [Identifier(")")]) == (Ok(Pair(Identifier(")"), Nil)), PState(rest, h));
    assert ListSpec(Drop(s)) == (Ok(Pair(Identifier(")"), Nil)), PState(rest, h));
  }

  /** Any token that is not a number, float, keyword or character literal reads as its lower-cased Identifier. */
  lemma ParseSymbolLike(t: string, rest: seq<string>, h: Heap)
    requires t != "(" && ParseInt64(t).None? && !ParsesAsFloat(t)
    requires Lower(t) != "#f" && Lower(t) != "#t" && Lower(t) != "#(" && !CharLiteral(Lower(t))
    ensures ParseSpec(PState([t] + rest, h)) == (Ok(Identifier(Lower(t))), PState(rest, h))
  {
    assert ([t] + rest)[1..] == rest;
  }

  /**
   * A token whose second byte is a backslash is neither a number nor a
   * float, and reads as a Char holding the UTF-8 text of its last byte
   * (lower-cased): the byte itself when it is ASCII, two bytes otherwise.
   */
  lemma ParseCharLiteral(t: string, rest: seq<string>, h: Heap)
    requires |t| >= 2 && t[1] == '\\'
    ensures ParseSpec(PState([t] + rest, h)) == (Ok(Char(EncodeRune(LowerChar(t[|t| - 1])))), PState(rest, h))
  {
    var s := PState([t] + rest, h);
    assert s.rest[0] == t && Drop(s) == PState(rest, h) by {
      assert ([t] + rest)[1..] == rest;
    }
    CharAtom(t, PState(rest, h));
  }

  /** The atom case of a character literal, on its own. */
  lemma CharAtom(t: string, s: PState)
    requires |t| >= 2 && t[1] == '\\'
    ensures AtomSpec(t, s) == (Ok(Char(EncodeRune(LowerChar(t[|t| - 1])))), s)
  {
    BackslashIsNotNumeric(t);
    var ident := Lower(t);
    assert |ident| == |t| && ident[1] == '\\' && ident[|t| - 1] == LowerChar(t[|t| - 1]);
    assert ident != "#f" && ident != "#t" && ident != "#(" by {
      assert "#f"[1] != '\\' && "#t"[1] != '\\' && "#("[1] != '\\';
    }
    assert CharLiteral(ident);
  }

  lemma BackslashIsNotNumeric(t: string)
    requires |t| >= 2 && t[1] == '\\'
    ensures ParseInt64(t).None? && !ParsesAsFloat(t)
  {
    assert DigitValue('\\') == 36;
    var body := if t[0] == '+' || t[0] == '-' then t[1..] else t;
    if t[0] == '+' || t[0] == '-' {
      assert body[0] == '\\' && Lower(body)[0] == '\\';
      assert !AllDigitsIn(body, 10);
      assert DigitRun(body, 0) == 0;
    } else if t[0] == '0' {
      assert !AllDigitsIn(t[1..], 8) by { assert t[1..][0] == '\\'; }
      assert DigitRun(t, 1) == 1;
    } else {
      assert !AllDigitsIn(t, 10) by { assert DigitValue(t[1]) == 36; }
      assert DigitRun(t, 1) == 1;
      if t[0] == '.' {
        assert DigitRun(t, 0) == 0;
      }
    }
    assert !DecimalFloat(body);
    assert Lower(t)[1] == '\\';
    assert Lower(body) != "inf" && Lower(body) != "infinity" && Lower(t) != "nan";
  }

  /** `1e400` is out of float64 range, so it reads as an Identifier. */
  lemma ParseHugeFloat(rest: seq<string>, h: Heap)
    ensures ParseSpec(PState(["1e400"] + rest, h)) == (Ok(Identifier("1e400")), PState(rest, h))
  {
    HugeExponentOverflows();
    assert DigitValue("1e400"[1]) == 14;
    assert ParseInt64("1e400").None?;
    assert Lower("1e400") == "1e400";
    ParseSymbolLike("1e400", rest, h);
  }

  /** A vector reads its elements up to `)` and leaves that `)` for the caller. */
  lemma VectorLeavesClose(n: string, rest: seq<string>, h: Heap)
    requires SymbolToken(n)
    ensures ParseSpec(PState(["#(", n, ")"] + rest, h)) == (Ok(Vector([Identifier(n)])), PState([")"] + rest, h))
  {
    var s := PState(["#(", n, ")"] + rest, h);
    var s0 := PState([n] + ([")"] + rest), h);
    assert s.rest[0] == "#(" && Drop(s) == s0 by {
      assert s.rest[1..] == [n] + ([")"] + rest);
    }
    VectorOpens(s0);
    ParseSymbol(n, [")"] + rest, h);
    var s1 := PState([")"] + rest, h);
    assert [] + [Identifier(n)] == [Identifier(n)];
    assert VectorSpec(s1, [Identifier(n)]) == (Ok(Vector([Identifier(n)])), s1);
    assert VectorSpec(s0, []) == (Ok(Vector([Identifier(n)])), s1);
  }

  /** `#(` with tokens after it starts the vector loop. */
  lemma VectorOpens(s: PState)
    requires s.rest != []
    ensures AtomSpec("#(", s) == VectorSpec(s, [])
  {
    assert Lower("#(") == "#(";
    assert ParseInt64("#(").None?;
    assert !ParsesAsFloat("#(");
  }

  /** `#(` as the last token gives the Error "missing closing )". */
  lemma VectorAtEnd(h: Heap)
    ensures ParseSpec(PState(["#("], h)) == (Ok(Error(MissingClose)), PState([], h))
  {
    assert Lower("#(") == "#(";
    assert ParseInt64("#(").None?;
    assert !ParsesAsFloat("#(");
  }

  /** An unclosed list runs off the end of the tokens and panics. */
  lemma UnclosedListPanics(n: string, m: string, h: Heap)
    requires SymbolToken(n) && SymbolToken(m)
    ensures ParseSpec(PState(["(", n, m], h)).0 == Fault(IndexOutOfRange)
  {
    var s := PState(["(", n, m], h);
    assert Drop(s).rest == [n] + [m];
    ParseSymbol(n, [m], h);
    ParseSymbol(m, [], h);
    var s1 := PState([m], h);
    assert ParseSpec(Drop(s)) == (Ok(Identifier(n)), s1);
    assert ParseSpec(s1) == (Ok(Identifier(m)), PState([], h));
    assert ElemsSpec(PState([], h), [Identifier(n), Identifier(m)]).0 == Fault(IndexOutOfRange);
    assert ElemsSpec(s1, [Identifier(n)]).0 == Fault(IndexOutOfRange);
  }
}
