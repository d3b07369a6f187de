/**
 * What the reader of reader.go accepts, stated over `ReadSpec`: atoms are
 * maximal runs of non-delimiting bytes, strings lose their inner blanks,
 * `'E` is sugar for `(quote E)`, `()` vanishes, and the printed forms of
 * booleans, characters and non-negative integers read back as the same
 * values.
 */
module ReaderProps {
  import opened Common
  import opened GoText
  import opened Objects
  import opened ReaderSpec

  /** A byte that ends an atom. */
  predicate Delimits(c: char)
  {
    IsWS(c) || c == '(' || c == ')'
  }

  /** The end of the run of non-delimiting bytes starting at `i`. */
  function RunEnd(input: string, i: nat): (j: nat)
    requires i <= |input|
    ensures i <= j <= |input|
    ensures forall k :: i <= k < j ==> !Delimits(input[k])
    ensures j == |input| || Delimits(input[j])
    decreases |input| - i
  {
    if i < |input| && !Delimits(input[i]) then RunEnd(input, i + 1) else i
  }

  /** Where the reader stands after an atom ending at `j`: a blank after it is consumed, a parenthesis is not. */
  function AfterAtom(input: string, j: nat): nat
  {
    if j < |input| && IsWS(input[j]) then j + 1 else j
  }

  /**
   * The atom loop takes exactly the maximal run of non-delimiting bytes,
   * whatever they are, and interprets that text.
   */
  lemma {:induction false} AtomReadsRun(input: string, s: RState, acc: string)
    requires s.pos <= |input|
    ensures var j := RunEnd(input, s.pos);
            var lastRead := if j < |input| then IsWS(input[j]) else j > s.pos || s.lastRead;
            AtomSpec(input, s, acc) ==
            FinishAtom(acc + input[s.pos..j], RState(AfterAtom(input, j), lastRead, s.heap))
    decreases |input| - s.pos
  {
    var j := RunEnd(input, s.pos);
    var s1 := s.(pos := s.pos + 1, lastRead := true);
    if s.pos == |input| {
      assert AtomSpec(input, s, acc) == FinishAtom(acc, s);
      assert acc + input[s.pos..j] == acc;
    } else if IsWS(input[s.pos]) {
      assert AtomSpec(input, s, acc) == FinishAtom(acc, s1);
      assert acc + input[s.pos..j] == acc;
    } else if input[s.pos] == '(' || input[s.pos] == ')' {
      assert AtomSpec(input, s, acc) == FinishAtom(acc, s.(lastRead := false));
      assert acc + input[s.pos..j] == acc;
    } else {
      assert AtomSpec(input, s, acc) == AtomSpec(input, s1, acc + [input[s.pos]]);
      AtomReadsRun(input, s1, acc + [input[s.pos]]);
      AppendSlice(acc, input, s.pos, j);
    }
  }

  lemma AppendSlice(acc: string, input: string, i: nat, j: nat)
    requires i < j <= |input|
    ensures acc + [input[i]] + input[i + 1..j] == acc + input[i..j]
  {
    assert input[i..j] == [input[i]] + input[i + 1..j];
  }

  /** A run of non-delimiting bytes followed by a delimiter or the end is exactly what `RunEnd` finds. */
  lemma {:induction false} RunEndAt(input: string, i: nat, j: nat)
    requires i <= j <= |input|
    requires forall k :: i <= k < j ==> !Delimits(input[k])
    requires j == |input| || Delimits(input[j])
    ensures RunEnd(input, i) == j
    decreases j - i
  {
    if i < j {
      RunEndAt(input, i + 1, j);
    }
  }

  /** A byte that starts an atom rather than one of the reader's other forms. */
  predicate StartsAtom(c: char)
  {
    c != '#' && c != '"' && c != '\'' && c != '`' && c != '(' && !IsWS(c) &&
    c != '+' && c != '*' && c != '/' && c != '-'
  }

  /** `Read` hands an atom's first byte to the atom loop. */
  lemma ReadDispatchesAtom(input: string, s: RState)
    requires s.pos < |input| && StartsAtom(input[s.pos])
    ensures ReadSpec(input, s) == AtomSpec(input, s.(pos := s.pos + 1, lastRead := true), [input[s.pos]])
  {
  }

  /**
   * `Read` at an atom's first byte yields the value of the whole run,
   * leaving the reader after the blank that ended it.
   */
  lemma ReadAtomRun(input: string, s: RState)
    requires s.pos < |input| && StartsAtom(input[s.pos])
    ensures var j := RunEnd(input, s.pos + 1);
            ReadSpec(input, s) ==
            FinishAtom(input[s.pos..j], RState(AfterAtom(input, j), j == |input| || IsWS(input[j]), s.heap))
  {
    ReadRunFinishes(input, s, RunEnd(input, s.pos + 1));
  }

  /**
   * Printing then reading a non-negative int64: its decimal text followed
   * by a delimiter or the end reads as a fresh Integer holding the same
   * number.
   */
  lemma ReadsDecimal(input: string, s: RState, n: int)
    requires 0 <= n < TwoTo63
    requires var d := DecimalString(n);
             s.pos + |d| <= |input| && input[s.pos..s.pos + |d|] == d &&
             (s.pos + |d| == |input| || Delimits(input[s.pos + |d|]))
    ensures var r := ReadSpec(input, s);
            var ref := |s.heap.cells|;
            r.0 == Ok(Integer(ref)) && IsIntRef(r.1.heap, ref) && IntAt(r.1.heap, ref) == n
            && r.1.pos == AfterAtom(input, s.pos + |DecimalString(n)|)
  {
    var d := DecimalString(n);
    var e := s.pos + |d|;
    var st := RState(AfterAtom(input, e), e == |input| || IsWS(input[e]), s.heap);
    DecimalIsRun(input, s.pos, n);
    ReadRunFinishes(input, s, e);
    DecimalFinishes(input, s.pos, n, e, st);
  }

  /** A decimal integer written at `i` and ended by a delimiter is a whole run starting an atom. */
  lemma DecimalIsRun(input: string, i: nat, n: int)
    requires 0 <= n < TwoTo63
    requires var d := DecimalString(n);
             i + |d| <= |input| && input[i..i + |d|] == d && (i + |d| == |input| || Delimits(input[i + |d|]))
    ensures var e := i + |DecimalString(n)|;
            i < e && StartsAtom(input[i]) && RunEnd(input, i + 1) == e
  {
    var d := DecimalString(n);
    var e := i + |d|;
    assert d == DecimalDigits(n);
    assert input[i] == d[0];
    assert IsDigit(input[i]);
    forall k | i + 1 <= k < e
      ensures !Delimits(input[k])
    {
      assert input[k] == d[k - i];
    }
    RunEndAt(input, i + 1, e);
  }

  lemma DecimalFinishes(input: string, i: nat, n: int, e: nat, st: RState)
    requires 0 <= n < TwoTo63 && i <= e <= |input| && input[i..e] == DecimalString(n)
    ensures var r := FinishAtom(input[i..e], st);
            var ref := |st.heap.cells|;
            r.0 == Ok(Integer(ref)) && IsIntRef(r.1.heap, ref) && IntAt(r.1.heap, ref) == n && r.1.pos == st.pos
  {
    ParseIntOfDecimal(n);
  }

  /** The printed form of an Integer object reads back as an Integer with the same value. */
  lemma IntegerRoundTrip(r: Ref, h: Heap, rest: string)
    requires IsIntRef(h, r) && 0 <= IntAt(h, r) < TwoTo63
    requires rest == [] || Delimits(rest[0])
    ensures Inspect(Integer(r), h).Text?
    ensures var input := Inspect(Integer(r), h).s + rest;
            var out := ReadSpec(input, RState(0, false, h));
            out.0 == Ok(Integer(|h.cells|)) && IntAt(out.1.heap, |h.cells|) == IntAt(h, r)
  {
    var n := IntAt(h, r);
    var d := DecimalString(n);
    assert Inspect(Integer(r), h) == Text(d);
    var input := d + rest;
    assert input[0..|d|] == d;
    ReadsDecimal(input, RState(0, false, h), n);
  }

  /**
   * A run of decimal digits too large for int64 is a Float while its
   * value stays below float64 overflow, and a symbol from there on.
   */
  lemma DigitsBeyondInt64(d: string, h: Heap)
    requires |d| >= 1 && (forall k :: 0 <= k < |d| ==> IsDigit(d[k])) && ParseInt64(d).None?
    ensures AtomValue(d, h) ==
            if DigitsValue(d, 10) < FloatOverflow() then (Float(d), h) else (Identifier(d), h)
  {
    DigitsParseAsFloat(d);
    assert Upper(d) == d;
  }

  /** `1e400` is beyond float64 range, so the reader makes it a symbol. */
  lemma HugeFloatIsIdentifier(h: Heap)
    ensures AtomValue("1e400", h) == (Identifier("1E400"), h)
  {
    HugeExponentOverflows();
    assert DigitValue("1e400"[1]) == 14;
    assert ParseInt64("1e400").None?;
    assert Upper("1e400") == "1E400";
  }

  /** A minus sign is always an operator: `-5` reads as the identifier `-`, one byte long. */
  lemma MinusIsAlwaysOperator(input: string, s: RState)
    requires s.pos < |input| && input[s.pos] == '-'
    ensures ReadSpec(input, s) == (Ok(Identifier("-")), s.(pos := s.pos + 1, lastRead := true))
  {
  }

  /** `Read` hands what follows `#` to the `#` reader. */
  lemma ReadDispatchesHash(input: string, s: RState)
    requires s.pos < |input| && input[s.pos] == '#'
    ensures ReadSpec(input, s) == HashSpec(input, s.(pos := s.pos + 1, lastRead := true))
  {
  }

  /** What the `#` reader makes of the byte after `#`. */
  lemma HashReads(input: string, s: RState)
    requires s.pos < |input| && !IsWS(input[s.pos])
    ensures var u := UpperChar(input[s.pos]);
            var r := HashSpec(input, s);
            (u == 'T' ==> r == (Ok(Boolean(true)), s.(pos := s.pos + 1, lastRead := false))) &&
            (u == 'F' ==> r == (Ok(Boolean(false)), s.(pos := s.pos + 1, lastRead := false))) &&
            (u == '\\' && s.pos + 1 < |input| ==>
               r == (Ok(Char(EncodeRune(input[s.pos + 1]))), s.(pos := s.pos + 2, lastRead := true))) &&
            (!(u in "TF\\") ==>
               r == (Fault("Expecting one of F or T or \\ found " + UpperByteText(input[s.pos]) + " instead."),
                     s.(lastRead := false)))
  {
    var b := input[s.pos];
    assert PeekSpec(input, s) == (Byte(b), s.(lastRead := false));
  }

  /** `#t`/`#T` and `#f`/`#F` read as the booleans. */
  lemma ReadsBoolean(input: string, s: RState, b: bool)
    requires s.pos + 2 <= |input| && input[s.pos] == '#'
    requires UpperChar(input[s.pos + 1]) == (if b then 'T' else 'F')
    ensures ReadSpec(input, s) == (Ok(Boolean(b)), s.(pos := s.pos + 2, lastRead := false))
  {
    ReadDispatchesHash(input, s);
    HashBoolean(input, s.(pos := s.pos + 1, lastRead := true), b);
  }

  lemma HashBoolean(input: string, s: RState, b: bool)
    requires s.pos < |input| && UpperChar(input[s.pos]) == (if b then 'T' else 'F')
    ensures HashSpec(input, s) == (Ok(Boolean(b)), s.(pos := s.pos + 1, lastRead := false))
  {
    var c := input[s.pos];
    assert c < '\U{80}';
    assert PeekSpec(input, s) == (Byte(c), s.(lastRead := false));
    assert UpperByteText(c) == (if b then "T" else "F");
  }


  /**
   * `#\c` reads as the character `c`: the byte itself when it is ASCII,
   * its two-byte UTF-8 text from 0x80 up.
   */
  lemma ReadsChar(input: string, s: RState)
    requires s.pos + 3 <= |input| && input[s.pos] == '#' && input[s.pos + 1] == '\\'
    ensures ReadSpec(input, s) == (Ok(Char(EncodeRune(input[s.pos + 2]))), s.(pos := s.pos + 3, lastRead := true))
  {
    var s1 := s.(pos := s.pos + 1, lastRead := true);
    ReadDispatchesHash(input, s);
    HashBackslash(input, s1);
  }

  lemma HashBackslash(input: string, s: RState)
    requires s.pos + 1 < |input| && input[s.pos] == '\\'
    ensures HashSpec(input, s) == (Ok(Char(EncodeRune(input[s.pos + 1]))), s.(pos := s.pos + 2, lastRead := true))
  {
    HashReads(input, s);
    assert UpperChar('\\') == '\\';
  }

  /**
   * The printed forms of booleans and one-byte characters read back; a
   * character reads back as itself exactly when it is ASCII.
   */
  lemma AtomRoundTrips(h: Heap, b: bool, c: char, rest: string)
    ensures Inspect(Boolean(b), h).Text? && Inspect(Char([c]), h).Text?
    ensures ReadSpec(Inspect(Boolean(b), h).s + rest, RState(0, false, h)).0 == Ok(Boolean(b))
    ensures ReadSpec(Inspect(Char([c]), h).s + rest, RState(0, false, h)).0 == Ok(Char(EncodeRune(c)))
    ensures ReadSpec(Inspect(Char([c]), h).s + rest, RState(0, false, h)).0 == Ok(Char([c])) <==> c < '\U{80}'
  {
    InspectAtoms(h, [c], "", [], Nil, 0);
    ReadsBoolean(Inspect(Boolean(b), h).s + rest, RState(0, false, h), b);
    ReadsChar(Inspect(Char([c]), h).s + rest, RState(0, false, h));
  }

  /** An unknown byte after `#` is a panic naming it. */
  lemma HashOtherPanics(input: string, s: RState)
    requires s.pos + 2 <= |input| && input[s.pos] == '#'
    requires !IsWS(input[s.pos + 1]) && !(UpperChar(input[s.pos + 1]) in "TF\\")
    ensures ReadSpec(input, s).0 ==
            Fault("Expecting one of F or T or \\ found " + UpperByteText(input[s.pos + 1]) + " instead.")
  {
    ReadDispatchesHash(input, s);
    HashReads(input, s.(pos := s.pos + 1, lastRead := true));
  }

  /** `#é` (one byte 0xE9) panics naming the UTF-8 text of its capital `É` (C3 89). */
  lemma HashHighBytePanics(h: Heap)
    ensures ReadSpec("#\U{E9}", RState(0, false, h)).0 ==
            Fault("Expecting one of F or T or \\ found " + "\U{C3}\U{89}" + " instead.")
  {
    HashByteNames("#\U{E9}", "\U{C3}\U{89}", h);
  }

  /** `#©` (one byte 0xA9), which has no capital, panics naming its own UTF-8 text (C2 A9). */
  lemma HashSymbolBytePanics(h: Heap)
    ensures ReadSpec("#\U{A9}", RState(0, false, h)).0 ==
            Fault("Expecting one of F or T or \\ found " + "\U{C2}\U{A9}" + " instead.")
  {
    HashByteNames("#\U{A9}", "\U{C2}\U{A9}", h);
  }

  lemma HashByteNames(input: string, u: string, h: Heap)
    requires |input| == 2 && input[0] == '#' && '\U{80}' <= input[1] <= '\U{FF}'
    requires EncodeRune(UpperRune(input[1])) == u
    ensures UpperByteText(input[1]) == u
    ensures ReadSpec(input, RState(0, false, h)).0 == Fault("Expecting one of F or T or \\ found " + u + " instead.")
  {
    HashOtherPanics(input, RState(0, false, h));
  }

  // ---------------------------------------------------------------------
  // Strings

  /** The non-blank bytes of `t`, in order. */
  function NonBlank(t: string): (r: string)
    ensures |r| <= |t|
    ensures forall k :: 0 <= k < |r| ==> !IsWS(r[k])
  {
    if t == [] then []
    else (if IsWS(t[0]) then [] else [t[0]]) + NonBlank(t[1..])
  }

  lemma {:induction false} NonBlankOfSolid(t: string)
    requires forall k :: 0 <= k < |t| ==> !IsWS(t[k])
    ensures NonBlank(t) == t
  {
    if t != [] {
      NonBlankOfSolid(t[1..]);
    }
  }

  /** Blanks at the front of a slice contribute nothing. */
  lemma {:induction false} SkipBlanks(input: string, i: nat, k: nat, q: nat)
    requires i <= k <= q <= |input|
    requires forall m :: i <= m < k ==> IsWS(input[m])
    ensures NonBlank(input[i..q]) == NonBlank(input[k..q])
    decreases k - i
  {
    if i < k {
      assert input[i..q][1..] == input[i + 1..q];
      SkipBlanks(input, i + 1, k, q);
    }
  }

  /** The first `"` at or after `i` is at `q`. */
  predicate ClosesAt(input: string, i: nat, q: nat)
  {
    i <= q < |input| && input[q] == '"' && forall k :: i <= k < q ==> input[k] != '"'
  }

  /**
   * The string loop keeps the first byte as it is and then every
   * non-blank byte up to the next `"`, which it consumes: blanks inside a
   * string literal are lost.
   */
  lemma {:induction false} StringDropsBlanks(input: string, s: RState, acc: string, q: nat)
    requires s.pos < |input| && ClosesAt(input, s.pos + 1, q)
    ensures StringSpec(input, s, acc) ==
            (Ok(Str(acc + [input[s.pos]] + NonBlank(input[s.pos + 1..q]))), RState(q + 1, true, s.heap))
    decreases |input| - s.pos
  {
    var s1 := s.(pos := s.pos + 1, lastRead := true);
    var acc' := acc + [input[s.pos]];
    var (p, s2) := PeekSpec(input, s1);
    assert s2.pos <= q;
    SkipBlanks(input, s.pos + 1, s2.pos, q);
    if s2.pos == q {
      assert input[q..q] == [];
      assert NonBlank(input[s.pos + 1..q]) == [];
      assert p == Byte('"');
      assert acc + [input[s.pos]] + [] == acc';
    } else {
      assert p.Byte? && p.b != '"';
      assert StringSpec(input, s, acc) == StringSpec(input, s2, acc');
      StringDropsBlanks(input, s2, acc', q);
      NonBlankHead(input, s2.pos, q);
      assert acc' + [input[s2.pos]] + NonBlank(input[s2.pos + 1..q]) == acc + [input[s.pos]] + NonBlank(input[s.pos + 1..q]);
      assert s2.heap == s.heap;
    }
  }

  lemma NonBlankHead(input: string, k: nat, q: nat)
    requires k < q <= |input| && !IsWS(input[k])
    ensures NonBlank(input[k..q]) == [input[k]] + NonBlank(input[k + 1..q])
  {
    assert input[k..q][1..] == input[k + 1..q];
  }

  /** Without a closing `"`, the string loop reports the missing quote. */
  lemma {:induction false} StringMissingQuote(input: string, s: RState, acc: string)
    requires s.pos < |input|
    requires forall k :: s.pos < k < |input| ==> input[k] != '"'
    ensures StringSpec(input, s, acc).0 == Ok(Error(MissingQuote))
    decreases |input| - s.pos
  {
    var s1 := s.(pos := s.pos + 1, lastRead := true);
    var (p, s2) := PeekSpec(input, s1);
    if p.Byte? {
      StringMissingQuote(input, s2, acc + [input[s.pos]]);
    }
  }

  /**
   * A string literal whose text has no blank and no `"` after its first
   * byte reads back as exactly that text; this is how `StringOf` prints
   * a String.
   */
  lemma StringRoundTrip(h: Heap, t: string, rest: string)
    requires |t| >= 1 && forall k :: 1 <= k < |t| ==> !IsWS(t[k]) && t[k] != '"'
    ensures StringOf(Str(t), h).Text?
    ensures ReadSpec(StringOf(Str(t), h).s + rest, RState(0, false, h)).0 == Ok(Str(t))
  {
    InspectAtoms(h, t, "", [], Nil, 0);
    var input := "\"" + t + "\"" + rest;
    assert StringOf(Str(t), h).s + rest == input;
    var q := |t| + 1;
    forall k | 2 <= k < q
      ensures input[k] != '"'
    {
      assert input[k] == t[k - 1];
    }
    assert ReadSpec(input, RState(0, false, h)) == StringSpec(input, RState(1, true, h), "");
    assert input[1] == t[0] && input[q] == '"';
    StringDropsBlanks(input, RState(1, true, h), "", q);
    assert input[2..q] == t[1..];
    NonBlankOfSolid(t[1..]);
    assert "" + [input[1]] + t[1..] == t;
  }

  // ---------------------------------------------------------------------
  // Lists and quotation

  /** `'E` reads as the list `(quote E)`, and `` `E `` as `(quasiquote E)`; a failed E fails the whole. */
  lemma QuoteIsSugar(input: string, s: RState)
    requires s.pos < |input| && (input[s.pos] == '\'' || input[s.pos] == '`')
    ensures var word := if input[s.pos] == '\'' then "quote" else "quasiquote";
            var (e, s1) := ReadSpec(input, s.(pos := s.pos + 1, lastRead := true));
            ReadSpec(input, s) ==
            (if e.Ok? && !e.value.Error? then Ok(Pair(Identifier(word), Pair(e.value, Nil))) else e, s1)
  {
    var word := if input[s.pos] == '\'' then "quote" else "quasiquote";
    assert ReadSpec(input, s) == QuoteSpec(input, s.(pos := s.pos + 1, lastRead := true), word);
  }

  /** `(` and `)` with only blanks between are skipped: the reader returns the object after them. */
  lemma {:induction false} EmptyListVanishes(input: string, s: RState, k: nat)
    requires s.pos < k < |input| && input[s.pos] == '(' && input[k] == ')'
    requires forall m :: s.pos < m < k ==> IsWS(input[m])
    ensures ReadSpec(input, s) == ReadSpec(input, RState(k + 1, false, s.heap))
  {
    PeekSkips(input, s.(pos := s.pos + 1, lastRead := true), k);
  }

  /** Peeking over blanks up to the non-blank byte at `k` lands on it. */
  lemma {:induction false} PeekSkips(input: string, s: RState, k: nat)
    requires s.pos <= k < |input| && !IsWS(input[k])
    requires forall m :: s.pos <= m < k ==> IsWS(input[m])
    ensures PeekSpec(input, s) == (Byte(input[k]), RState(k, false, s.heap))
    decreases k - s.pos
  {
    if s.pos < k {
      PeekSkips(input, s.(pos := s.pos + 1, lastRead := false), k);
    }
  }

  /** A letter that cannot begin `inf`, `infinity` or `nan`. */
  predicate WordStart(c: char)
  {
    ('a' <= c <= 'z' || 'A' <= c <= 'Z') && LowerChar(c) != 'i' && LowerChar(c) != 'n'
  }

  /** An atom beginning with such a letter is neither an integer nor a float: it is the upper-cased identifier. */
  lemma WordAtom(text: string, h: Heap)
    requires |text| >= 1 && WordStart(text[0])
    ensures AtomValue(text, h) == (Identifier(Upper(text)), h)
  {
    assert !AllDigitsIn(text, 10) by {
      assert DigitValue(text[0]) >= 10;
    }
    assert ParseInt64(text) == None;
    assert Lower(text)[0] == LowerChar(text[0]);
    assert DigitRun(text, 0) == 0;
  }

  /** A word of such letters and other non-delimiting bytes reads as that word, upper-cased. */
  lemma ReadsWord(input: string, s: RState, w: string)
    requires |w| >= 1 && WordStart(w[0]) && forall k :: 0 <= k < |w| ==> !Delimits(w[k])
    requires s.pos + |w| <= |input| && input[s.pos..s.pos + |w|] == w
    requires s.pos + |w| == |input| || Delimits(input[s.pos + |w|])
    ensures var e := s.pos + |w|;
            ReadSpec(input, s) ==
            (Ok(Identifier(Upper(w))), RState(AfterAtom(input, e), e == |input| || IsWS(input[e]), s.heap))
  {
    WrittenAtSlice(input, s.pos, w);
    ReadsWordAt(input, s, w);
  }

  /** `ReadsWord`, with the word's bytes given one by one. */
  lemma ReadsWordAt(input: string, s: RState, w: string)
    requires |w| >= 1 && WordStart(w[0]) && forall k :: 0 <= k < |w| ==> !Delimits(w[k])
    requires WrittenAt(input, s.pos, w)
    requires s.pos + |w| == |input| || Delimits(input[s.pos + |w|])
    ensures var e := s.pos + |w|;
            ReadSpec(input, s) ==
            (Ok(Identifier(Upper(w))), RState(AfterAtom(input, e), e == |input| || IsWS(input[e]), s.heap))
  {
    var e := s.pos + |w|;
    var st := RState(AfterAtom(input, e), e == |input| || IsWS(input[e]), s.heap);
    WordIsRun(input, s.pos, w);
    ReadRunFinishes(input, s, e);
    WordSliceFinishes(input, s.pos, w, e, st);
  }

  /** `Read` at the first byte of an atom whose run ends at `e`. */
  lemma ReadRunFinishes(input: string, s: RState, e: nat)
    requires s.pos < e <= |input| && StartsAtom(input[s.pos]) && RunEnd(input, s.pos + 1) == e
    ensures ReadSpec(input, s) ==
            FinishAtom(input[s.pos..e], RState(AfterAtom(input, e), e == |input| || IsWS(input[e]), s.heap))
  {
    ReadDispatchesAtom(input, s);
    AtomWordRun(input, s, e);
  }

  lemma WordSliceFinishes(input: string, i: nat, w: string, e: nat, st: RState)
    requires |w| >= 1 && WordStart(w[0]) && WrittenAt(input, i, w) && e == i + |w|
    ensures FinishAtom(input[i..e], st) == (Ok(Identifier(Upper(w))), st)
  {
    WrittenAtSlice(input, i, w);
    assert input[i..e] == w;
    WordFinishes(w, st);
  }

  lemma WordFinishes(w: string, st: RState)
    requires |w| >= 1 && WordStart(w[0])
    ensures FinishAtom(w, st) == (Ok(Identifier(Upper(w))), st)
  {
    WordAtom(w, st.heap);
  }

  /** The atom loop started after the first byte of a run that ends at `e` yields that run. */
  lemma AtomWordRun(input: string, s: RState, e: nat)
    requires s.pos < e <= |input| && RunEnd(input, s.pos + 1) == e
    ensures AtomSpec(input, s.(pos := s.pos + 1, lastRead := true), [input[s.pos]]) ==
            FinishAtom(input[s.pos..e], RState(AfterAtom(input, e), e == |input| || IsWS(input[e]), s.heap))
  {
    AtomReadsRun(input, s.(pos := s.pos + 1, lastRead := true), [input[s.pos]]);
    AppendSlice([], input, s.pos, e);
    assert [] + [input[s.pos]] == [input[s.pos]] && [] + input[s.pos..e] == input[s.pos..e];
  }

  lemma WordIsRun(input: string, i: nat, w: string)
    requires |w| >= 1 && forall k :: 0 <= k < |w| ==> !Delimits(w[k])
    requires WrittenAt(input, i, w)
    requires i + |w| == |input| || Delimits(input[i + |w|])
    ensures i < |input| && input[i] == w[0]
    ensures RunEnd(input, i + 1) == i + |w|
  {
    var e := i + |w|;
    WrittenByte(input, i, w, 0);
    forall k | i + 1 <= k < e
      ensures !Delimits(input[k])
    {
      WrittenByte(input, i, w, k - i);
    }
    RunEndAt(input, i + 1, e);
  }

  /** A word the reader takes as a symbol: it starts with such a letter and holds no delimiter. */
  predicate PlainWord(w: string)
  {
    |w| >= 1 && WordStart(w[0]) && forall k :: 0 <= k < |w| ==> !Delimits(w[k])
  }

  predicate PlainWords(ws: seq<string>)
  {
    forall j :: 0 <= j < |ws| ==> PlainWord(ws[j])
  }

  lemma PlainWordsTail(ws: seq<string>)
    requires |ws| >= 1 && PlainWords(ws)
    ensures PlainWord(ws[0]) && PlainWords(ws[1..])
  {
    forall k | 0 <= k < |ws[1..]| ensures PlainWord(ws[1..][k]) {
      assert ws[1..][k] == ws[k + 1];
    }
  }

  /** The symbols the words read as. */
  function Symbols(ws: seq<string>): seq<Value>
  {
    seq(|ws|, j requires 0 <= j < |ws| => Identifier(Upper(ws[j])))
  }

  /** How a written list ends after its last word: `)`, or ` . v)` for a dotted tail `v`. */
  function ListEnd(tail: Option<string>): string
  {
    match tail
    case None => ")"
    case Some(v) => " . " + v + ")"
  }

  function TailValue(tail: Option<string>): Value
  {
    match tail
    case None => Nil
    case Some(v) => Identifier(Upper(v))
  }

  /**
   * `t` is written in `input` from `i` on.  Each byte of the input is
   * known only once the matching byte of `t` is asked for, which keeps
   * the reader's functions from being unfolded along the whole text.
   */
  predicate WrittenAt(input: string, i: nat, t: string)
  {
    i + |t| <= |input| && forall k {:trigger ByteOf(t, k)} :: 0 <= k < |t| ==> input[i + k] == ByteOf(t, k)
  }

  /** The byte `k` of `t`; a proof asks for it through `WrittenByte`. */
  function ByteOf(t: string, k: nat): char
    requires k < |t|
  {
    t[k]
  }

  lemma WrittenByte(input: string, i: nat, t: string, k: nat)
    requires WrittenAt(input, i, t) && k < |t|
    ensures input[i + k] == t[k]
  {
    assert input[i + k] == ByteOf(t, k);
  }

  lemma WrittenAtSlice(input: string, i: nat, t: string)
    requires i + |t| <= |input|
    ensures WrittenAt(input, i, t) <==> input[i..i + |t|] == t
  {
    if WrittenAt(input, i, t) {
      forall k | 0 <= k < |t| ensures input[i..i + |t|][k] == t[k] {
        WrittenByte(input, i, t, k);
      }
    }
    if input[i..i + |t|] == t {
      forall k | 0 <= k < |t| ensures input[i + k] == ByteOf(t, k) {
        assert input[i..i + |t|][k] == input[i + k];
      }
    }
  }

  lemma WrittenAtSplits(input: string, i: nat, a: string, b: string)
    requires WrittenAt(input, i, a + b)
    ensures WrittenAt(input, i, a) && WrittenAt(input, i + |a|, b)
  {
    forall k | 0 <= k < |a| ensures input[i + k] == ByteOf(a, k) {
      WrittenByte(input, i, a + b, k);
      assert (a + b)[k] == a[k];
    }
    forall k | 0 <= k < |b| ensures input[i + |a| + k] == ByteOf(b, k) {
      WrittenByte(input, i, a + b, |a| + k);
      assert (a + b)[|a| + k] == b[k];
    }
  }

  /**
   * The text the list loop sees: each word followed by the blank the atom
   * loop consumes with it, except a last word that `)` follows.
   */
  function ListText(ws: seq<string>, tail: Option<string>): string
  {
    ListHead(ws, tail) + TailRest(tail)
  }

  /** The words of a list up to its `)` or the `.` of its dotted tail. */
  function ListHead(ws: seq<string>, tail: Option<string>): (t: string)
    ensures |t| >= 1
  {
    if ws == [] then (if tail.None? then ")" else ".")
    else ws[0] + (if |ws| > 1 || tail.Some? then " " else "") + ListHead(ws[1..], tail)
  }

  /** What follows the `.` of a dotted tail. */
  function TailRest(tail: Option<string>): string
  {
    match tail
    case None => ""
    case Some(v) => " " + v + ")"
  }

  lemma {:induction false} ListHeadJoins(ws: seq<string>, tail: Option<string>)
    requires |ws| >= 1
    ensures ListText(ws, tail) == Join(ws, " ") + ListEnd(tail)
  {
    var w := ws[0];
    if |ws| == 1 {
      ListTextOfOne(ws, tail);
    } else {
      var rest := ListText(ws[1..], tail);
      assert ListText(ws, tail) == w + " " + rest by {
        Assoc(w + " ", ListHead(ws[1..], tail), TailRest(tail));
      }
      ListHeadJoins(ws[1..], tail);
      assert Join(ws, " ") == w + " " + Join(ws[1..], " ");
      Assoc(w + " ", Join(ws[1..], " "), ListEnd(tail));
    }
  }

  lemma ListTextOfOne(ws: seq<string>, tail: Option<string>)
    requires |ws| == 1
    ensures ListText(ws, tail) == ws[0] + ListEnd(tail)
  {
    var w := ws[0];
    assert ws[1..] == [];
    if tail.None? {
      assert ListHead(ws[1..], tail) == ")";
      assert ListHead(ws, tail) == w + "" + ")";
      assert w + "" == w;
      assert ListText(ws, tail) == ListHead(ws, tail) + "";
    } else {
      var v := tail.value;
      var x := " " + v + ")";
      assert ListHead(ws[1..], tail) == ".";
      assert ListHead(ws, tail) == w + " " + ".";
      Assoc(w + " ", ".", x);
      Assoc(w, " ", "." + x);
      DotText(v);
    }
  }

  lemma DotText(v: string)
    ensures " " + ("." + (" " + v + ")")) == " . " + v + ")"
  {
  }

  lemma Assoc(a: string, b: string, c: string)
    ensures a + b + c == a + (b + c)
  {
  }

  lemma {:induction false} ListHeadEnds(ws: seq<string>, tail: Option<string>)
    ensures ListHead(ws, tail)[|ListHead(ws, tail)| - 1] == (if tail.None? then ')' else '.')
    decreases |ws|
  {
    if ws != [] {
      ListHeadEnds(ws[1..], tail);
    }
  }

  /** One word of a list read from its first byte; a blank after it is consumed with it. */
  lemma ReadsListWord(input: string, i: nat, ws: seq<string>, tail: Option<string>, h: Heap, j: nat, more: bool)
    requires |ws| >= 1 && PlainWord(ws[0])
    requires WrittenAt(input, i, ListHead(ws, tail))
    requires more == (|ws| > 1 || tail.Some?) && j == i + |ws[0]| + (if more then 1 else 0)
    ensures ReadSpec(input, RState(i, false, h)) == (Ok(Identifier(Upper(ws[0]))), RState(j, more, h)) &&
            WrittenAt(input, j, ListHead(ws[1..], tail))
  {
    var w := ws[0];
    var more := |ws| > 1 || tail.Some?;
    var gap := if more then " " else "";
    var rest := ListHead(ws[1..], tail);
    assert ListHead(ws, tail) == w + (gap + rest);
    WrittenAtSplits(input, i, w, gap + rest);
    WrittenAtSplits(input, i + |w|, gap, rest);
    var e := i + |w|;
    WrittenByte(input, e, gap + rest, 0);
    if !more {
      assert rest == ")";
    }
    ReadsWordAt(input, RState(i, false, h), w);
  }

  /** The list loop reads one word as one more element. */
  lemma ListStep(input: string, i: nat, lastRead: bool, ws: seq<string>, tail: Option<string>, elems: seq<Value>, h: Heap,
                  j: nat, more: bool)
    requires |ws| >= 1 && PlainWord(ws[0])
    requires WrittenAt(input, i, ListHead(ws, tail))
    requires more == (|ws| > 1 || tail.Some?) && j == i + |ws[0]| + (if more then 1 else 0)
    ensures ListSpec(input, RState(i, lastRead, h), elems, Nil) ==
            ListSpec(input, RState(j, more, h), elems + [Identifier(Upper(ws[0]))], Nil)
  {
    var w := ws[0];
    assert input[i] == w[0] by {
      WrittenByte(input, i, ListHead(ws, tail), 0);
      assert ListHead(ws, tail)[0] == w[0];
    }
    PeekSkips(input, RState(i, lastRead, h), i);
    assert CurrentByteSpec(input, RState(i, false, h)) == (Byte(w[0]), RState(i + 1, true, h));
    assert UnreadSpec(input, RState(i + 1, true, h)) == (true, RState(i, false, h));
    ReadsListWord(input, i, ws, tail, h, j, more);
  }

  /** The list loop at `)` ends the chain. */
  lemma ListCloses(input: string, i: nat, lastRead: bool, elems: seq<Value>, tail: Value, h: Heap)
    requires i < |input| && input[i] == ')'
    ensures ListSpec(input, RState(i, lastRead, h), elems, tail) == (Ok(Chain(elems, tail)), RState(i + 1, false, h))
  {
    PeekSkips(input, RState(i, lastRead, h), i);
  }

  /** The list loop at `.` reads the next object as the cdr of the last cell. */
  lemma ListDot(input: string, i: nat, lastRead: bool, elems: seq<Value>, h: Heap, x: Value, s3: RState)
    requires i < |input| && input[i] == '.'
    requires ReadSpec(input, RState(i + 1, true, h)) == (Ok(x), s3) && !x.Error?
    ensures s3.pos <= |input|
    ensures ListSpec(input, RState(i, lastRead, h), elems, Nil) == ListSpec(input, s3, elems, x)
  {
    PeekSkips(input, RState(i, lastRead, h), i);
  }

  /**
   * What the reader makes of the dotted tail whose `.` is at `e`: the word
   * after it, ending just before a `)`.
   */
  predicate TailReads(input: string, e: nat, tail: Option<string>, h: Heap)
  {
    match tail
    case None => true
    case Some(v) =>
      var f := e + 2 + |v|;
      f < |input| && input[f] == ')' &&
      ReadSpec(input, RState(e + 1, true, h)) == (Ok(Identifier(Upper(v))), RState(f, false, h))
  }

  /** After the `.` of `. v)`: a blank, then the word. */
  lemma DottedTail(input: string, i: nat, v: string, h: Heap)
    requires PlainWord(v)
    requires WrittenAt(input, i, ". " + v + ")")
    ensures TailReads(input, i, Some(v), h)
  {
    var f := i + 2 + |v|;
    assert ". " + v + ")" == ". " + (v + ")");
    WrittenAtSplits(input, i, ". ", v + ")");
    WrittenAtSplits(input, i + 2, v, ")");
    WrittenByte(input, i, ". ", 1);
    WrittenByte(input, f, ")", 0);
    BlankWordReads(input, i, v, h, f);
  }

  /** A blank, then a word that `)` ends: reading after the `.` yields the word and stops at the `)`. */
  lemma BlankWordReads(input: string, i: nat, v: string, h: Heap, f: nat)
    requires PlainWord(v) && WrittenAt(input, i + 2, v) && f == i + 2 + |v|
    requires f < |input| && input[i + 1] == ' ' && input[f] == ')'
    ensures ReadSpec(input, RState(i + 1, true, h)) == (Ok(Identifier(Upper(v))), RState(f, false, h))
  {
    WrittenByte(input, i + 2, v, 0);
    assert ReadSpec(input, RState(i + 1, true, h)) == BlankSpec(input, RState(i + 2, true, h));
    PeekSkips(input, RState(i + 2, true, h), i + 2);
    ReadsWordAt(input, RState(i + 2, false, h), v);
  }

  /** The list loop at the `.` of `. v)` makes `v` the cdr of the last cell and ends the chain. */
  lemma ListDottedEnd(input: string, i: nat, lastRead: bool, tail: Option<string>, elems: seq<Value>, h: Heap)
    requires tail.Some? && i < |input| && input[i] == '.' && TailReads(input, i, tail, h)
    ensures ListSpec(input, RState(i, lastRead, h), elems, Nil) ==
            (Ok(Chain(elems, TailValue(tail))), RState(i + 1 + |TailRest(tail)|, false, h))
  {
    var f := i + 2 + |tail.value|;
    var x := TailValue(tail);
    DottedTailValue(i, tail, elems, h, f);
    ListDotCloses(input, i, lastRead, elems, h, x, f);
  }

  lemma DottedTailValue(i: nat, tail: Option<string>, elems: seq<Value>, h: Heap, f: nat)
    requires tail.Some? && f == i + 2 + |tail.value|
    ensures TailValue(tail) == Identifier(Upper(tail.value)) && !TailValue(tail).Error?
    ensures (Ok(Chain(elems, TailValue(tail))), RState(f + 1, false, h)) ==
            (Ok(Chain(elems, TailValue(tail))), RState(i + 1 + |TailRest(tail)|, false, h))
  {
  }

  /** The list loop at `.`, once the object after it is followed by `)`. */
  lemma ListDotCloses(input: string, i: nat, lastRead: bool, elems: seq<Value>, h: Heap, x: Value, f: nat)
    requires i < |input| && input[i] == '.' && f < |input| && input[f] == ')'
    requires ReadSpec(input, RState(i + 1, true, h)) == (Ok(x), RState(f, false, h)) && !x.Error?
    ensures ListSpec(input, RState(i, lastRead, h), elems, Nil) == (Ok(Chain(elems, x)), RState(f + 1, false, h))
  {
    ListDot(input, i, lastRead, elems, h, x, RState(f, false, h));
    ListCloses(input, f, false, elems, x, h);
  }

  /** The list loop at the `)`, or at the `.` of a dotted tail, after the last word. */
  lemma ListEnds(input: string, i: nat, lastRead: bool, tail: Option<string>, elems: seq<Value>, h: Heap)
    requires i < |input| && input[i] == (if tail.None? then ')' else '.') && TailReads(input, i, tail, h)
    ensures ListSpec(input, RState(i, lastRead, h), elems, Nil) ==
            (Ok(Chain(elems, TailValue(tail))), RState(i + 1 + |TailRest(tail)|, false, h))
  {
    if tail.None? {
      ListEndsClosed(input, i, lastRead, tail, elems, h);
    } else {
      ListDottedEnd(input, i, lastRead, tail, elems, h);
    }
  }

  lemma ListEndsClosed(input: string, i: nat, lastRead: bool, tail: Option<string>, elems: seq<Value>, h: Heap)
    requires tail.None? && i < |input| && input[i] == ')'
    ensures ListSpec(input, RState(i, lastRead, h), elems, Nil) ==
            (Ok(Chain(elems, TailValue(tail))), RState(i + 1 + |TailRest(tail)|, false, h))
  {
    ListCloses(input, i, lastRead, elems, Nil, h);
  }

  /** The list loop over a run of plain words, then the `)` or the dotted tail. */
  lemma {:induction false} ListReadsWords(input: string, i: nat, lastRead: bool, ws: seq<string>, tail: Option<string>,
                                          elems: seq<Value>, h: Heap, e: nat)
    requires PlainWords(ws)
    requires WrittenAt(input, i, ListHead(ws, tail))
    requires e == i + |ListHead(ws, tail)| - 1 && TailReads(input, e, tail, h)
    ensures ListSpec(input, RState(i, lastRead, h), elems, Nil) ==
            (Ok(Chain(elems + Symbols(ws), TailValue(tail))), RState(e + 1 + |TailRest(tail)|, false, h))
    decreases |ws|, 1
  {
    if |ws| == 0 {
      ListNoWords(input, i, lastRead, ws, tail, elems, h, e);
    } else {
      var more := |ws| > 1 || tail.Some?;
      ListWordsFrom(input, i, lastRead, ws, tail, elems, h, e, i + |ws[0]| + (if more then 1 else 0), more);
    }
  }

  /** `ListReadsWords` past the first word, which ends at `j`. */
  lemma {:induction false} ListWordsFrom(input: string, i: nat, lastRead: bool, ws: seq<string>, tail: Option<string>,
                                         elems: seq<Value>, h: Heap, e: nat, j: nat, more: bool)
    requires |ws| >= 1 && PlainWords(ws)
    requires WrittenAt(input, i, ListHead(ws, tail))
    requires e == i + |ListHead(ws, tail)| - 1 && TailReads(input, e, tail, h)
    requires more == (|ws| > 1 || tail.Some?) && j == i + |ws[0]| + (if more then 1 else 0)
    ensures ListSpec(input, RState(i, lastRead, h), elems, Nil) ==
            (Ok(Chain(elems + Symbols(ws), TailValue(tail))), RState(e + 1 + |TailRest(tail)|, false, h))
    decreases |ws|, 0
  {
    ListWordNext(input, i, ws, tail, h, e, j, more);
    ListReadsWords(input, j, more, ws[1..], tail, elems + [Identifier(Upper(ws[0]))], h, e);
    ListWordStep(input, i, lastRead, ws, tail, elems, h, e, j, more);
  }

  /** The list loop when no word is left: the `)` or the dotted tail. */
  lemma ListNoWords(input: string, i: nat, lastRead: bool, ws: seq<string>, tail: Option<string>,
                    elems: seq<Value>, h: Heap, e: nat)
    requires ws == []
    requires WrittenAt(input, i, ListHead(ws, tail))
    requires e == i + |ListHead(ws, tail)| - 1 && TailReads(input, e, tail, h)
    ensures ListSpec(input, RState(i, lastRead, h), elems, Nil) ==
            (Ok(Chain(elems + Symbols(ws), TailValue(tail))), RState(e + 1 + |TailRest(tail)|, false, h))
  {
    NoWordsLeft(ws, tail, elems);
    assert e == i;
    WrittenByte(input, i, ListHead(ws, tail), 0);
    ListEnds(input, i, lastRead, tail, elems, h);
    assert Chain(elems + Symbols(ws), TailValue(tail)) == Chain(elems, TailValue(tail));
  }

  lemma NoWordsLeft(ws: seq<string>, tail: Option<string>, elems: seq<Value>)
    requires ws == []
    ensures ListHead(ws, tail) == (if tail.None? then ")" else ".") && elems + Symbols(ws) == elems
  {
  }

  /** One step of `ListReadsWords`: the first word, then the rest of the list. */
  lemma ListWordStep(input: string, i: nat, lastRead: bool, ws: seq<string>, tail: Option<string>,
                     elems: seq<Value>, h: Heap, e: nat, j: nat, more: bool)
    requires |ws| >= 1 && PlainWords(ws)
    requires WrittenAt(input, i, ListHead(ws, tail))
    requires more == (|ws| > 1 || tail.Some?) && j == i + |ws[0]| + (if more then 1 else 0)
    requires j <= |input| &&
             ListSpec(input, RState(j, more, h), elems + [Identifier(Upper(ws[0]))], Nil) ==
             (Ok(Chain(elems + [Identifier(Upper(ws[0]))] + Symbols(ws[1..]), TailValue(tail))), RState(e + 1 + |TailRest(tail)|, false, h))
    ensures ListSpec(input, RState(i, lastRead, h), elems, Nil) ==
            (Ok(Chain(elems + Symbols(ws), TailValue(tail))), RState(e + 1 + |TailRest(tail)|, false, h))
  {
    ListWordThen(input, i, lastRead, ws, tail, elems, h, j, more);
  }

  /** After the first word, the rest of the words are written from the next position. */
  lemma ListWordNext(input: string, i: nat, ws: seq<string>, tail: Option<string>, h: Heap, e: nat, j: nat, more: bool)
    requires |ws| >= 1 && PlainWords(ws)
    requires WrittenAt(input, i, ListHead(ws, tail))
    requires e == i + |ListHead(ws, tail)| - 1
    requires more == (|ws| > 1 || tail.Some?) && j == i + |ws[0]| + (if more then 1 else 0)
    ensures PlainWords(ws[1..]) && WrittenAt(input, j, ListHead(ws[1..], tail)) && e == j + |ListHead(ws[1..], tail)| - 1
  {
    PlainWordsTail(ws);
    ReadsListWord(input, i, ws, tail, h, j, more);
  }

  /** The list loop's result from the first word on is its result from the second word on. */
  lemma ListWordThen(input: string, i: nat, lastRead: bool, ws: seq<string>, tail: Option<string>, elems: seq<Value>, h: Heap,
                      j: nat, more: bool)
    requires |ws| >= 1 && PlainWords(ws)
    requires WrittenAt(input, i, ListHead(ws, tail))
    requires more == (|ws| > 1 || tail.Some?) && j == i + |ws[0]| + (if more then 1 else 0)
    ensures var x := Identifier(Upper(ws[0]));
            ListSpec(input, RState(i, lastRead, h), elems, Nil) == ListSpec(input, RState(j, more, h), elems + [x], Nil) &&
            elems + [x] + Symbols(ws[1..]) == elems + Symbols(ws)
  {
    PlainWordsTail(ws);
    ListStep(input, i, lastRead, ws, tail, elems, h, j, more);
    assert [Identifier(Upper(ws[0]))] + Symbols(ws[1..]) == Symbols(ws);
  }

  /** The full text of a list from its first word: the words, then the tail's text facts. */
  lemma ListTextSplits(input: string, i: nat, ws: seq<string>, tail: Option<string>, h: Heap, e: nat)
    requires tail.Some? ==> PlainWord(tail.value)
    requires WrittenAt(input, i, ListText(ws, tail)) && e == i + |ListHead(ws, tail)| - 1
    ensures WrittenAt(input, i, ListHead(ws, tail))
    ensures TailReads(input, e, tail, h)
  {
    var hd := ListHead(ws, tail);
    WrittenAtSplits(input, i, hd, TailRest(tail));
    if tail.Some? {
      ListHeadEnds(ws, tail);
      var n := |hd| - 1;
      var d := ". " + tail.value + ")";
      assert hd + TailRest(tail) == hd[..n] + d by {
        assert hd == hd[..n] + ".";
      }
      WrittenAtSplits(input, i, hd[..n], d);
      DottedTail(input, i + n, tail.value, h);
    }
  }

  /**
   * `(w1 w2 … wn)` reads as the chain of the upper-cased symbols ending
   * in nil, and `(w1 … wn . v)` as the chain ending in the symbol of
   * `v`; the closing `)` is consumed.  The text after `(` is `ListText`,
   * which `ListHeadJoins` shows is the words joined by blanks, then `)`
   * or ` . v)`.  A first word `lambda` is excluded: it starts a lambda
   * form.
   */
  lemma ReadsListOfWords(input: string, s: RState, ws: seq<string>, tail: Option<string>)
    requires |ws| >= 1 && PlainWords(ws) && Upper(ws[0]) != "LAMBDA"
    requires tail.Some? ==> PlainWord(tail.value)
    requires WrittenAt(input, s.pos, "(" + ListText(ws, tail))
    ensures ReadSpec(input, s) ==
            (Ok(Chain(Symbols(ws), TailValue(tail))), RState(s.pos + 1 + |ListText(ws, tail)|, false, s.heap))
  {
    var more := |ws| > 1 || tail.Some?;
    ListOfWordsFrom(input, s, ws, tail, s.pos + 1 + |ws[0]| + (if more then 1 else 0), more);
  }

  /** `ReadsListOfWords` with the end `j` of the first word and whether more follows it. */
  lemma ListOfWordsFrom(input: string, s: RState, ws: seq<string>, tail: Option<string>, j: nat, more: bool)
    requires |ws| >= 1 && PlainWords(ws) && Upper(ws[0]) != "LAMBDA"
    requires tail.Some? ==> PlainWord(tail.value)
    requires WrittenAt(input, s.pos, "(" + ListText(ws, tail))
    requires more == (|ws| > 1 || tail.Some?) && j == s.pos + 1 + |ws[0]| + (if more then 1 else 0)
    ensures ReadSpec(input, s) ==
            (Ok(Chain(Symbols(ws), TailValue(tail))), RState(s.pos + 1 + |ListText(ws, tail)|, false, s.heap))
  {
    var x := Identifier(Upper(ws[0]));
    var s2 := RState(j, more, s.heap);
    var r := (Ok(Chain(Symbols(ws), TailValue(tail))), RState(s.pos + 1 + |ListText(ws, tail)|, false, s.heap));
    ListOfWordsHead(input, s.pos, ws, tail, s.heap, x, j, more, s2);
    ListOfWordsRest(input, s.pos, ws, tail, s.heap, x, j, more, r);
    ParenFirst(input, s, ws[0][0], x, s2, r);
  }

  /** Reading a list of words up to its first word: `(`, then the first word peeked and read. */
  lemma ListOfWordsHead(input: string, p: nat, ws: seq<string>, tail: Option<string>, h: Heap,
                        x: Value, j: nat, more: bool, s2: RState)
    requires |ws| >= 1 && PlainWords(ws) && Upper(ws[0]) != "LAMBDA"
    requires WrittenAt(input, p, "(" + ListText(ws, tail))
    requires x == Identifier(Upper(ws[0]))
    requires more == (|ws| > 1 || tail.Some?) && j == p + 1 + |ws[0]| + (if more then 1 else 0) && s2 == RState(j, more, h)
    ensures p < |input| && input[p] == '(' && |ws[0]| >= 1 && ws[0][0] != ')'
    ensures PeekSpec(input, RState(p + 1, true, h)) == (Byte(ws[0][0]), RState(p + 1, false, h))
    ensures ReadSpec(input, RState(p + 1, false, h)) == (Ok(x), s2) && !x.Error? && x != Identifier("LAMBDA")
  {
    WrittenAtSplits(input, p, "(", ListText(ws, tail));
    WrittenByte(input, p, "(", 0);
    WrittenAtSplits(input, p + 1, ListHead(ws, tail), TailRest(tail));
    ListOpens(input, p + 1, ws, tail, h, j, more);
  }

  /** Reading a list of words from its second word on: the list loop. */
  lemma ListOfWordsRest(input: string, p: nat, ws: seq<string>, tail: Option<string>, h: Heap,
                        x: Value, j: nat, more: bool, r: (Outcome<Value>, RState))
    requires |ws| >= 1 && PlainWords(ws)
    requires tail.Some? ==> PlainWord(tail.value)
    requires WrittenAt(input, p, "(" + ListText(ws, tail))
    requires x == Identifier(Upper(ws[0]))
    requires more == (|ws| > 1 || tail.Some?) && j == p + 1 + |ws[0]| + (if more then 1 else 0)
    requires r == (Ok(Chain(Symbols(ws), TailValue(tail))), RState(p + 1 + |ListText(ws, tail)|, false, h))
    ensures j <= |input| && ListSpec(input, RState(j, more, h), [x], Nil) == r
  {
    var e := p + |ListHead(ws, tail)|;
    ListOfWordsText(input, p, ws, tail, h, e);
    ListOfWordsLoop(input, p + 1, ws, tail, h, e, j, more);
    ListTextEnd(p, ws, tail, h, e, r);
  }

  lemma ListTextEnd(p: nat, ws: seq<string>, tail: Option<string>, h: Heap, e: nat, r: (Outcome<Value>, RState))
    requires e == p + |ListHead(ws, tail)|
    requires r == (Ok(Chain(Symbols(ws), TailValue(tail))), RState(p + 1 + |ListText(ws, tail)|, false, h))
    ensures r == (Ok(Chain(Symbols(ws), TailValue(tail))), RState(e + 1 + |TailRest(tail)|, false, h))
  {
  }

  /** The text of a list of words: `(`, the words, and what follows the last of them. */
  lemma ListOfWordsText(input: string, p: nat, ws: seq<string>, tail: Option<string>, h: Heap, e: nat)
    requires tail.Some? ==> PlainWord(tail.value)
    requires WrittenAt(input, p, "(" + ListText(ws, tail)) && e == p + |ListHead(ws, tail)|
    ensures p < |input| && input[p] == '(' && WrittenAt(input, p + 1, ListHead(ws, tail)) && TailReads(input, e, tail, h)
    ensures p + 1 + |ListText(ws, tail)| == e + 1 + |TailRest(tail)|
  {
    WrittenAtSplits(input, p, "(", ListText(ws, tail));
    WrittenByte(input, p, "(", 0);
    ListTextSplits(input, p + 1, ws, tail, h, e);
  }

  /** The list loop from the second word of a list of words on. */
  lemma ListOfWordsLoop(input: string, i: nat, ws: seq<string>, tail: Option<string>, h: Heap, e: nat, j: nat, more: bool)
    requires |ws| >= 1 && PlainWords(ws)
    requires WrittenAt(input, i, ListHead(ws, tail)) && e == i + |ListHead(ws, tail)| - 1 && TailReads(input, e, tail, h)
    requires more == (|ws| > 1 || tail.Some?) && j == i + |ws[0]| + (if more then 1 else 0)
    ensures ListSpec(input, RState(j, more, h), [Identifier(Upper(ws[0]))], Nil) ==
            (Ok(Chain(Symbols(ws), TailValue(tail))), RState(e + 1 + |TailRest(tail)|, false, h))
  {
    ListWordNext(input, i, ws, tail, h, e, j, more);
    ListLoopRest(input, j, more, ws, tail, h, e);
  }

  /** The list loop from the second word on, given the text from that word on. */
  lemma ListLoopRest(input: string, j: nat, more: bool, ws: seq<string>, tail: Option<string>, h: Heap, e: nat)
    requires |ws| >= 1 && PlainWords(ws[1..])
    requires WrittenAt(input, j, ListHead(ws[1..], tail)) && e == j + |ListHead(ws[1..], tail)| - 1 && TailReads(input, e, tail, h)
    ensures ListSpec(input, RState(j, more, h), [Identifier(Upper(ws[0]))], Nil) ==
            (Ok(Chain(Symbols(ws), TailValue(tail))), RState(e + 1 + |TailRest(tail)|, false, h))
  {
    ListReadsWords(input, j, more, ws[1..], tail, [Identifier(Upper(ws[0]))], h, e);
    ListLoopSymbols(input, j, more, ws, tail, h, e);
  }

  /** The symbols of the first word and of the rest are the symbols of all the words. */
  lemma ListLoopSymbols(input: string, j: nat, more: bool, ws: seq<string>, tail: Option<string>, h: Heap, e: nat)
    requires |ws| >= 1 && j <= |input|
    requires ListSpec(input, RState(j, more, h), [Identifier(Upper(ws[0]))], Nil) ==
             (Ok(Chain([Identifier(Upper(ws[0]))] + Symbols(ws[1..]), TailValue(tail))), RState(e + 1 + |TailRest(tail)|, false, h))
    ensures ListSpec(input, RState(j, more, h), [Identifier(Upper(ws[0]))], Nil) ==
            (Ok(Chain(Symbols(ws), TailValue(tail))), RState(e + 1 + |TailRest(tail)|, false, h))
  {
    SymbolsCons(ws);
  }

  lemma SymbolsCons(ws: seq<string>)
    requires |ws| >= 1
    ensures Symbols(ws) == [Identifier(Upper(ws[0]))] + Symbols(ws[1..])
  {
  }

  /** A first word that is not `lambda`, peeked and read after `(`. */
  lemma ListOpens(input: string, i: nat, ws: seq<string>, tail: Option<string>, h: Heap, j: nat, more: bool)
    requires |ws| >= 1 && PlainWords(ws)
    requires WrittenAt(input, i, ListHead(ws, tail))
    requires more == (|ws| > 1 || tail.Some?) && j == i + |ws[0]| + (if more then 1 else 0)
    ensures |ws[0]| >= 1 &&
            PeekSpec(input, RState(i, true, h)) == (Byte(ws[0][0]), RState(i, false, h)) && ws[0][0] != ')' &&
            ReadSpec(input, RState(i, false, h)) == (Ok(Identifier(Upper(ws[0]))), RState(j, more, h))
  {
    var w := ws[0];
    PlainWordsTail(ws);
    WrittenByte(input, i, ListHead(ws, tail), 0);
    assert input[i] == ListHead(ws, tail)[0] == w[0];
    PeekSkips(input, RState(i, true, h), i);
    ReadsListWord(input, i, ws, tail, h, j, more);
  }

  /** `(` followed by an object other than `)`, an error or `LAMBDA` starts the list loop with that object. */
  lemma ParenFirst(input: string, s: RState, c: char, x: Value, s2: RState, r: (Outcome<Value>, RState))
    requires s.pos < |input| && input[s.pos] == '('
    requires PeekSpec(input, RState(s.pos + 1, true, s.heap)) == (Byte(c), RState(s.pos + 1, false, s.heap)) && c != ')'
    requires ReadSpec(input, RState(s.pos + 1, false, s.heap)) == (Ok(x), s2)
    requires !x.Error? && x != Identifier("LAMBDA")
    requires s2.pos <= |input| && ListSpec(input, s2, [x], Nil) == r
    ensures ReadSpec(input, s) == r
  {
    assert ReadSpec(input, s) == ParenSpec(input, RState(s.pos + 1, true, s.heap));
  }

  /** A list of two identifiers; the closing `)` is consumed. */
  lemma ReadsList(h: Heap)
    ensures ReadSpec("(a b)", RState(0, false, h)) ==
            (Ok(Chain([Identifier("A"), Identifier("B")], Nil)), RState(5, false, h))
  {
    var input := "(a b)";
    var a, b := Identifier("A"), Identifier("B");
    assert Upper("a") == "A" && Upper("b") == "B";
    assert ReadSpec(input, RState(0, false, h)) == ParenSpec(input, RState(1, true, h));
    assert PeekSpec(input, RState(1, true, h)) == (Byte('a'), RState(1, false, h));
    ReadsWord(input, RState(1, false, h), "a");
    assert ParenSpec(input, RState(1, true, h)) == ListSpec(input, RState(3, true, h), [a], Nil);
    assert PeekSpec(input, RState(3, true, h)) == (Byte('b'), RState(3, false, h));
    ReadsWord(input, RState(3, false, h), "b");
    assert ListSpec(input, RState(3, true, h), [a], Nil) == ListSpec(input, RState(4, false, h), [a, b], Nil);
  }

  /** A dotted pair: the object after `.` becomes the cdr of the last cell. */
  lemma ReadsDotted(h: Heap)
    ensures ReadSpec("(a . b)", RState(0, false, h)).0 == Ok(Pair(Identifier("A"), Identifier("B")))
  {
    var a, b := Identifier("A"), Identifier("B");
    assert Upper("a") == "A" && Upper("b") == "B";
    var input := "(a . b)";
    assert ReadSpec(input, RState(0, false, h)) == ParenSpec(input, RState(1, true, h));
    assert PeekSpec(input, RState(1, true, h)) == (Byte('a'), RState(1, false, h));
    ReadsWord(input, RState(1, false, h), "a");
    assert ParenSpec(input, RState(1, true, h)) == ListSpec(input, RState(3, true, h), [a], Nil);
    assert PeekSpec(input, RState(3, true, h)) == (Byte('.'), RState(3, false, h));
    assert ReadSpec(input, RState(4, true, h)) == BlankSpec(input, RState(5, true, h));
    assert PeekSpec(input, RState(5, true, h)) == (Byte('b'), RState(5, false, h));
    ReadsWord(input, RState(5, false, h), "b");
    assert ReadSpec(input, RState(4, true, h)) == (Ok(b), RState(6, false, h));
    assert ListSpec(input, RState(3, true, h), [a], Nil) == ListSpec(input, RState(6, false, h), [a], b);
    assert PeekSpec(input, RState(6, false, h)) == (Byte(')'), RState(6, false, h));
    assert [a][1..] == [];
    assert Chain([a], b) == Pair(a, b);
  }

  const DottedThenMore := "(a . b c)"

  /** The opening of `(a . b c)`: the first element, then the `.` and the tail `b`. */
  lemma DottedThenMoreStart(h: Heap)
    ensures ReadSpec(DottedThenMore, RState(0, false, h)) == ListSpec(DottedThenMore, RState(3, true, h), [Identifier("A")], Nil)
    ensures ReadSpec(DottedThenMore, RState(4, true, h)) == (Ok(Identifier("B")), RState(7, true, h))
  {
    var input := DottedThenMore;
    assert Upper("a") == "A" && Upper("b") == "B";
    assert ReadSpec(input, RState(0, false, h)) == ParenSpec(input, RState(1, true, h));
    assert PeekSpec(input, RState(1, true, h)) == (Byte('a'), RState(1, false, h));
    ReadsWord(input, RState(1, false, h), "a");
    assert ReadSpec(input, RState(4, true, h)) == BlankSpec(input, RState(5, true, h));
    assert PeekSpec(input, RState(5, true, h)) == (Byte('b'), RState(5, false, h));
    ReadsWord(input, RState(5, false, h), "b");
  }

  /** An element after a dotted tail starts a new cell in its place: the tail is lost. */
  lemma ReadsDottedThenMore(h: Heap)
    ensures ReadSpec(DottedThenMore, RState(0, false, h)).0 == Ok(Chain([Identifier("A"), Identifier("C")], Nil))
  {
    var a, b, c := Identifier("A"), Identifier("B"), Identifier("C");
    var input := DottedThenMore;
    DottedThenMoreStart(h);
    assert PeekSpec(input, RState(3, true, h)) == (Byte('.'), RState(3, false, h));
    assert ListSpec(input, RState(3, true, h), [a], Nil) == ListSpec(input, RState(7, true, h), [a], b);
    assert Upper("c") == "C";
    assert PeekSpec(input, RState(7, true, h)) == (Byte('c'), RState(7, false, h));
    ReadsWord(input, RState(7, false, h), "c");
    assert ListSpec(input, RState(7, true, h), [a], b) == ListSpec(input, RState(8, false, h), [a, c], Nil);
  }

  const IdentityLambda := "(lambda (x) x)"

  /** `(lambda` hands over to the lambda reader, which reads the parameter list up to its `)`. */
  lemma IdentityLambdaParams(h: Heap)
    ensures ReadSpec(IdentityLambda, RState(0, false, h)) == LambdaSpec(IdentityLambda, RState(8, true, h))
    ensures LambdaSpec(IdentityLambda, RState(8, true, h)) == ParamsSpec(IdentityLambda, RState(10, false, h), ["X"])
  {
    IdentityLambdaOpens(h);
    IdentityLambdaParam(h);
  }

  lemma IdentityLambdaOpens(h: Heap)
    ensures ReadSpec(IdentityLambda, RState(0, false, h)) == LambdaSpec(IdentityLambda, RState(8, true, h))
  {
    var input := IdentityLambda;
    assert ReadSpec(input, RState(0, false, h)) == ParenSpec(input, RState(1, true, h));
    assert PeekSpec(input, RState(1, true, h)) == (Byte('l'), RState(1, false, h));
    IdentityLambdaKeyword(h);
  }

  lemma IdentityLambdaKeyword(h: Heap)
    ensures ReadSpec(IdentityLambda, RState(1, false, h)) == (Ok(Identifier("LAMBDA")), RState(8, true, h))
  {
    LambdaWordFirst(IdentityLambda, h);
  }

  /** In a text that starts `(lambda `, the word after the `(` reads as `LAMBDA`, the blank consumed. */
  lemma LambdaWordFirst(input: string, h: Heap)
    requires |input| > 8 && input[..8] == "(lambda "
    ensures ReadSpec(input, RState(1, false, h)) == (Ok(Identifier("LAMBDA")), RState(8, true, h))
  {
    assert Upper("lambda") == "LAMBDA";
    assert input[1..7] == "lambda";
    assert input[7] == ' ';
    ReadsWord(input, RState(1, false, h), "lambda");
  }

  lemma IdentityLambdaParam(h: Heap)
    ensures LambdaSpec(IdentityLambda, RState(8, true, h)) == ParamsSpec(IdentityLambda, RState(10, false, h), ["X"])
  {
    var input := IdentityLambda;
    assert Upper("x") == "X";
    assert PeekSpec(input, RState(8, true, h)) == (Byte('('), RState(8, false, h));
    assert LambdaSpec(input, RState(8, true, h)) == ParamsSpec(input, RState(9, false, h), []);
    assert PeekSpec(input, RState(9, false, h)) == (Byte('x'), RState(9, false, h));
    ReadsWord(input, RState(9, false, h), "x");
    var none: seq<string> := [];
    assert none + ["X"] == ["X"];
  }

  /**
   * `(lambda (x) x)` reads as a lambda with parameter `X` and body `X`;
   * the form's own `)` is left for the next read.
   */
  lemma ReadsLambda(h: Heap)
    ensures ReadSpec(IdentityLambda, RState(0, false, h)) ==
            (Ok(Lambda(|h.cells|, ["X"], Identifier("X"))),
             RState(13, false, Heap(h.cells + [LambdaCell(None)])))
  {
    var input := IdentityLambda;
    IdentityLambdaParams(h);
    assert Upper("x") == "X";
    assert PeekSpec(input, RState(10, false, h)) == (Byte(')'), RState(10, false, h));
    assert ParamsSpec(input, RState(10, false, h), ["X"]) == LambdaBodySpec(input, RState(11, false, h), ["X"]);
    PeekSkips(input, RState(11, false, h), 12);
    ReadsWord(input, RState(12, false, h), "x");
  }

  /** A lambda form without a parameter list is an error value, not a panic. */
  lemma LambdaWithoutParameters(h: Heap)
    ensures ReadSpec("(lambda x)", RState(0, false, h)).0 == Ok(Error(MissingOpen))
  {
    var input := "(lambda x)";
    assert ReadSpec(input, RState(0, false, h)) == ParenSpec(input, RState(1, true, h));
    assert PeekSpec(input, RState(1, true, h)) == (Byte('l'), RState(1, false, h));
    LambdaWordFirst(input, h);
    assert ParenSpec(input, RState(1, true, h)) == LambdaSpec(input, RState(8, true, h));
    assert PeekSpec(input, RState(8, true, h)) == (Byte('x'), RState(8, false, h));
  }

  // ---------------------------------------------------------------------
  // Lambda forms

  /** The parameter names the words read as. */
  function Uppers(ws: seq<string>): seq<string>
  {
    seq(|ws|, j requires 0 <= j < |ws| => Upper(ws[j]))
  }

  lemma UppersCons(params: seq<string>, ws: seq<string>)
    requires |ws| >= 1
    ensures params + [Upper(ws[0])] + Uppers(ws[1..]) == params + Uppers(ws)
  {
    assert [Upper(ws[0])] + Uppers(ws[1..]) == Uppers(ws);
  }

  lemma UppersSnoc(params: seq<string>, ws: seq<string>)
    requires |ws| >= 1
    ensures params + Uppers(ws[..|ws| - 1]) + [Upper(ws[|ws| - 1])] == params + Uppers(ws)
  {
    assert Uppers(ws[..|ws| - 1]) + [Upper(ws[|ws| - 1])] == Uppers(ws);
  }

  lemma PlainWordsInit(ws: seq<string>)
    requires |ws| >= 1 && PlainWords(ws)
    ensures PlainWords(ws[..|ws| - 1]) && PlainWord(ws[|ws| - 1])
  {
    var init := ws[..|ws| - 1];
    forall k | 0 <= k < |init| ensures PlainWord(init[k]) {
      assert init[k] == ws[k];
    }
  }

  /** `(lambda (` at `s.pos`: `Read` hands over to `readLambda` at the second `(`. */
  lemma LambdaHead(input: string, s: RState)
    requires WrittenAt(input, s.pos, "(lambda (")
    ensures ReadSpec(input, s) == LambdaSpec(input, RState(s.pos + 8, true, s.heap))
  {
    var p := s.pos;
    var t := "(lambda (";
    WrittenByte(input, p, t, 0);
    WrittenByte(input, p, t, 1);
    assert ReadSpec(input, s) == ParenSpec(input, RState(p + 1, true, s.heap));
    PeekSkips(input, RState(p + 1, true, s.heap), p + 1);
    LambdaKeywordAt(input, p, s.heap);
  }

  /** The word `lambda` after the `(` of `(lambda (` reads as `LAMBDA`, the blank after it consumed. */
  lemma LambdaKeywordAt(input: string, p: nat, h: Heap)
    requires WrittenAt(input, p, "(lambda (")
    ensures ReadSpec(input, RState(p + 1, false, h)) == (Ok(Identifier("LAMBDA")), RState(p + 8, true, h))
  {
    var t := "(lambda (";
    WrittenByte(input, p, t, 7);
    forall k | 0 <= k < 6 ensures input[p + 1 + k] == ByteOf("lambda", k) {
      WrittenByte(input, p, t, 1 + k);
    }
    ReadsWordAt(input, RState(p + 1, false, h), "lambda");
    assert Upper("lambda") == "LAMBDA";
    assert AfterAtom(input, p + 7) == p + 8;
  }

  /**
   * `readLambda` at `()`: no parameters; the body is whatever is read
   * next, an Error value included, and only a panic is passed on.
   */
  lemma LambdaNoParams(input: string, p: nat, h: Heap)
    requires p + 1 < |input| && input[p] == '(' && input[p + 1] == ')'
    ensures LambdaSpec(input, RState(p, true, h)) == LambdaOf([], ReadSpec(input, RState(p + 2, true, h)))
  {
    PeekSkips(input, RState(p, true, h), p);
    assert SkipSpec(input, RState(p, false, h)) == RState(p + 1, false, h);
    assert CurrentByteSpec(input, RState(p + 1, false, h)) == (Byte(')'), RState(p + 2, true, h));
    assert Uppers([]) == [];
  }

  /** `readLambda` at `(` and a byte other than `)`: that byte is pushed back and the parameter loop starts. */
  lemma LambdaParams(input: string, p: nat, h: Heap)
    requires p + 1 < |input| && input[p] == '(' && input[p + 1] != ')'
    ensures LambdaSpec(input, RState(p, true, h)) == ParamsSpec(input, RState(p + 1, false, h), [])
  {
    PeekSkips(input, RState(p, true, h), p);
  }

  /** A blank just read past: reading on reads what follows it. */
  lemma BlankThenBody(input: string, k: nat, h: Heap)
    requires 1 <= k < |input| && input[k - 1] == ' ' && !IsWS(input[k])
    ensures ReadSpec(input, RState(k - 1, true, h)) == ReadSpec(input, RState(k, false, h))
  {
    PeekSkips(input, RState(k, true, h), k);
  }

  /**
   * After the parameters' `)`: a blank, then a body that does not start
   * with `)`.  A panic or an Error value from the body is passed on;
   * otherwise the Lambda is allocated.
   */
  lemma BodyAfterParams(input: string, e: nat, k: nat, ps: seq<string>, h: Heap)
    requires ps != []
    requires k == e + 2 && k < |input| && input[e + 1] == ' ' && !IsWS(input[k]) && input[k] != ')'
    ensures LambdaBodySpec(input, RState(e + 1, false, h), Uppers(ps)) == LambdaOf(ps, ReadSpec(input, RState(k, false, h)))
  {
    PeekSkips(input, RState(e + 1, false, h), k);
  }

  /** The parameter loop at `)`: the `)` is skipped and the body follows. */
  lemma ParamsClose(input: string, i: nat, lastRead: bool, params: seq<string>, h: Heap)
    requires i < |input| && input[i] == ')'
    ensures ParamsSpec(input, RState(i, lastRead, h), params) == LambdaBodySpec(input, RState(i + 1, false, h), params)
  {
    PeekSkips(input, RState(i, lastRead, h), i);
  }

  /** The parameter loop reads one word as one more parameter. */
  lemma ParamWordThen(input: string, i: nat, lastRead: bool, ws: seq<string>, params: seq<string>, h: Heap,
                       j: nat, more: bool)
    requires |ws| >= 1 && PlainWord(ws[0])
    requires WrittenAt(input, i, ListHead(ws, None))
    requires more == (|ws| > 1) && j == i + |ws[0]| + (if more then 1 else 0)
    ensures ParamsSpec(input, RState(i, lastRead, h), params) == ParamsSpec(input, RState(j, more, h), params + [Upper(ws[0])]) &&
            WrittenAt(input, j, ListHead(ws[1..], None))
  {
    var w := ws[0];
    assert input[i] == w[0] by {
      WrittenByte(input, i, ListHead(ws, None), 0);
      assert ListHead(ws, None)[0] == w[0];
    }
    PeekSkips(input, RState(i, lastRead, h), i);
    ReadsListWord(input, i, ws, None, h, j, more);
  }

  /** The parameter loop over the words `ws` written before the words `more`. */
  lemma {:induction false} ParamsPrefix(input: string, i: nat, lastRead: bool, ws: seq<string>, more: seq<string>,
                                        params: seq<string>, h: Heap, m: nat)
    requires PlainWords(ws) && |more| >= 1
    requires WrittenAt(input, i, ListHead(ws + more, None))
    requires m + |ListHead(more, None)| == i + |ListHead(ws + more, None)|
    ensures WrittenAt(input, m, ListHead(more, None))
    ensures ParamsSpec(input, RState(i, lastRead, h), params) ==
            ParamsSpec(input, RState(m, if ws == [] then lastRead else true, h), params + Uppers(ws))
    decreases |ws|
  {
    if ws == [] {
      assert ws + more == more;
      assert params + Uppers(ws) == params;
    } else {
      ParamsPrefixNext(input, i, lastRead, ws, more, params, h);
      ParamsPrefix(input, i + |ws[0]| + 1, true, ws[1..], more, params + [Upper(ws[0])], h, m);
      ParamsPrefixStep(input, i, lastRead, ws, params, h, m);
    }
  }

  /** The first word of `ws`; after it, the rest of `ws` and then `more` are written. */
  lemma ParamsPrefixNext(input: string, i: nat, lastRead: bool, ws: seq<string>, more: seq<string>, params: seq<string>, h: Heap)
    requires |ws| >= 1 && PlainWords(ws) && |more| >= 1
    requires WrittenAt(input, i, ListHead(ws + more, None))
    ensures PlainWords(ws[1..]) && WrittenAt(input, i + |ws[0]| + 1, ListHead(ws[1..] + more, None))
    ensures |ListHead(ws + more, None)| == |ws[0]| + 1 + |ListHead(ws[1..] + more, None)|
    ensures ParamsSpec(input, RState(i, lastRead, h), params) ==
            ParamsSpec(input, RState(i + |ws[0]| + 1, true, h), params + [Upper(ws[0])])
  {
    var all := ws + more;
    assert all[0] == ws[0] && all[1..] == ws[1..] + more;
    PlainWordsTail(ws);
    ParamWordThen(input, i, lastRead, all, params, h, i + |ws[0]| + 1, true);
  }

  /** One step of `ParamsPrefix`: the first word, then the rest of `ws`. */
  lemma ParamsPrefixStep(input: string, i: nat, lastRead: bool, ws: seq<string>, params: seq<string>, h: Heap, m: nat)
    requires |ws| >= 1 && i + |ws[0]| + 1 <= |input| && m <= |input|
    requires ParamsSpec(input, RState(i, lastRead, h), params) ==
             ParamsSpec(input, RState(i + |ws[0]| + 1, true, h), params + [Upper(ws[0])])
    requires ParamsSpec(input, RState(i + |ws[0]| + 1, true, h), params + [Upper(ws[0])]) ==
             ParamsSpec(input, RState(m, if ws[1..] == [] then true else true, h), params + [Upper(ws[0])] + Uppers(ws[1..]))
    ensures i <= |input| &&
            ParamsSpec(input, RState(i, lastRead, h), params) ==
            ParamsSpec(input, RState(m, if ws == [] then lastRead else true, h), params + Uppers(ws))
  {
    UppersCons(params, ws);
  }

  lemma {:induction false} ListHeadLonger(ws: seq<string>, more: seq<string>)
    ensures |ListHead(ws + more, None)| >= |ListHead(more, None)|
    decreases |ws|
  {
    if ws != [] {
      var all := ws + more;
      assert all[1..] == ws[1..] + more;
      ListHeadLonger(ws[1..], more);
    } else {
      assert ws + more == more;
    }
  }

  /** The parameter loop over `w1 … wn)`: the words, upper-cased, then the body after the `)`. */
  lemma ParamsReadWords(input: string, i: nat, lastRead: bool, ws: seq<string>, params: seq<string>, h: Heap, e: nat)
    requires PlainWords(ws)
    requires WrittenAt(input, i, ListHead(ws, None)) && e == i + |ListHead(ws, None)| - 1
    ensures ParamsSpec(input, RState(i, lastRead, h), params) ==
            LambdaBodySpec(input, RState(e + 1, false, h), params + Uppers(ws))
  {
    if ws == [] {
      WrittenByte(input, i, ListHead(ws, None), 0);
      assert params + Uppers(ws) == params;
      ParamsClose(input, i, lastRead, params, h);
    } else {
      var n := |ws| - 1;
      var init, last := ws[..n], [ws[n]];
      assert init + last == ws;
      ListHeadLonger(init, last);
      var m := i + |ListHead(ws, None)| - |ListHead(last, None)|;
      var lr := if init == [] then lastRead else true;
      PlainWordsInit(ws);
      ParamsPrefix(input, i, lastRead, init, last, params, h, m);
      ParamsLast(input, m, lr, ws[n], params + Uppers(init), h, e);
      UppersSnoc(params, ws);
    }
  }

  /** The last parameter word, its `)`, and the body after it. */
  lemma ParamsLast(input: string, m: nat, lastRead: bool, w: string, params: seq<string>, h: Heap, e: nat)
    requires PlainWord(w) && WrittenAt(input, m, ListHead([w], None)) && e == m + |w|
    ensures ParamsSpec(input, RState(m, lastRead, h), params) ==
            LambdaBodySpec(input, RState(e + 1, false, h), params + [Upper(w)])
  {
    var last := [w];
    assert last[0] == w && last[1..] == [];
    ParamWordThen(input, m, lastRead, last, params, h, e, false);
    WrittenByte(input, e, ListHead(last[1..], None), 0);
    ParamsClose(input, e, false, params + [Upper(w)], h);
  }

  /**
   * What `readLambda` returns once the body has been read as `r`: a panic
   * is passed on, and so is an Error value when there are parameters;
   * otherwise a new Lambda cell is allocated for the parameters and body.
   */
  function LambdaOf(ps: seq<string>, r: (Outcome<Value>, RState)): (Outcome<Value>, RState)
  {
    var (b, s3) := r;
    if b.Fault? || (ps != [] && b.value.Error?) then (b, s3)
    else (Ok(Lambda(|s3.heap.cells|, Uppers(ps), b.value)), s3.(heap := Heap(s3.heap.cells + [LambdaCell(None)])))
  }

  /**
   * `(lambda (w1 … wn) B`: the words become the parameters, upper-cased,
   * and B, read after the blank, the body; the `)` that closes the form
   * is left for the next read.
   */
  lemma ReadsLambdaOfWords(input: string, s: RState, ps: seq<string>, k: nat)
    requires PlainWords(ps)
    requires WrittenAt(input, s.pos, "(lambda (") && WrittenAt(input, s.pos + 9, ListHead(ps, None))
    requires k == s.pos + 10 + |ListHead(ps, None)| && k < |input| && input[k - 1] == ' '
    requires !IsWS(input[k]) && input[k] != ')'
    ensures ReadSpec(input, s) == LambdaOf(ps, ReadSpec(input, RState(k, false, s.heap)))
  {
    if ps == [] {
      LambdaOfNoWords(input, s, ps, k);
    } else {
      LambdaOfSomeWords(input, s, ps, k);
    }
  }

  lemma LambdaOfNoWords(input: string, s: RState, ps: seq<string>, k: nat)
    requires ps == []
    requires WrittenAt(input, s.pos, "(lambda (") && WrittenAt(input, s.pos + 9, ListHead(ps, None))
    requires k == s.pos + 10 + |ListHead(ps, None)| && k < |input| && input[k - 1] == ' ' && !IsWS(input[k])
    ensures ReadSpec(input, s) == LambdaOf(ps, ReadSpec(input, RState(k, false, s.heap)))
  {
    NoWordsHead(ps);
    LambdaNoWordsToBody(input, s.pos, s.heap, k);
    LambdaHead(input, s);
  }

  lemma NoWordsHead(ps: seq<string>)
    requires ps == []
    ensures ListHead(ps, None) == ")" && Uppers(ps) == []
  {
  }

  /** From the `(` of an empty parameter list to the body. */
  lemma LambdaNoWordsToBody(input: string, p: nat, h: Heap, k: nat)
    requires WrittenAt(input, p, "(lambda (") && WrittenAt(input, p + 9, ")")
    requires k == p + 11 && k < |input| && input[k - 1] == ' ' && !IsWS(input[k])
    ensures LambdaSpec(input, RState(p + 8, true, h)) == LambdaOf([], ReadSpec(input, RState(k, false, h)))
  {
    WrittenByte(input, p, "(lambda (", 8);
    WrittenByte(input, p + 9, ")", 0);
    BlankThenBody(input, k, h);
    LambdaNoParams(input, p + 8, h);
  }

  lemma LambdaOfSomeWords(input: string, s: RState, ps: seq<string>, k: nat)
    requires ps != [] && PlainWords(ps)
    requires WrittenAt(input, s.pos, "(lambda (") && WrittenAt(input, s.pos + 9, ListHead(ps, None))
    requires k == s.pos + 10 + |ListHead(ps, None)| && k < |input| && input[k - 1] == ' '
    requires !IsWS(input[k]) && input[k] != ')'
    ensures ReadSpec(input, s) == LambdaOf(ps, ReadSpec(input, RState(k, false, s.heap)))
  {
    LambdaWordsToBody(input, s.pos, ps, s.heap, k);
    LambdaHead(input, s);
  }

  /** From the `(` of the parameter list to the body. */
  lemma LambdaWordsToBody(input: string, p: nat, ps: seq<string>, h: Heap, k: nat)
    requires ps != [] && PlainWords(ps)
    requires WrittenAt(input, p, "(lambda (") && WrittenAt(input, p + 9, ListHead(ps, None))
    requires k == p + 10 + |ListHead(ps, None)| && k < |input| && input[k - 1] == ' '
    requires !IsWS(input[k]) && input[k] != ')'
    ensures LambdaSpec(input, RState(p + 8, true, h)) == LambdaOf(ps, ReadSpec(input, RState(k, false, h)))
  {
    var e := k - 2;
    LambdaWordsToParams(input, p, ps, h, e);
    BodyAfterParams(input, e, k, ps, h);
  }

  /** From the `(` of the parameter list to the blank before the body. */
  lemma LambdaWordsToParams(input: string, p: nat, ps: seq<string>, h: Heap, e: nat)
    requires ps != [] && PlainWords(ps)
    requires WrittenAt(input, p, "(lambda (") && WrittenAt(input, p + 9, ListHead(ps, None))
    requires e == p + 9 + |ListHead(ps, None)| - 1
    ensures LambdaSpec(input, RState(p + 8, true, h)) == LambdaBodySpec(input, RState(e + 1, false, h), Uppers(ps))
  {
    WrittenByte(input, p, "(lambda (", 8);
    WrittenByte(input, p + 9, ListHead(ps, None), 0);
    FirstWordByte(ps, None);
    LambdaParams(input, p + 8, h);
    ParamsReadWords(input, p + 9, false, ps, [], h, e);
    EmptyPlusUppers(ps);
  }

  lemma FirstWordByte(ws: seq<string>, tail: Option<string>)
    requires |ws| >= 1 && PlainWord(ws[0])
    ensures ListHead(ws, tail)[0] == ws[0][0] && ws[0][0] != ')'
  {
  }

  lemma EmptyPlusUppers(ps: seq<string>)
    ensures [] + Uppers(ps) == Uppers(ps)
  {
  }

  /** A parameter that reads as an Integer is a panic: the loop asserts every parameter is an Identifier. */
  lemma ParamMustBeIdentifier(input: string, i: nat, lastRead: bool, n: int, params: seq<string>, h: Heap)
    requires 0 <= n < TwoTo63
    requires var d := DecimalString(n);
             i + |d| <= |input| && input[i..i + |d|] == d && (i + |d| == |input| || Delimits(input[i + |d|]))
    ensures ParamsSpec(input, RState(i, lastRead, h), params).0 == Fault(NotIdentifier)
  {
    var d := DecimalString(n);
    assert d == DecimalDigits(n);
    assert input[i] == d[0];
    assert IsDigit(input[i]);
    PeekSkips(input, RState(i, lastRead, h), i);
    ReadsDecimal(input, RState(i, false, h), n);
  }

  /** `(lambda (w1 … wk n)`, `n` a decimal integer: reading it panics on the conversion of `n`. */
  lemma ReadsLambdaNumberParam(input: string, s: RState, ws: seq<string>, n: int)
    requires PlainWords(ws) && 0 <= n < TwoTo63
    requires WrittenAt(input, s.pos, "(lambda (") && WrittenAt(input, s.pos + 9, ListHead(ws + [DecimalString(n)], None))
    ensures ReadSpec(input, s).0 == Fault(NotIdentifier)
  {
    LambdaNumberParam(input, s.pos, ws, n, s.heap);
    LambdaHead(input, s);
  }

  lemma LambdaNumberParam(input: string, p: nat, ws: seq<string>, n: int, h: Heap)
    requires PlainWords(ws) && 0 <= n < TwoTo63
    requires WrittenAt(input, p, "(lambda (") && WrittenAt(input, p + 9, ListHead(ws + [DecimalString(n)], None))
    ensures LambdaSpec(input, RState(p + 8, true, h)).0 == Fault(NotIdentifier)
  {
    var d := DecimalString(n);
    var t := ListHead(ws + [d], None);
    WrittenByte(input, p, "(lambda (", 8);
    WrittenByte(input, p + 9, t, 0);
    assert d == DecimalDigits(n) && IsDigit(d[0]);
    assert t[0] == (ws + [d])[0][0];
    LambdaParams(input, p + 8, h);
    ListHeadLonger(ws, [d]);
    var m := p + 9 + |t| - |ListHead([d], None)|;
    ParamsPrefix(input, p + 9, false, ws, [d], [], h, m);
    NumberParamText(input, m, n);
    ParamMustBeIdentifier(input, m, if ws == [] then false else true, n, [] + Uppers(ws), h);
  }

  lemma NumberParamText(input: string, m: nat, n: int)
    requires WrittenAt(input, m, ListHead([DecimalString(n)], None))
    ensures var d := DecimalString(n);
            m + |d| < |input| && input[m..m + |d|] == d && Delimits(input[m + |d|])
  {
    var d := DecimalString(n);
    assert ListHead([d], None) == d + "" + ")";
    assert d + "" == d;
    WrittenAtSplits(input, m, d, ")");
    WrittenAtSlice(input, m, d);
    WrittenByte(input, m + |d|, ")", 0);
  }
}
