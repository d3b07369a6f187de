/**
 * The tagged value union of object.go and the printers of every variant.
 *
 * Go's `Object` interface values are pointers.  Two kinds of object are
 * updated in place after creation and shared between holders: `*Integer`
 * (the arithmetic builtins overwrite the first argument's `Value`) and
 * `*Lambda` (the evaluator overwrites `Env`).  Those variants therefore
 * carry a reference into an explicit `Heap`; every other variant is never
 * written after it is built and is modelled as a plain value.  Environment
 * frames live in the same heap (module `Env`).
 */
module Objects {
  import opened Common
  import opened GoText

  type Ref = nat

  datatype Value =
    | Integer(ref: Ref)                                  // *Integer; its int64 lives in the heap
    | Float(literal: string)                             // *Float, kept as the text it was read from
    | Boolean(b: bool)
    | Str(text: string)                                  // *String
    | Char(c: string)
    | Identifier(name: string)
    | Pair(car: Value, cdr: Value)                       // *Pair (the reader's Cons)
    | Vector(items: seq<Value>)
    | Lambda(ref: Ref, params: seq<string>, body: Value) // *Lambda; its Env lives in the heap
    | Builtin(name: string)
    | ScopedBuiltin(name: string)
    | Error(msg: string)                                 // *Error, with the text of the wrapped error
    | Begin(exprs: seq<Value>)                           // *Begin of the string-splitting generations
    | Nil                                                // Go's nil Object

  /** What a heap reference points at. */
  datatype Cell =
    | IntCell(value: int)
    | LambdaCell(env: Option<Ref>)
    | FrameCell(vars: map<string, Value>, outer: Option<Ref>)

  /** The mutable part of Go's memory; a reference is an index into `cells`. */
  datatype Heap = Heap(cells: seq<Cell>)

  const EmptyHeap := Heap([])

  /** A fresh object: the new reference was not in use and nothing else changes. */
  function Alloc(h: Heap, c: Cell): (r: (Ref, Heap))
    ensures r.0 == |h.cells| && |r.1.cells| == r.0 + 1
    ensures r.1.cells[..r.0] == h.cells && r.1.cells[r.0] == c
  {
    (|h.cells|, Heap(h.cells + [c]))
  }

  /** `i.Value` for an `*Integer` at reference `r`. */
  function IntAt(h: Heap, r: Ref): int
  {
    if r < |h.cells| && h.cells[r].IntCell? then h.cells[r].value else 0
  }

  predicate IsIntRef(h: Heap, r: Ref)
  {
    r < |h.cells| && h.cells[r].IntCell?
  }

  /** `h'` differs from `h` at most in the value of the Integer at `r`. */
  predicate IntWrite(h: Heap, h': Heap, r: Ref)
  {
    |h'.cells| == |h.cells| &&
    (forall q :: 0 <= q < |h.cells| && q != r ==> h'.cells[q] == h.cells[q]) &&
    (IsIntRef(h, r) ==> IsIntRef(h', r)) &&
    (!IsIntRef(h, r) ==> h' == h)
  }

  /** `i.Value = n`. */
  function SetInt(h: Heap, r: Ref, n: int): (h': Heap)
    ensures IntWrite(h, h', r)
    ensures IsIntRef(h, r) ==> IntAt(h', r) == n
    ensures forall q :: q != r ==> IntAt(h', q) == IntAt(h, q)
    ensures forall q :: IsIntRef(h', q) == IsIntRef(h, q)
  {
    if IsIntRef(h, r) then Heap(h.cells[r := IntCell(n)]) else h
  }

  /** `l.Env` for a `*Lambda` at reference `r`. */
  function EnvAt(h: Heap, r: Ref): Option<Ref>
  {
    if r < |h.cells| && h.cells[r].LambdaCell? then h.cells[r].env else None
  }

  /** `l.Env = env`. */
  function SetEnv(h: Heap, r: Ref, env: Ref): (h': Heap)
    ensures |h'.cells| == |h.cells|
    ensures r < |h.cells| && h.cells[r].LambdaCell? ==> EnvAt(h', r) == Some(env)
    ensures forall q :: q != r ==> EnvAt(h', q) == EnvAt(h, q) && IntAt(h', q) == IntAt(h, q)
  {
    if r < |h.cells| && h.cells[r].LambdaCell? then Heap(h.cells[r := LambdaCell(Some(env))]) else h
  }

  /**
   * The outcome of running Go code over the heap: the object returned and
   * the heap after it, a Go panic, a result this model does not determine
   * (float64 arithmetic), or the evaluation fuel ran out.
   */
  datatype Step = Done(value: Value, heap: Heap) | Crash(msg: string) | Undetermined(what: string) | OutOfFuel

  // ---------------------------------------------------------------------
  // Printers

  /**
   * The outcome of a printer: the text, a Go panic (a method called on a
   * nil Object, a failed type assertion), or a text this model does not
   * determine (the `%f` rendering of a float64, the printer of `*Begin`,
   * which is not part of this model).
   */
  datatype Printed = Text(s: string) | Panic(msg: string) | Unmodelled(what: string)

  const NilDeref := "invalid memory address or nil pointer dereference"
  const NotAPair := "interface conversion: Object is not *Pair"

  /** `a + b` where `a` is evaluated first: the first non-text outcome wins. */
  function Cat(a: Printed, b: Printed): (r: Printed)
    ensures r.Text? <==> a.Text? && b.Text?
    ensures r.Text? ==> r.s == a.s + b.s
    ensures !r.Text? ==> r == (if a.Text? then b else a)
  {
    if !a.Text? then a
    else if !b.Text? then b
    else Text(a.s + b.s)
  }

  /** The only panics the printers raise: a nil Object and a chain ending in a non-pair. */
  predicate PrinterPanic(r: Printed)
  {
    r.Panic? ==> r.msg == NilDeref || r.msg == NotAPair
  }

  /**
   * `Inspect()` of every variant.  It panics only on a nil Object or a
   * chain with a non-pair tail; a pair prints between `(` and `)`, a
   * vector between `#(` and `)`.
   */
  function Inspect(v: Value, h: Heap): (r: Printed)
    ensures PrinterPanic(r)
    ensures v.Pair? && r.Text? ==> |r.s| >= 2 && r.s[0] == '(' && r.s[|r.s| - 1] == ')'
    ensures v.Vector? && r.Text? ==> |r.s| >= 3 && r.s[..2] == "#(" && r.s[|r.s| - 1] == ')'
    decreases v
  {
    match v
    case Integer(r) => Text(DecimalString(IntAt(h, r)))
    case Float(_) => Unmodelled("%f rendering of a float64")
    case Boolean(b) => Text(if b then "#T" else "#F")
    case Str(t) => Text(t)
    case Char(c) => Text("#\\" + c)
    case Identifier(n) => Text(n)
    case Pair(car, cdr) => InspectPair(car, cdr, h)
    case Vector(items) =>
      var body := ItemsText(items, h);
      if body.Text? then TrimSpaceKeepsLead("#(" + body.s); Text(TrimSpace("#(" + body.s) + ")") else body
    case Lambda(_, params, body) =>
      Cat(Text("(lambda (" + Join(params, " ") + ") "), Cat(Inspect(body, h), Text(")")))
    case Builtin(_) => Text("<#procedure>")
    case ScopedBuiltin(_) => Text("<#procedure>")
    case Error(m) => Text(m)
    case Begin(_) => Unmodelled("the printer of *Begin")
    case Nil => Panic(NilDeref)
  }

  /**
   * `(*Pair).Inspect`: `()` for an empty pair, `(car)` without a tail,
   * the space-separated chain when the tail is a pair (built first, then
   * trimmed), and `(car . cdr)` otherwise.
   */
  function InspectPair(car: Value, cdr: Value, h: Heap): (r: Printed)
    ensures PrinterPanic(r)
    ensures r.Text? ==> |r.s| >= 2 && r.s[0] == '(' && r.s[|r.s| - 1] == ')'
    decreases Pair(car, cdr), 1
  {
    if cdr == Nil && car == Nil then Text("()")
    else if cdr == Nil then Cat(Text("("), Cat(Inspect(car, h), Text(")")))
    else if cdr.Pair? then
      var chain := ChainText(cdr, h);
      if !chain.Text? then chain
      else Cat(Text("("), Cat(Inspect(car, h), Text(" " + TrimSpace(chain.s) + ")")))
    else Cat(Text("("), Cat(Inspect(car, h), Cat(Text(" . "), Cat(Inspect(cdr, h), Text(")")))))
  }

  /** The loop of `(*Pair).Inspect`: each element's text and a blank; a non-pair tail panics. */
  function ChainText(p: Value, h: Heap): (r: Printed)
    requires p.Pair?
    ensures PrinterPanic(r)
    ensures r.Text? ==> |r.s| >= 1 && r.s[|r.s| - 1] == ' '
    decreases p, 0
  {
    var here := Cat(Inspect(p.car, h), Text(" "));
    if p.cdr == Nil then here
    else if p.cdr.Pair? then Cat(here, ChainText(p.cdr, h))
    else Cat(here, Panic(NotAPair))
  }

  /** The loop of `(*Vector).Inspect`: each element's text and a blank. */
  function ItemsText(items: seq<Value>, h: Heap): (r: Printed)
    ensures PrinterPanic(r)
    ensures r.Text? && items != [] ==> |r.s| >= 1 && r.s[|r.s| - 1] == ' '
    decreases items
  {
    if items == [] then Text("")
    else Cat(Cat(Inspect(items[0], h), Text(" ")), ItemsText(items[1..], h))
  }

  /** `String()` of every variant. */
  function StringOf(v: Value, h: Heap): Printed
  {
    match v
    case Str(t) => Text("\"" + t + "\"")
    case Lambda(_, _, _) => Text("<#procedure>")
    case _ => Inspect(v, h)
  }

  // ---------------------------------------------------------------------
  // Cons lists

  /** The chain `(e0 e1 … . tail)` of pairs; `Chain(es, Nil)` is a proper list. */
  function Chain(elems: seq<Value>, tail: Value): Value
  {
    if elems == [] then tail else Pair(elems[0], Chain(elems[1..], tail))
  }

  /** Text that has no white space at either end and is not empty. */
  predicate Word(t: string)
  {
    t != [] && !IsSpace(t[0]) && !IsSpace(t[|t| - 1])
  }

  /** Every element prints, and prints as a word. */
  predicate PrintsAsWords(elems: seq<Value>, h: Heap)
  {
    forall i :: 0 <= i < |elems| ==> Inspect(elems[i], h).Text? && Word(Inspect(elems[i], h).s)
  }

  function Texts(elems: seq<Value>, h: Heap): seq<string>
    requires PrintsAsWords(elems, h)
  {
    seq(|elems|, i requires 0 <= i < |elems| => Inspect(elems[i], h).s)
  }

  // ---------------------------------------------------------------------
  // Properties of the printers

  /** An Integer prints as its decimal digits, and that text parses back to it. */
  lemma InspectInteger(r: Ref, h: Heap)
    requires IsIntRef(h, r) && IsInt64(IntAt(h, r))
    ensures Inspect(Integer(r), h).Text?
    ensures ParseInt64(Inspect(Integer(r), h).s) == Some(IntAt(h, r))
  {
    ParseIntOfDecimal(IntAt(h, r));
  }

  /** Booleans, strings, chars, procedures: the fixed renderings of object.go. */
  lemma InspectAtoms(h: Heap, t: string, name: string, params: seq<string>, body: Value, r: Ref)
    ensures Inspect(Boolean(true), h) == Text("#T") && Inspect(Boolean(false), h) == Text("#F")
    ensures Inspect(Str(t), h) == Text(t) && StringOf(Str(t), h) == Text("\"" + t + "\"")
    ensures Inspect(Char(t), h) == Text("#\\" + t)
    ensures StringOf(Lambda(r, params, body), h) == Text("<#procedure>")
    ensures Inspect(Builtin(name), h) == Text("<#procedure>")
    ensures Inspect(ScopedBuiltin(name), h) == Text("<#procedure>")
  {
  }

  /** The chain loop over a proper list of words: the words, each followed by a blank. */
  lemma {:induction false} ChainTextOfWords(elems: seq<Value>, h: Heap)
    requires |elems| >= 1 && PrintsAsWords(elems, h)
    ensures ChainText(Chain(elems, Nil), h) == Text(Join(Texts(elems, h), " ") + " ")
    decreases |elems|
  {
    var ts := Texts(elems, h);
    if |elems| > 1 {
      var rest := elems[1..];
      assert PrintsAsWords(rest, h) by {
        forall i | 0 <= i < |rest| ensures Inspect(rest[i], h).Text? && Word(Inspect(rest[i], h).s) {
          assert rest[i] == elems[i + 1];
        }
      }
      ChainTextOfWords(rest, h);
      assert Texts(rest, h) == ts[1..];
      JoinCons(ts[0], ts[1..], " ");
      assert ts == [ts[0]] + ts[1..];
    }
  }

  /** Joined words have no white space at either end. */
  lemma {:induction false} JoinWordsIsWord(ts: seq<string>)
    requires |ts| >= 1 && forall i :: 0 <= i < |ts| ==> Word(ts[i])
    ensures Word(Join(ts, " "))
    decreases |ts|
  {
    if |ts| > 1 {
      JoinWordsIsWord(ts[1..]);
      JoinCons(ts[0], ts[1..], " ");
      assert ts == [ts[0]] + ts[1..];
    }
  }

  /** `(*Pair).Inspect` when the tail is a pair whose chain loop yields text. */
  lemma InspectPairChain(car: Value, cdr: Value, h: Heap, t: string)
    requires cdr.Pair? && ChainText(cdr, h) == Text(t) && Inspect(car, h).Text?
    ensures Inspect(Pair(car, cdr), h) == Text("(" + Inspect(car, h).s + " " + TrimSpace(t) + ")")
  {
    var a := Inspect(car, h).s;
    var b := " " + TrimSpace(t) + ")";
    CatTexts(Inspect(car, h), b);
    Reassociate(a, TrimSpace(t));
    InspectPairUnfold(car, cdr, h, t);
  }

  lemma InspectPairUnfold(car: Value, cdr: Value, h: Heap, t: string)
    requires cdr.Pair? && ChainText(cdr, h) == Text(t) && Inspect(car, h).Text?
    ensures Inspect(Pair(car, cdr), h) == Cat(Text("("), Cat(Inspect(car, h), Text(" " + TrimSpace(t) + ")")))
  {
    assert cdr != Nil;
    assert Inspect(Pair(car, cdr), h) == InspectPair(car, cdr, h);
  }

  lemma CatTexts(a: Printed, b: string)
    requires a.Text?
    ensures Cat(a, Text(b)) == Text(a.s + b)
  {
  }

  lemma Reassociate(a: string, t: string)
    ensures "(" + (a + (" " + t + ")")) == "(" + a + " " + t + ")"
  {
  }

  /**
   * A proper list prints as its elements separated by single blanks in
   * parentheses, provided every element prints as a word.
   */
  lemma ProperListPrints(elems: seq<Value>, h: Heap)
    requires |elems| >= 1 && PrintsAsWords(elems, h)
    ensures Inspect(Chain(elems, Nil), h) == Text("(" + Join(Texts(elems, h), " ") + ")")
  {
    if |elems| == 1 {
      SingletonListPrints(elems, h);
    } else {
      LongerListPrints(elems, h);
    }
  }

  lemma SingletonListPrints(elems: seq<Value>, h: Heap)
    requires |elems| == 1 && PrintsAsWords(elems, h)
    ensures Inspect(Chain(elems, Nil), h) == Text("(" + Join(Texts(elems, h), " ") + ")")
  {
    var e := elems[0];
    var first := Inspect(e, h);
    assert first.Text?;
    assert Texts(elems, h) == [first.s];
    assert Chain(elems, Nil) == Pair(e, Nil) by { assert elems[1..] == []; }
    assert e != Nil;
    assert Inspect(Pair(e, Nil), h) == InspectPair(e, Nil, h);
  }

  lemma LongerListPrints(elems: seq<Value>, h: Heap)
    requires |elems| >= 2 && PrintsAsWords(elems, h)
    ensures Inspect(Chain(elems, Nil), h) == Text("(" + Join(Texts(elems, h), " ") + ")")
  {
    var ts := Texts(elems, h);
    var rest := elems[1..];
    PrintsAsWordsTail(elems, h);
    ChainTextOfWords(rest, h);
    TextsTail(elems, h);
    var j := Join(ts[1..], " ");
    JoinWordsIsWord(ts[1..]);
    assert Chain(elems, Nil) == Pair(elems[0], Chain(rest, Nil));
    HeadAndChainPrint(elems[0], Chain(rest, Nil), h, ts[0], j);
    JoinHead(ts);
  }

  lemma PrintsAsWordsTail(elems: seq<Value>, h: Heap)
    requires |elems| >= 1 && PrintsAsWords(elems, h)
    ensures PrintsAsWords(elems[1..], h)
  {
    var rest := elems[1..];
    forall i | 0 <= i < |rest| ensures Inspect(rest[i], h).Text? && Word(Inspect(rest[i], h).s) {
      assert rest[i] == elems[i + 1];
    }
  }

  lemma TextsTail(elems: seq<Value>, h: Heap)
    requires |elems| >= 1 && PrintsAsWords(elems, h)
    ensures PrintsAsWords(elems[1..], h)
    ensures Texts(elems[1..], h) == Texts(elems, h)[1..]
    ensures Inspect(elems[0], h) == Text(Texts(elems, h)[0])
  {
    PrintsAsWordsTail(elems, h);
  }

  lemma JoinHead(ts: seq<string>)
    requires |ts| >= 2
    ensures Join(ts, " ") == ts[0] + " " + Join(ts[1..], " ")
  {
    JoinCons(ts[0], ts[1..], " ");
    assert ts == [ts[0]] + ts[1..];
  }

  /** A head that prints as `t0` in front of a chain whose loop yields `j` and a blank. */
  lemma HeadAndChainPrint(e: Value, rest: Value, h: Heap, t0: string, j: string)
    requires rest.Pair? && Inspect(e, h) == Text(t0) && ChainText(rest, h) == Text(j + " ")
    requires Word(j)
    ensures Inspect(Pair(e, rest), h) == Text("(" + (t0 + " " + j) + ")")
  {
    TrimSpaceDropsBlank(j);
    InspectPairChain(e, rest, h, j + " ");
    Parenthesize(t0, j);
  }

  lemma Parenthesize(t0: string, j: string)
    ensures "(" + t0 + " " + j + ")" == "(" + (t0 + " " + j) + ")"
  {
  }

  /** A pair whose tail is neither a pair nor nil prints with a dot. */
  lemma DottedPairPrints(car: Value, cdr: Value, h: Heap)
    requires Inspect(car, h).Text? && Inspect(cdr, h).Text?
    requires !cdr.Pair? && cdr != Nil
    ensures Inspect(Pair(car, cdr), h) ==
            Text("(" + Inspect(car, h).s + " . " + Inspect(cdr, h).s + ")")
  {
  }

  /** A chain that ends in a non-pair after its second cell makes the printer panic. */
  lemma ImproperChainPanics(a: Value, b: Value, c: Value, h: Heap)
    requires Inspect(a, h).Text? && Inspect(b, h).Text?
    requires !c.Pair? && c != Nil
    ensures Inspect(Pair(a, Pair(b, c)), h) == Panic(NotAPair)
  {
    assert ChainText(Pair(b, c), h) == Panic(NotAPair);
    assert Inspect(Pair(a, Pair(b, c)), h) == InspectPair(a, Pair(b, c), h);
  }

  /** Printing an empty pair, and a pair with only a car. */
  lemma ShortPairsPrint(car: Value, h: Heap)
    requires Inspect(car, h).Text?
    ensures Inspect(Pair(Nil, Nil), h) == Text("()")
    ensures car != Nil ==> Inspect(Pair(car, Nil), h) == Text("(" + Inspect(car, h).s + ")")
  {
  }

  /** The vector loop over words: the words, each followed by a blank. */
  lemma {:induction false} ItemsTextOfWords(items: seq<Value>, h: Heap)
    requires PrintsAsWords(items, h)
    ensures items != [] ==> ItemsText(items, h) == Text(Join(Texts(items, h), " ") + " ")
    ensures items == [] ==> ItemsText(items, h) == Text("")
    decreases |items|
  {
    if |items| > 1 {
      var rest := items[1..];
      assert PrintsAsWords(rest, h) by {
        forall i | 0 <= i < |rest| ensures Inspect(rest[i], h).Text? && Word(Inspect(rest[i], h).s) {
          assert rest[i] == items[i + 1];
        }
      }
      ItemsTextOfWords(rest, h);
      var ts := Texts(items, h);
      assert Texts(rest, h) == ts[1..];
      JoinCons(ts[0], ts[1..], " ");
      assert ts == [ts[0]] + ts[1..];
    } else if |items| == 1 {
      assert items[1..] == [];
    }
  }

  /** A vector of words prints as `#(` the words separated by single blanks `)`. */
  lemma VectorPrints(items: seq<Value>, h: Heap)
    requires PrintsAsWords(items, h)
    ensures Inspect(Vector(items), h) == Text("#(" + Join(Texts(items, h), " ") + ")")
  {
    ItemsTextOfWords(items, h);
    var ts := Texts(items, h);
    if items == [] {
      TrimSpaceKeeps("#(");
      assert Join(ts, " ") == "";
    } else {
      JoinWordsIsWord(ts);
      VectorOfText(items, h, Join(ts, " "));
    }
  }

  lemma VectorOfText(items: seq<Value>, h: Heap, j: string)
    requires ItemsText(items, h) == Text(j + " ") && Word(j)
    ensures Inspect(Vector(items), h) == Text("#(" + j + ")")
  {
    var w := "#(" + j;
    assert w[0] == '#' && w[|w| - 1] == (if j == [] then '(' else j[|j| - 1]);
    TrimSpaceDropsBlank(w);
    assert "#(" + (j + " ") == w + " ";
    VectorUnfold(items, h, j + " ");
  }

  lemma VectorUnfold(items: seq<Value>, h: Heap, b: string)
    requires ItemsText(items, h) == Text(b)
    ensures Inspect(Vector(items), h) == Text(TrimSpace("#(" + b) + ")")
  {
  }
}
