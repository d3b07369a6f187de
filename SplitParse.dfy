/**
 * `parse` of the string-splitting pipeline (identical in take-three.go and
 * eval.go): a recursive descent over a token slice that it consumes from
 * the front through a shared pointer.  The functions below say what one
 * call answers and which tokens are left; class `TokenStream` runs the
 * Go loops over a mutable token field and is proved to agree with them.
 */
module SplitParse {
  import opened Common
  import opened GoText
  import opened Objects

  const MissingClose := "missing closing )"

  /** The token slice `*tokens` and the objects allocated so far. */
  datatype PState = PState(rest: seq<string>, heap: Heap)

  /** `a` is what is left of `b` after dropping some tokens from its front. */
  predicate Suffix(a: seq<string>, b: seq<string>)
  {
    |a| <= |b| && a == b[|b| - |a|..]
  }

  /** Objects are only added: the old heap is a prefix of the new one. */
  predicate Grows(h: Heap, h': Heap)
  {
    |h.cells| <= |h'.cells| && h'.cells[..|h.cells|] == h.cells
  }

  /** What a parse leaves behind: a suffix of the tokens, and a heap that only grew. */
  predicate Consumes(s: PState, s': PState)
  {
    Suffix(s'.rest, s.rest) && Grows(s.heap, s'.heap)
  }

  lemma ConsumesTrans(s1: PState, s2: PState, s3: PState)
    requires Consumes(s1, s2) && Consumes(s2, s3)
    ensures Consumes(s1, s3)
  {
    assert s3.rest == s1.rest[|s1.rest| - |s3.rest|..] by {
      assert s2.rest[|s2.rest| - |s3.rest|..] == s1.rest[|s1.rest| - |s3.rest|..];
    }
    assert s3.heap.cells[..|s1.heap.cells|] == s3.heap.cells[..|s2.heap.cells|][..|s1.heap.cells|];
  }

  function Drop(s: PState): PState
    requires s.rest != []
  {
    s.(rest := s.rest[1..])
  }

  /**
   * `parse(tokens)`: take the first token (indexing an empty slice
   * panics); `(` starts a list, anything else is an atom.  A successful
   * parse consumes at least that first token.
   */
  function ParseSpec(s: PState): (r: (Outcome<Value>, PState))
    ensures Consumes(s, r.1)
    ensures r.0.Ok? ==> |r.1.rest| < |s.rest|
    ensures r.0.Fault? ==> r.0.msg == IndexOutOfRange || r.0.msg == SliceOutOfRange
    decreases |s.rest|, 0
  {
    if s.rest == [] then (Fault(IndexOutOfRange), s)
    else
      var token := s.rest[0];
      if token == "(" then ListSpec(Drop(s)) else AtomSpec(token, Drop(s))
  }

  /**
   * After `(`: the first element is parsed whatever it is; with no token
   * left after it the list is that one element.
   */
  function ListSpec(s: PState): (r: (Outcome<Value>, PState))
    ensures Consumes(s, r.1)
    ensures r.0.Fault? ==> r.0.msg == IndexOutOfRange || r.0.msg == SliceOutOfRange
    decreases |s.rest|, 2
  {
    var (car, s1) := ParseSpec(s);
    if car.Fault? then (car, s1)
    else if s1.rest == [] then (Ok(Pair(car.value, Nil)), s1)
    else
      var r := ElemsSpec(s1, [car.value]);
      ConsumesTrans(s, s1, r.1);
      r
  }

  /**
   * The element loop: up to `)`, which is consumed; `.` parses the tail and
   * then drops the next token, whatever it is.  Running out of tokens
   * panics: indexing at the loop test, slicing after a dotted tail.
   */
  function ElemsSpec(s: PState, elems: seq<Value>): (r: (Outcome<Value>, PState))
    ensures Consumes(s, r.1)
    ensures r.0.Fault? ==> r.0.msg == IndexOutOfRange || r.0.msg == SliceOutOfRange
    decreases |s.rest|, 1
  {
    if s.rest == [] then (Fault(IndexOutOfRange), s)
    else if s.rest[0] == ")" then (Ok(Chain(elems, Nil)), Drop(s))
    else if s.rest[0] == "." then
      var (tail, s1) := ParseSpec(Drop(s));
      if tail.Fault? then (tail, s1)
      else if s1.rest == [] then (Fault(SliceOutOfRange), s1)
      else
        ConsumesTrans(s, Drop(s), s1);
        ConsumesTrans(s, s1, Drop(s1));
        (Ok(Chain(elems, tail.value)), Drop(s1))
    else
      var (obj, s1) := ParseSpec(s);
      if obj.Fault? then (obj, s1)
      else
        var r := ElemsSpec(s1, elems + [obj.value]);
        ConsumesTrans(s, s1, r.1);
        r
  }

  /**
   * The vector loop after `#(`: elements up to `)`, which is left in
   * place; running out of tokens panics.
   */
  function VectorSpec(s: PState, items: seq<Value>): (r: (Outcome<Value>, PState))
    ensures Consumes(s, r.1)
    ensures r.0.Ok? ==> r.0.value.Vector? && r.1.rest != [] && r.1.rest[0] == ")"
    ensures r.0.Fault? ==> r.0.msg == IndexOutOfRange || r.0.msg == SliceOutOfRange
    decreases |s.rest|, 1
  {
    if s.rest == [] then (Fault(IndexOutOfRange), s)
    else if s.rest[0] == ")" then (Ok(Vector(items)), s)
    else
      var (v, s1) := ParseSpec(s);
      if v.Fault? then (v, s1)
      else
        var r := VectorSpec(s1, items + [v.value]);
        ConsumesTrans(s, s1, r.1);
        r
  }

  /** `len(ident)-1 >= 1 && ident[1] == '\\'`: the character-literal test. */
  predicate CharLiteral(ident: string)
  {
    |ident| >= 2 && ident[1] == '\\'
  }

  /**
   * An atom, in the order Go tries it: an int64 (a new `*Integer`), a
   * float, then the lower-cased text: `#f`, `#t`, `#(` (a vector; with no
   * tokens left an Error), a character literal (the UTF-8 text of its
   * last byte), and otherwise an Identifier.
   */
  function AtomSpec(token: string, s: PState): (r: (Outcome<Value>, PState))
    ensures Consumes(s, r.1)
    ensures r.0.Fault? ==> r.0.msg == IndexOutOfRange || r.0.msg == SliceOutOfRange
    decreases |s.rest|, 2
  {
    match ParseInt64(token)
    case Some(i) =>
      var (ref, h) := Alloc(s.heap, IntCell(i));
      (Ok(Integer(ref)), s.(heap := h))
    case None =>
      if ParsesAsFloat(token) then (Ok(Float(token)), s)
      else
        var ident := Lower(token);
        if ident == "#f" then (Ok(Boolean(false)), s)
        else if ident == "#t" then (Ok(Boolean(true)), s)
        else if ident == "#(" then
          if s.rest == [] then (Ok(Error(MissingClose)), s) else VectorSpec(s, [])
        else if CharLiteral(ident) then (Ok(Char(EncodeRune(ident[|ident| - 1]))), s)
        else (Ok(Identifier(ident)), s)
  }

  /** The shared token slice `*tokens` that `parse` consumes, with the heap its atoms allocate in. */
  class TokenStream {
    var tokens: seq<string>
    var heap: Heap

    function State(): PState
      reads this
    {
      PState(tokens, heap)
    }

    constructor (tokens: seq<string>, heap: Heap)
      ensures State() == PState(tokens, heap)
    {
      this.tokens := tokens;
      this.heap := heap;
    }

    /** `parse(&tokens)`. */
    method Parse() returns (r: Outcome<Value>)
      modifies this
      ensures (r, State()) == ParseSpec(old(State()))
      decreases |tokens|, 0
    {
      if tokens == [] {
        return Fault(IndexOutOfRange);
      }
      var token := tokens[0];
      tokens := tokens[1..];
      if token == "(" {
        r := ParseList();
      } else {
        r := ParseAtom(token);
      }
    }

    /** The `(` branch of `parse`, with its element loop. */
    method ParseList() returns (r: Outcome<Value>)
      modifies this
      ensures (r, State()) == ListSpec(old(State()))
      decreases |tokens|, 1
    {
      var car := Parse();
      if car.Fault? {
        return car;
      }
      if tokens == [] {
        return Ok(Pair(car.value, Nil));
      }
      ghost var start := State();
      var elems := [car.value];
      while true
        invariant |tokens| <= |start.rest|
        invariant ElemsSpec(State(), elems) == ElemsSpec(start, [car.value])
        decreases |tokens|
      {
        if tokens == [] {
          return Fault(IndexOutOfRange);
        }
        if tokens[0] == ")" {
          break;
        }
        if tokens[0] == "." {
          tokens := tokens[1..];
          var tail := Parse();
          if tail.Fault? {
            return tail;
          }
          if tokens == [] {
            return Fault(SliceOutOfRange);
          }
          tokens := tokens[1..];
          return Ok(Chain(elems, tail.value));
        }
        var obj := Parse();
        if obj.Fault? {
          return obj;
        }
        elems := elems + [obj.value];
      }
      tokens := tokens[1..];
      r := Ok(Chain(elems, Nil));
    }

    /** The atom branch of `parse`, with the vector loop. */
    method ParseAtom(token: string) returns (r: Outcome<Value>)
      modifies this
      ensures (r, State()) == AtomSpec(token, old(State()))
      decreases |tokens|, 2
    {
      var i := ParseInt64(token);
      if i.Some? {
        var (ref, h) := Alloc(heap, IntCell(i.value));
        heap := h;
        return Ok(Integer(ref));
      }
      if ParsesAsFloat(token) {
        return Ok(Float(token));
      }
      var ident := Lower(token);
      if ident == "#f" {
        r := Ok(Boolean(false));
      } else if ident == "#t" {
        r := Ok(Boolean(true));
      } else if ident == "#(" {
        if tokens == [] {
          return Ok(Error(MissingClose));
        }
        ghost var start := State();
        var items := [];
        while tokens[0] != ")"
          invariant |tokens| <= |start.rest| && tokens != []
          invariant VectorSpec(State(), items) == VectorSpec(start, [])
          decreases |tokens|
        {
          var v := Parse();
          if v.Fault? {
            return v;
          }
          items := items + [v.value];
          if tokens == [] {
            return Fault(IndexOutOfRange);
          }
        }
        r := Ok(Vector(items));
      } else if CharLiteral(ident) {
        r := Ok(Char(EncodeRune(ident[|ident| - 1])));
      } else {
        r := Ok(Identifier(ident));
      }
    }
  }
}
