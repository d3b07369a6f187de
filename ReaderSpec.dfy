/**
 * The one-byte-lookahead reader of reader.go, as functions of the reader
 * state.  The `bufio.Reader` over the input string is a position plus the
 * one flag `UnreadByte` needs (was the last call a successful `ReadByte`);
 * the heap receives the `*Integer` and `*Lambda` objects the reader
 * allocates.  Each function returns the object read (or a Go panic) and
 * the state after it; the class `Reader` (Reading.dfy) is proved to
 * follow these functions step by step.
 */
module ReaderSpec {
  import opened Common
  import opened GoText
  import opened Objects

  datatype RState = RState(pos: nat, lastRead: bool, heap: Heap)

  /** A `bufio` byte read: the byte, or `io.EOF` (the only error a string source gives). */
  datatype ByteOut = Byte(b: char) | AtEOF

  const EOF := "EOF"
  const BadUnread := "bufio: invalid use of UnreadByte"
  const MissingQuote := "Missing closing \""
  const MissingOpen := "Missing opening ("
  const NotIdentifier := "interface conversion: object.Object is not *object.Identifier"

  /** `isWS`: the four bytes the reader treats as white space. */
  predicate IsWS(c: char)
  {
    c == ' ' || c == '\n' || c == '\r' || c == '\t'
  }

  /** The reader never moves past the end and never moves back past where it started. */
  predicate Moved(input: string, s: RState, s': RState)
  {
    s.pos <= s'.pos <= |input|
  }

  // ---------------------------------------------------------------------
  // The bufio primitives

  /** `currentByte`: `ReadByte`; at the end of input the state is unchanged. */
  function CurrentByteSpec(input: string, s: RState): (r: (ByteOut, RState))
    requires s.pos <= |input|
    ensures Moved(input, s, r.1) && r.1.heap == s.heap
    ensures r.0.Byte? <==> s.pos < |input|
    ensures r.0.Byte? ==> r.0.b == input[s.pos] && r.1.pos == s.pos + 1 && r.1.lastRead
    ensures r.0.AtEOF? ==> r.1 == s
  {
    if s.pos < |input| then (Byte(input[s.pos]), s.(pos := s.pos + 1, lastRead := true))
    else (AtEOF, s)
  }

  /** `skip`: `Discard(1)`, which also forgets the last byte read. */
  function SkipSpec(input: string, s: RState): (s': RState)
    requires s.pos <= |input|
    ensures Moved(input, s, s') && s'.heap == s.heap && !s'.lastRead
    ensures s.pos < |input| ==> s'.pos == s.pos + 1
  {
    if s.pos < |input| then s.(pos := s.pos + 1, lastRead := false) else s.(lastRead := false)
  }

  /**
   * `unreadByte`: succeeds only straight after a successful `ReadByte`,
   * stepping back over that byte.
   */
  function UnreadSpec(input: string, s: RState): (r: (bool, RState))
    requires s.pos <= |input|
    ensures r.0 <==> s.lastRead && s.pos > 0
    ensures r.0 ==> r.1.pos == s.pos - 1 && !r.1.lastRead && r.1.heap == s.heap
    ensures !r.0 ==> r.1 == s
  {
    if s.lastRead && s.pos > 0 then (true, s.(pos := s.pos - 1, lastRead := false)) else (false, s)
  }

  /**
   * `peek`: discards white space one byte at a time and then looks at the
   * next byte without consuming it.  It never returns white space: the
   * byte it returns is the first non-blank byte at or after the start,
   * and everything it discarded was blank.
   */
  function PeekSpec(input: string, s: RState): (r: (ByteOut, RState))
    requires s.pos <= |input|
    ensures Moved(input, s, r.1) && r.1.heap == s.heap && !r.1.lastRead
    ensures forall k :: s.pos <= k < r.1.pos ==> IsWS(input[k])
    ensures r.0.Byte? ==> r.1.pos < |input| && r.0.b == input[r.1.pos] && !IsWS(r.0.b)
    ensures r.0.AtEOF? ==> r.1.pos == |input|
    decreases |input| - s.pos
  {
    if s.pos == |input| then (AtEOF, s.(lastRead := false))
    else if IsWS(input[s.pos]) then PeekSpec(input, s.(pos := s.pos + 1, lastRead := false))
    else (Byte(input[s.pos]), s.(lastRead := false))
  }

  // ---------------------------------------------------------------------
  // Read

  /**
   * `Reader.Read`: reads one object, dispatching on its first byte.  Any
   * byte there is consumed, so a read that does not start at the end of
   * the input always moves forward.
   */
  function ReadSpec(input: string, s: RState): (r: (Outcome<Value>, RState))
    requires s.pos <= |input|
    ensures Moved(input, s, r.1)
    ensures s.pos < |input| ==> r.1.pos > s.pos
    decreases |input| - s.pos, 1
  {
    var (c, s1) := CurrentByteSpec(input, s);
    if c.AtEOF? then (Ok(Error(EOF)), s1)
    else
      var ch := c.b;
      if ch == '#' then HashSpec(input, s1)
      else if ch == '"' then StringSpec(input, s1, "")
      else if ch == '\'' then QuoteSpec(input, s1, "quote")
      else if ch == '`' then QuoteSpec(input, s1, "quasiquote")
      else if ch == '(' then ParenSpec(input, s1)
      else if IsWS(ch) then BlankSpec(input, s1)
      else if ch == '+' || ch == '*' || ch == '/' || ch == '-' then (Ok(Identifier([ch])), s1)
      else AtomSpec(input, s1, [ch])
  }

  /**
   * After `#`: `t`/`T` is true, `f`/`F` is false, `\` takes the next
   * byte as a Char (the UTF-8 text of that byte read as a rune); anything
   * else panics.
   */
  function HashSpec(input: string, s: RState): (r: (Outcome<Value>, RState))
    requires s.pos <= |input|
    ensures Moved(input, s, r.1)
  {
    var (p, s1) := PeekSpec(input, s);
    if p.AtEOF? then (Ok(Error(EOF)), s1)
    else
      var u := UpperByteText(p.b);
      if u == "T" then (Ok(Boolean(true)), SkipSpec(input, s1))
      else if u == "F" then (Ok(Boolean(false)), SkipSpec(input, s1))
      else if u == "\\" then
        var (c, s2) := CurrentByteSpec(input, SkipSpec(input, s1));
        if c.AtEOF? then (Ok(Error(EOF)), s2) else (Ok(Char(EncodeRune(c.b))), s2)
      else (Fault("Expecting one of F or T or \\ found " + u + " instead."), s1)
  }

  /**
   * The string loop: take the current byte, then peek (which discards
   * blanks); stop once the peeked byte is the closing quote.
   */
  function StringSpec(input: string, s: RState, acc: string): (r: (Outcome<Value>, RState))
    requires s.pos <= |input|
    ensures Moved(input, s, r.1)
    decreases |input| - s.pos
  {
    var (c, s1) := CurrentByteSpec(input, s);
    if c.AtEOF? then (Ok(Error(EOF)), s1)
    else
      var acc' := acc + [c.b];
      var (p, s2) := PeekSpec(input, s1);
      if p.AtEOF? then (Ok(Error(MissingQuote)), s2)
      else if p.b == '"' then
        var (q, s3) := CurrentByteSpec(input, s2);
        if q.AtEOF? then (Ok(Error(EOF)), s3)
        else if q.b != '"' then (Ok(Error(MissingQuote)), s3)
        else (Ok(Str(acc')), s3)
      else StringSpec(input, s2, acc')
  }

  /** `'E` and `` `E ``: the list `(quote E)` / `(quasiquote E)`; an Error from E is passed on. */
  function QuoteSpec(input: string, s: RState, word: string): (r: (Outcome<Value>, RState))
    requires s.pos <= |input|
    ensures Moved(input, s, r.1)
    decreases |input| - s.pos, 2
  {
    var (v, s1) := ReadSpec(input, s);
    if v.Fault? || v.value.Error? then (v, s1)
    else (Ok(Pair(Identifier(word), Pair(v.value, Nil))), s1)
  }

  /** A blank byte: peek past the blanks and read what follows. */
  function BlankSpec(input: string, s: RState): (r: (Outcome<Value>, RState))
    requires s.pos <= |input|
    ensures Moved(input, s, r.1)
    decreases |input| - s.pos, 2
  {
    var (p, s1) := PeekSpec(input, s);
    if p.AtEOF? then (Ok(Error(EOF)), s1)
    else ReadSpec(input, s1)
  }

  /** What an atom's text denotes: an int64, else a float, else an upper-cased identifier. */
  function AtomValue(text: string, h: Heap): (r: (Value, Heap))
  {
    match ParseInt64(text)
    case Some(i) =>
      var (ref, h') := Alloc(h, IntCell(i));
      (Integer(ref), h')
    case None =>
      if ParsesAsFloat(text) then (Float(text), h) else (Identifier(Upper(text)), h)
  }

  /**
   * The atom loop: bytes up to the end of input, a blank (consumed) or a
   * parenthesis (pushed back).
   */
  function AtomSpec(input: string, s: RState, acc: string): (r: (Outcome<Value>, RState))
    requires s.pos <= |input|
    ensures Moved(input, s, r.1)
    decreases |input| - s.pos
  {
    var (c, s1) := CurrentByteSpec(input, s);
    if c.AtEOF? then FinishAtom(acc, s1)
    else if IsWS(c.b) then FinishAtom(acc, s1)
    else if c.b == '(' || c.b == ')' then
      var (ok, s2) := UnreadSpec(input, s1);
      if !ok then (Ok(Error(BadUnread)), s2) else FinishAtom(acc, s2)
    else AtomSpec(input, s1, acc + [c.b])
  }

  function FinishAtom(text: string, s: RState): (Outcome<Value>, RState)
  {
    var (v, h) := AtomValue(text, s.heap);
    (Ok(v), s.(heap := h))
  }

  /**
   * After `(`: an immediately following `)` is skipped together with it
   * and the next object is read instead; otherwise the first element is
   * read, a leading `LAMBDA` hands over to `readLambda`, and the rest of
   * the list is read by the list loop.
   */
  function ParenSpec(input: string, s: RState): (r: (Outcome<Value>, RState))
    requires s.pos <= |input|
    ensures Moved(input, s, r.1)
    decreases |input| - s.pos, 2
  {
    var (p, s1) := PeekSpec(input, s);
    if p.AtEOF? then (Ok(Error(EOF)), s1)
    else if p.b == ')' then ReadSpec(input, SkipSpec(input, s1))
    else
      var (first, s2) := ReadSpec(input, s1);
      if first.Fault? || first.value.Error? then (first, s2)
      else if first.value == Identifier("LAMBDA") then LambdaSpec(input, s2)
      else ListSpec(input, s2, [first.value], Nil)
  }

  /**
   * The list loop.  `elems` are the cells built so far and `tail` the cdr
   * of the last one: a `.` sets that cdr to the next object, any other
   * element replaces it with a new cell.  The closing `)` is consumed.
   */
  function ListSpec(input: string, s: RState, elems: seq<Value>, tail: Value): (r: (Outcome<Value>, RState))
    requires s.pos <= |input|
    ensures Moved(input, s, r.1)
    decreases |input| - s.pos, 2
  {
    var (p, s1) := PeekSpec(input, s);
    if p.AtEOF? then (Ok(Error(EOF)), s1)
    else if p.b == ')' then (Ok(Chain(elems, tail)), SkipSpec(input, s1))
    else
      var (c, s2) := CurrentByteSpec(input, s1);
      if c.AtEOF? then (Ok(Error(EOF)), s2)
      else if c.b == '.' then
        var (v, s3) := ReadSpec(input, s2);
        if v.Fault? || v.value.Error? then (v, s3)
        else ListSpec(input, s3, elems, v.value)
      else
        var (ok, s3) := UnreadSpec(input, s2);
        if !ok then (Ok(Error(BadUnread)), s3)
        else
          var (v, s4) := ReadSpec(input, s3);
          if v.Fault? || v.value.Error? then (v, s4)
          else ListSpec(input, s4, elems + [v.value], Nil)
  }

  /**
   * `readLambda`, entered after `(LAMBDA`: a `(` must follow.  `()` means
   * no parameters and the next object is the body, unchecked.  Otherwise
   * the parameters are read up to `)`, one more `)` is skipped if it is
   * next, and the body is read.  The lambda form's own closing `)` is
   * left unread.
   */
  function LambdaSpec(input: string, s: RState): (r: (Outcome<Value>, RState))
    requires s.pos <= |input|
    ensures Moved(input, s, r.1)
    decreases |input| - s.pos, 0
  {
    var (p, s1) := PeekSpec(input, s);
    if p.AtEOF? then (Ok(Error(EOF)), s1)
    else if p.b != '(' then (Ok(Error(MissingOpen)), s1)
    else
      var (c, s2) := CurrentByteSpec(input, SkipSpec(input, s1));
      if c.AtEOF? then (Ok(Error(EOF)), s2)
      else if c.b == ')' then
        var (body, s3) := ReadSpec(input, s2);
        if body.Fault? then (body, s3)
        else
          var (ref, h) := Alloc(s3.heap, LambdaCell(None));
          (Ok(Lambda(ref, [], body.value)), s3.(heap := h))
      else
        var (ok, s3) := UnreadSpec(input, s2);
        if !ok then (Ok(Error(BadUnread)), s3)
        else ParamsSpec(input, s3, [])
  }

  /** The parameter loop of `readLambda`: every parameter must read as an Identifier. */
  function ParamsSpec(input: string, s: RState, params: seq<string>): (r: (Outcome<Value>, RState))
    requires s.pos <= |input|
    ensures Moved(input, s, r.1)
    decreases |input| - s.pos, 2
  {
    var (p, s1) := PeekSpec(input, s);
    if p.AtEOF? then (Ok(Error(EOF)), s1)
    else if p.b == ')' then LambdaBodySpec(input, SkipSpec(input, s1), params)
    else
      var (arg, s2) := ReadSpec(input, s1);
      if arg.Fault? then (arg, s2)
      else if !arg.value.Identifier? then (Fault(NotIdentifier), s2)
      else ParamsSpec(input, s2, params + [arg.value.name])
  }

  /** After the parameters: skip one more `)` if it is next, then read the body. */
  function LambdaBodySpec(input: string, s: RState, params: seq<string>): (r: (Outcome<Value>, RState))
    requires s.pos <= |input|
    ensures Moved(input, s, r.1)
    decreases |input| - s.pos, 2
  {
    var (p, s1) := PeekSpec(input, s);
    var s2 := if p.Byte? && p.b == ')' then SkipSpec(input, s1) else s1;
    var (body, s3) := ReadSpec(input, s2);
    if body.Fault? || body.value.Error? then (body, s3)
    else
      var (ref, h) := Alloc(s3.heap, LambdaCell(None));
      (Ok(Lambda(ref, params, body.value)), s3.(heap := h))
  }
}
