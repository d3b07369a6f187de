/**
 * `Reader` of reader.go: a byte reader over the program text whose
 * methods advance it in place.  Every method is proved to leave the
 * reader exactly where the corresponding function of ReaderSpec says,
 * with the result that function gives.
 */
module Reading {
  import opened Common
  import opened Objects
  import opened ReaderSpec

  class Reader {
    const input: string
    var pos: nat
    var lastRead: bool
    /** The objects allocated so far (integers and lambdas). */
    var heap: Heap

    predicate Valid()
      reads this
    {
      pos <= |input|
    }

    function State(): RState
      reads this
    {
      RState(pos, lastRead, heap)
    }

    /** `NewReader(input)`: a reader at the start of `input`. */
    constructor (input: string, heap: Heap)
      ensures Valid() && this.input == input && State() == RState(0, false, heap)
    {
      this.input := input;
      pos := 0;
      lastRead := false;
      this.heap := heap;
    }

    method CurrentByte() returns (c: ByteOut)
      requires Valid()
      modifies this
      ensures Valid() && (c, State()) == CurrentByteSpec(input, old(State()))
    {
      if pos < |input| {
        c := Byte(input[pos]);
        pos := pos + 1;
        lastRead := true;
      } else {
        c := AtEOF;
      }
    }

    method Skip()
      requires Valid()
      modifies this
      ensures Valid() && State() == SkipSpec(input, old(State()))
    {
      if pos < |input| {
        pos := pos + 1;
      }
      lastRead := false;
    }

    method UnreadByte() returns (ok: bool)
      requires Valid()
      modifies this
      ensures Valid() && (ok, State()) == UnreadSpec(input, old(State()))
    {
      ok := lastRead && pos > 0;
      if ok {
        pos := pos - 1;
        lastRead := false;
      }
    }

    method Peek() returns (p: ByteOut)
      requires Valid()
      modifies this
      ensures Valid() && (p, State()) == PeekSpec(input, old(State()))
      decreases |input| - pos
    {
      lastRead := false;
      if pos == |input| {
        p := AtEOF;
      } else if IsWS(input[pos]) {
        Skip();
        p := Peek();
      } else {
        p := Byte(input[pos]);
      }
    }

    method Read() returns (r: Outcome<Value>)
      requires Valid()
      modifies this
      ensures Valid() && (r, State()) == ReadSpec(input, old(State()))
      decreases |input| - pos, 1
    {
      var c := CurrentByte();
      if c.AtEOF? {
        return Ok(Error(EOF));
      }
      var ch := c.b;
      if ch == '#' {
        r := ReadHash();
      } else if ch == '"' {
        r := ReadString();
      } else if ch == '\'' || ch == '`' {
        var word := if ch == '\'' then "quote" else "quasiquote";
        var v := Read();
        if v.Fault? || v.value.Error? {
          r := v;
        } else {
          r := Ok(Pair(Identifier(word), Pair(v.value, Nil)));
        }
      } else if ch == '(' {
        r := ReadParen();
      } else if IsWS(ch) {
        var p := Peek();
        if p.AtEOF? {
          r := Ok(Error(EOF));
        } else {
          r := Read();
        }
      } else if ch == '+' || ch == '*' || ch == '/' || ch == '-' {
        r := Ok(Identifier([ch]));
      } else {
        r := ReadAtom(ch);
      }
    }

    method ReadHash() returns (r: Outcome<Value>)
      requires Valid()
      modifies this
      ensures Valid() && (r, State()) == HashSpec(input, old(State()))
    {
      var p := Peek();
      if p.AtEOF? {
        return Ok(Error(EOF));
      }
      var u := GoText.UpperByteText(p.b);
      if u == "T" {
        Skip();
        r := Ok(Boolean(true));
      } else if u == "F" {
        Skip();
        r := Ok(Boolean(false));
      } else if u == "\\" {
        Skip();
        var c := CurrentByte();
        if c.AtEOF? {
          r := Ok(Error(EOF));
        } else {
          r := Ok(Char(GoText.EncodeRune(c.b)));
        }
      } else {
        r := Fault("Expecting one of F or T or \\ found " + u + " instead.");
      }
    }

    method ReadString() returns (r: Outcome<Value>)
      requires Valid()
      modifies this
      ensures Valid() && (r, State()) == StringSpec(input, old(State()), "")
    {
      var acc := "";
      while true
        invariant Valid() && StringSpec(input, State(), acc) == StringSpec(input, old(State()), "")
        decreases |input| - pos
      {
        var c := CurrentByte();
        if c.AtEOF? {
          return Ok(Error(EOF));
        }
        acc := acc + [c.b];
        var p := Peek();
        if p.AtEOF? {
          return Ok(Error(MissingQuote));
        }
        if p.b == '"' {
          break;
        }
      }
      var q := CurrentByte();
      if q.AtEOF? {
        r := Ok(Error(EOF));
      } else if q.b != '"' {
        r := Ok(Error(MissingQuote));
      } else {
        r := Ok(Str(acc));
      }
    }

    method ReadAtom(first: char) returns (r: Outcome<Value>)
      requires Valid()
      modifies this
      ensures Valid() && (r, State()) == AtomSpec(input, old(State()), [first])
    {
      var text := [first];
      while true
        invariant Valid() && AtomSpec(input, State(), text) == AtomSpec(input, old(State()), [first])
        decreases |input| - pos
      {
        var c := CurrentByte();
        if c.AtEOF? || IsWS(c.b) {
          break;
        }
        if c.b == '(' || c.b == ')' {
          var ok := UnreadByte();
          if !ok {
            return Ok(Error(BadUnread));
          }
          break;
        }
        text := text + [c.b];
      }
      var (v, h) := AtomValue(text, heap);
      heap := h;
      r := Ok(v);
    }

    method ReadParen() returns (r: Outcome<Value>)
      requires Valid()
      modifies this
      ensures Valid() && (r, State()) == ParenSpec(input, old(State()))
      decreases |input| - pos, 2
    {
      var p := Peek();
      if p.AtEOF? {
        return Ok(Error(EOF));
      }
      if p.b == ')' {
        Skip();
        r := Read();
        return;
      }
      var first := Read();
      if first.Fault? || first.value.Error? {
        return first;
      }
      if first.value == Identifier("LAMBDA") {
        r := ReadLambda();
        return;
      }
      var elems := [first.value];
      var tail := Nil;
      while true
        invariant Valid() && old(pos) <= pos
        invariant ListSpec(input, State(), elems, tail) == ParenSpec(input, old(State()))
        decreases |input| - pos
      {
        var p := Peek();
        if p.AtEOF? {
          return Ok(Error(EOF));
        }
        if p.b == ')' {
          break;
        }
        var c := CurrentByte();
        if c.AtEOF? {
          return Ok(Error(EOF));
        }
        if c.b == '.' {
          var v := Read();
          if v.Fault? || v.value.Error? {
            return v;
          }
          tail := v.value;
        } else {
          var ok := UnreadByte();
          if !ok {
            return Ok(Error(BadUnread));
          }
          var v := Read();
          if v.Fault? || v.value.Error? {
            return v;
          }
          elems := elems + [v.value];
          tail := Nil;
        }
      }
      Skip();
      r := Ok(Chain(elems, tail));
    }

    /** `readLambda`, entered after `(LAMBDA`. */
    method ReadLambda() returns (r: Outcome<Value>)
      requires Valid()
      modifies this
      ensures Valid() && (r, State()) == LambdaSpec(input, old(State()))
      decreases |input| - pos, 0
    {
      var p := Peek();
      if p.AtEOF? {
        return Ok(Error(EOF));
      }
      if p.b != '(' {
        return Ok(Error(MissingOpen));
      }
      Skip();
      var c := CurrentByte();
      if c.AtEOF? {
        return Ok(Error(EOF));
      }
      if c.b == ')' {
        var body := Read();
        if body.Fault? {
          return body;
        }
        var (ref, h) := Alloc(heap, LambdaCell(None));
        heap := h;
        return Ok(Lambda(ref, [], body.value));
      }
      var ok := UnreadByte();
      if !ok {
        return Ok(Error(BadUnread));
      }
      var params: seq<string> := [];
      while true
        invariant Valid() && old(pos) < pos
        invariant ParamsSpec(input, State(), params) == LambdaSpec(input, old(State()))
        decreases |input| - pos
      {
        var p := Peek();
        if p.AtEOF? {
          return Ok(Error(EOF));
        }
        if p.b == ')' {
          Skip();
          break;
        }
        var arg := Read();
        if arg.Fault? {
          return arg;
        }
        if !arg.value.Identifier? {
          return Fault(NotIdentifier);
        }
        params := params + [arg.value.name];
      }
      var q := Peek();
      if q.Byte? && q.b == ')' {
        Skip();
      }
      var body := Read();
      if body.Fault? || body.value.Error? {
        return body;
      }
      var (ref, h) := Alloc(heap, LambdaCell(None));
      heap := h;
      r := Ok(Lambda(ref, params, body.value));
    }
  }
}
