/**
 * `eval` and `Eval(code)` of the string-splitting pipeline: take-three.go
 * and its successor eval.go.  Both evaluate a parsed object in an
 * environment of frames; they share `begin`, `define`, `lambda` and
 * calls to lambdas found in the environment, and eval.go adds `display`,
 * `quote` and the arithmetic and comparison operators of
 * `mathsComparisons`.  The `Revision` flag picks the file.
 *
 * Unlike interpreter.go, arguments are evaluated without stopping at an
 * Error, a lambda keeps the environment it was made in, and `define`
 * binds the value of its body.  The recursion is bounded by `fuel`; the
 * loops of `eval` and `mathsComparisons` are functions here, and the
 * methods at the end run them as Go does and are proved to agree.
 */
module SplitEval {
  import opened Common
  import GoText
  import opened Objects
  import opened Env
  import opened Builtins
  import opened Interpreter
  import opened Splitting
  import opened SplitParse

  const NotABegin := "interface conversion: Object is not *Begin"
  const NotALambda := "interface conversion: Object is not *Lambda"
  const ExpectingInteger := "expecting an integer"
  const ExpectingFloat := "expecting a float"
  const FloatCompared := "comparison of two float64 values"
  const FloatComputed := "float64 arithmetic"

  const UnknownPrefix := "unknown identifier "
  const IdentifierSyntax := "&main.Identifier{Value:"

  /**
   * The Error text for an unknown identifier in head position.
   * take-three.go formats the name with `%s`; eval.go formats the
   * `*Identifier` with `%#v`, which writes the Go syntax of the struct,
   * the name quoted as `strconv.Quote` does.  Either way the text starts
   * with the same words and holds at least every byte of the name.
   */
  function UnknownHead(rev: Revision, name: string): (r: string)
    ensures UnknownPrefix <= r && |r| >= |UnknownPrefix| + |name|
  {
    match rev
    case TakeThree => UnknownPrefix + name
    case Final =>
      GoText.EscapedLength(name);
      UnknownPrefix + IdentifierSyntax + GoText.Quote(name) + "}"
  }

  /** The name can be read back from its unknown-identifier text, in both files. */
  lemma UnknownHeadReadsBack(rev: Revision, name: string)
    ensures UnknownName(rev, UnknownHead(rev, name)) == Some(name)
  {
    var e := GoText.Escaped(name);
    var open := IdentifierSyntax + "\"";
    if rev == Final {
      var rest := open + e + "\"}";
      var r := UnknownPrefix + rest;
      assert r == UnknownHead(rev, name);
      assert r[|UnknownPrefix|..] == rest;
      assert rest[|rest| - 2..] == "\"}";
      assert rest[|open|..|rest| - 2] == e;
      GoText.UnescapeEscaped(name);
    } else {
      assert UnknownHead(rev, name)[|UnknownPrefix|..] == name;
    }
  }

  /** The name an unknown-identifier text was made from, read back from the text. */
  function UnknownName(rev: Revision, msg: string): Option<string>
  {
    if !(UnknownPrefix <= msg) then None
    else
      var rest := msg[|UnknownPrefix|..];
      match rev
      case TakeThree => Some(rest)
      case Final =>
        var open := IdentifierSyntax + "\"";
        if |rest| >= |open| + 2 && open <= rest && rest[|rest| - 2..] == "\"}" then
          GoText.Unescape(rest[|open|..|rest| - 2])
        else None
  }

  /** The operators of `mathsComparisons`, as the builtin primitives they compute. */
  function MathOp(name: string): (r: Option<Primitive>)
    ensures r.Some? ==> !r.value.QuoteString?
    ensures r.Some? <==> name in {"+", "-", "*", "/", "<", ">", "<=", ">=", "="}
  {
    if name == "+" then Some(Arithmetic(Add))
    else if name == "-" then Some(Arithmetic(Sub))
    else if name == "*" then Some(Arithmetic(Mul))
    else if name == "/" then Some(Arithmetic(Div))
    else if name == "<" then Some(Comparison(Lt))
    else if name == ">" then Some(Comparison(Gt))
    else if name == "<=" then Some(Comparison(Le))
    else if name == ">=" then Some(Comparison(Ge))
    else if name == "=" then Some(Comparison(Eq))
    else None
  }

  /** A chain of pairs ending in nil: the lists the `for` loops of `eval` walk to the end. */
  predicate Proper(v: Value)
  {
    v.Pair? && (v.cdr == Nil || Proper(v.cdr))
  }

  /** Identifiers of the given names, in order. */
  function Symbols(names: seq<string>): (r: seq<Value>)
    ensures |r| == |names|
    ensures forall i :: 0 <= i < |r| ==> r[i] == Identifier(names[i])
  {
    seq(|names|, i requires 0 <= i < |names| => Identifier(names[i]))
  }

  /**
   * The `begin` loop: the cars of the list after `begin`, which must be a
   * proper list; a non-pair where a pair is expected panics.
   */
  function BeginBody(p: Value): (r: Outcome<seq<Value>>)
    ensures r.Ok? <==> Proper(p)
    ensures r.Ok? ==> r.value != [] && Chain(r.value, Nil) == p
    ensures r.Fault? ==> r.msg == NotAPair
    decreases ListLength(p)
  {
    if !p.Pair? then Fault(NotAPair)
    else if p.cdr == Nil then Ok([p.car])
    else
      match BeginBody(p.cdr)
      case Fault(m) => Fault(m)
      case Ok(body) => Ok([p.car] + body)
  }

  /**
   * The parameter loop of `lambda`: every car must be an Identifier and the
   * list must end in nil.
   */
  function ParamNames(args: Value): (r: Outcome<seq<string>>)
    requires args.Pair?
    ensures r.Ok? ==> r.value != [] && Chain(Symbols(r.value), Nil) == args
    ensures r.Fault? ==> r.msg == NotAnIdentifier || r.msg == NotAPair
    decreases ListLength(args)
  {
    if !args.car.Identifier? then Fault(NotAnIdentifier)
    else if args.cdr == Nil then Ok([args.car.name])
    else if !args.cdr.Pair? then Fault(NotAPair)
    else
      match ParamNames(args.cdr)
      case Fault(m) => Fault(m)
      case Ok(ps) =>
        assert Symbols([args.car.name] + ps) == [args.car] + Symbols(ps);
        Ok([args.car.name] + ps)
  }

  /** The last pair of a chain: the `pair` the argument loop stops on. */
  function LastPair(p: Value): (r: Value)
    requires p.Pair?
    ensures r.Pair? && !r.cdr.Pair?
    decreases ListLength(p)
  {
    if p.cdr.Pair? then LastPair(p.cdr) else p
  }

  /** `prefix` in front of a collected sequence; a fault is passed on unchanged. */
  function After<T>(prefix: seq<T>, r: Outcome<seq<T>>): Outcome<seq<T>>
  {
    if r.Ok? then Ok(prefix + r.value) else r
  }

  lemma AfterNothing<T>(r: Outcome<seq<T>>)
    ensures After([], r) == r
  {
    if r.Ok? {
      assert [] + r.value == r.value;
    }
  }

  lemma AfterMore<T>(prefix: seq<T>, x: T, r: Outcome<seq<T>>)
    ensures After(prefix + [x], r) == After(prefix, After([x], r))
  {
    if r.Ok? {
      assert (prefix + [x]) + r.value == prefix + ([x] + r.value);
    }
  }

  lemma AllocEvolves(h: Heap, c: Cell)
    ensures Evolves(h, Alloc(h, c).1)
  {
    var h' := Alloc(h, c).1;
    forall q | 0 <= q < |h.cells|
      ensures SameKind(h.cells[q], h'.cells[q])
    {
      assert h'.cells[q] == h'.cells[..|h.cells|][q];
    }
  }

  lemma GrowsEvolves(h: Heap, h': Heap)
    requires Grows(h, h')
    ensures Evolves(h, h')
  {
    forall q | 0 <= q < |h.cells|
      ensures SameKind(h.cells[q], h'.cells[q])
    {
      assert h'.cells[q] == h'.cells[..|h.cells|][q];
    }
  }

  /**
   * `eval(obj, env)`: strings, booleans, characters, integers and floats
   * are themselves; an identifier is looked up (an Error if unbound); a
   * Begin is run in order; a pair with an identifier in head position is a
   * form or a call, any other pair is returned as it is; everything else
   * panics with its `Inspect()` text.  Evaluation only adds objects and
   * never changes the kind of one.
   */
  function Eval(rev: Revision, fuel: nat, obj: Value, env: Ref, h: Heap): (r: Step)
    ensures r.Done? ==> Evolves(h, r.heap)
    decreases fuel, 0, 0
  {
    if fuel == 0 then OutOfFuel
    else
      match obj
      case Str(_) => Done(obj, h)
      case Boolean(_) => Done(obj, h)
      case Char(_) => Done(obj, h)
      case Integer(_) => Done(obj, h)
      case Float(_) => Done(obj, h)
      case Identifier(name) =>
        (match Get(h, env, name)
         case Some(v) => Done(v, h)
         case None => Done(Error("unkown identifier " + name), h))
      case Begin(exprs) => EvalSeq(rev, fuel - 1, exprs, Nil, env, h)
      case Pair(car, cdr) =>
        if car.Identifier? then EvalForm(rev, fuel - 1, car.name, cdr, env, h)
        else Done(obj, h)
      case _ =>
        (match Inspect(obj, h)
         case Text(t) => Crash(t)
         case Panic(m) => Crash(m)
         case Unmodelled(w) => Undetermined(w))
  }

  /** The `range` loop of a Begin: the value of the last expression, nil for none. */
  function EvalSeq(rev: Revision, fuel: nat, exprs: seq<Value>, last: Value, env: Ref, h: Heap): (r: Step)
    ensures r.Done? ==> Evolves(h, r.heap)
    decreases fuel, 1, |exprs|
  {
    if exprs == [] then Done(last, h)
    else
      match Eval(rev, fuel, exprs[0], env, h)
      case Done(v, h1) => EvolvesAfter(h, h1, EvalSeq(rev, fuel, exprs[1..], v, env, h1))
      case other => other
  }

  /** A pair whose car is the Identifier `name`; `cdr` is the rest of the form. */
  function EvalForm(rev: Revision, fuel: nat, name: string, cdr: Value, env: Ref, h: Heap): (r: Step)
    ensures r.Done? ==> Evolves(h, r.heap)
    decreases fuel, 5, 0
  {
    if rev == Final && name == "display" then
      if !cdr.Pair? then Crash(NotAPair)
      else
        match Eval(rev, fuel, cdr.car, env, h)
        case Done(v, h1) =>
          (match StringOf(v, h1)
           case Text(_) => Done(Nil, h1)
           case Panic(m) => Crash(m)
           case Unmodelled(w) => Undetermined(w))
        case other => other
    else if rev == Final && name == "quote" then
      if !cdr.Pair? then Crash(NotAPair)
      else if cdr.car == Nil then Done(Pair(Nil, Nil), h)
      else Done(cdr.car, h)
    else if name == "begin" then
      match BeginBody(cdr)
      case Fault(m) => Crash(m)
      case Ok(body) => Done(Begin(body), h)
    else if name == "define" then
      if !cdr.Pair? then Crash(NotAPair)
      else if !cdr.car.Identifier? then Crash(NotAnIdentifier)
      else if !cdr.cdr.Pair? then Crash(NotAPair)
      else
        match Eval(rev, fuel, cdr.cdr.car, env, h)
        case Done(v, h1) =>
          SetEvolves(h1, env, cdr.car.name, v);
          EvolvesTrans(h, h1, Set(h1, env, cdr.car.name, v));
          Done(Nil, Set(h1, env, cdr.car.name, v))
        case other => other
    else if name == "lambda" then
      if !cdr.Pair? || !cdr.car.Pair? || !cdr.cdr.Pair? then Crash(NotAPair)
      else
        match Eval(rev, fuel, cdr.cdr.car, env, h)
        case Done(b, h1) =>
          if !b.Begin? then Crash(NotABegin)
          else
            (match ParamNames(cdr.car)
             case Fault(m) => Crash(m)
             case Ok(ps) =>
               var (ref, h2) := Alloc(h1, LambdaCell(Some(env)));
               AllocEvolves(h1, LambdaCell(Some(env)));
               EvolvesTrans(h, h1, h2);
               Done(Lambda(ref, ps, b), h2))
        case other => other
    else if rev == Final && MathOp(name).Some? then
      MathsComparisons(rev, fuel, name, cdr, env, h)
    else
      match Get(h, env, name)
      case None => Done(Error(UnknownHead(rev, name)), h)
      case Some(val) =>
        if !cdr.Pair? then Crash(NotAPair)
        else
          match EvalArgs(rev, fuel, cdr, env, h)
          case Stopped(s) => s
          case Values(args, h1) =>
            var shown := if rev == TakeThree then Inspect(LastPair(cdr), h1) else Text("");
            if shown.Panic? then Crash(shown.msg)
            else if shown.Unmodelled? then Undetermined(shown.what)
            else if !val.Lambda? then Crash(NotALambda)
            else EvolvesAfter(h, h1, ApplyFunction(rev, fuel, val, args, h1))
  }

  /**
   * The argument loop of a call: every element is evaluated, left to
   * right, and kept whatever it is; the list must end in nil.
   */
  function EvalArgs(rev: Revision, fuel: nat, list: Value, env: Ref, h: Heap): (r: Evaluated)
    requires list.Pair?
    ensures r.Values? ==> Proper(list) && |r.vals| == ListLength(list) && Evolves(h, r.heap)
    ensures r.Stopped? ==> !r.step.Done?
    decreases fuel, 2, ListLength(list)
  {
    match Eval(rev, fuel, list.car, env, h)
    case Done(v, h1) =>
      if list.cdr == Nil then Values([v], h1)
      else if !list.cdr.Pair? then Stopped(Crash(NotAPair))
      else
        (match EvalArgs(rev, fuel, list.cdr, env, h1)
         case Values(vs, h2) => EvolvesTrans(h, h1, h2); Values([v] + vs, h2)
         case Stopped(s) => Stopped(s))
    case other => Stopped(other)
  }

  /** `applyFunction`: the body in a new frame enclosed by the lambda's own environment. */
  function ApplyFunction(rev: Revision, fuel: nat, lam: Value, args: seq<Value>, h: Heap): (r: Step)
    requires lam.Lambda?
    ensures r.Done? ==> Evolves(h, r.heap)
    ensures |args| < |lam.params| ==> r == Crash(IndexOutOfRange)
    decreases fuel, 1, 0
  {
    match ExtendEnv(lam, args, h)
    case Fault(m) => Crash(m)
    case Ok((f, h1)) => EvolvesAfter(h, h1, Eval(rev, fuel, lam.body, f, h1))
  }

  /**
   * `mathsComparisons(op, rest, env)`: the first operand decides between
   * the Integer loop and the Float loop; any other first operand is the
   * Error "unknown operator".
   */
  function MathsComparisons(rev: Revision, fuel: nat, op: string, rest: Value, env: Ref, h: Heap): (r: Step)
    requires MathOp(op).Some?
    ensures r.Done? ==> Evolves(h, r.heap)
    decreases fuel, 4, 0
  {
    if !rest.Pair? then Crash(NotAPair)
    else
      match Eval(rev, fuel, rest.car, env, h)
      case Done(obj, h1) =>
        if obj.Integer? then
          EvolvesAfter(h, h1, IntFold(rev, fuel, MathOp(op).value, IntAt(h1, obj.ref), rest.cdr, env, h1))
        else if obj.Float? then
          EvolvesAfter(h, h1, FloatFold(rev, fuel, MathOp(op).value, rest.cdr, env, h1))
        else Done(Error("unknown operator " + op), h1)
      case other => other
  }

  /**
   * The Integer loop: each further operand must evaluate to an Integer.
   * `+ - * /` fold into `val` (int64, wrapping) and answer a new Integer;
   * a comparison tests `val`, the FIRST operand, against each operand in
   * turn and answers #f at the first failure, #t at the end.  At least one
   * further operand is needed: `car` of nil panics.
   */
  function IntFold(rev: Revision, fuel: nat, p: Primitive, val: int, rest: Value, env: Ref, h: Heap): (r: Step)
    requires !p.QuoteString?
    ensures r.Done? ==> Evolves(h, r.heap)
    decreases fuel, 3, ListLength(rest)
  {
    if !rest.Pair? then Crash(NotAPair)
    else
      match Eval(rev, fuel, rest.car, env, h)
      case Done(d, h1) =>
        if !d.Integer? then Done(Error(ExpectingInteger), h1)
        else
          var x := IntAt(h1, d.ref);
          if p.Comparison? then
            if !Holds(p.c, val, x) then Done(Boolean(false), h1)
            else if rest.cdr != Nil then EvolvesAfter(h, h1, IntFold(rev, fuel, p, val, rest.cdr, env, h1))
            else Done(Boolean(true), h1)
          else
            (match Combine(p.op, val, x)
             case Fault(m) => Crash(m)
             case Ok(n) =>
               if rest.cdr != Nil then EvolvesAfter(h, h1, IntFold(rev, fuel, p, n, rest.cdr, env, h1))
               else
                 var (ref, h2) := Alloc(h1, IntCell(n));
                 AllocEvolves(h1, IntCell(n));
                 EvolvesTrans(h, h1, h2);
                 Done(Integer(ref), h2))
      case other => other
  }

  /**
   * The Float loop: each further operand must evaluate to a Float; the
   * float64 results themselves are not modelled.
   */
  function FloatFold(rev: Revision, fuel: nat, p: Primitive, rest: Value, env: Ref, h: Heap): (r: Step)
    requires !p.QuoteString?
    ensures r.Done? ==> Evolves(h, r.heap) && r.value == Error(ExpectingFloat)
    decreases fuel, 3, ListLength(rest)
  {
    if !rest.Pair? then Crash(NotAPair)
    else
      match Eval(rev, fuel, rest.car, env, h)
      case Done(d, h1) =>
        if !d.Float? then Done(Error(ExpectingFloat), h1)
        else if p.Comparison? then Undetermined(FloatCompared)
        else if rest.cdr != Nil then EvolvesAfter(h, h1, FloatFold(rev, fuel, p, rest.cdr, env, h1))
        else Undetermined(FloatComputed)
      case other => other
  }

  /**
   * `Eval(code)`: split into tokens (eval.go answers nil when there are
   * none), rewrite, parse ONE expression from the front and evaluate it in
   * the global environment `global`.  Tokens after that expression are
   * ignored.
   */
  function Run(rev: Revision, fuel: nat, code: string, global: Ref, h: Heap): (r: Step)
    ensures r.Done? ==> Evolves(h, r.heap)
  {
    var ts := Tokens(rev, code);
    if rev == Final && ts == [] then Done(Nil, h)
    else
      match Rewrite(rev, ts)
      case Fault(m) => Crash(m)
      case Ok(ts2) =>
        var (obj, s) := ParseSpec(PState(ts2, h));
        match obj
        case Fault(m) => Crash(m)
        case Ok(v) =>
          GrowsEvolves(h, s.heap);
          EvolvesAfter(h, s.heap, Eval(rev, fuel, v, global, s.heap))
  }

  // ---------------------------------------------------------------------
  // The loops of `eval` and `mathsComparisons`, as Go runs them

  /** The `begin` form's `for` loop, appending each car to `body`. */
  method CollectBody(p: Value) returns (r: Outcome<seq<Value>>)
    ensures r == BeginBody(p)
  {
    if !p.Pair? {
      return Fault(NotAPair);
    }
    var pair := p;
    var body: seq<Value> := [];
    AfterNothing(BeginBody(p));
    while true
      invariant pair.Pair?
      invariant BeginBody(p) == After(body, BeginBody(pair))
      decreases ListLength(pair)
    {
      AfterMore(body, pair.car, BeginBody(pair.cdr));
      body := body + [pair.car];
      if pair.cdr == Nil {
        return Ok(body);
      }
      if !pair.cdr.Pair? {
        return Fault(NotAPair);
      }
      pair := pair.cdr;
    }
  }

  /** The parameter loop of `lambda`. */
  method CollectParams(args: Value) returns (r: Outcome<seq<string>>)
    requires args.Pair?
    ensures r == ParamNames(args)
  {
    var a := args;
    var params: seq<string> := [];
    AfterNothing(ParamNames(args));
    while true
      invariant a.Pair?
      invariant ParamNames(args) == After(params, ParamNames(a))
      decreases ListLength(a)
    {
      if !a.car.Identifier? {
        return Fault(NotAnIdentifier);
      }
      if a.cdr.Pair? {
        AfterMore(params, a.car.name, ParamNames(a.cdr));
      }
      params := params + [a.car.name];
      if a.cdr == Nil {
        return Ok(params);
      }
      if !a.cdr.Pair? {
        return Fault(NotAPair);
      }
      a := a.cdr;
    }
  }

  /** The `range` loop over a Begin's body. */
  method RunBegin(rev: Revision, fuel: nat, exprs: seq<Value>, env: Ref, h: Heap) returns (r: Step)
    ensures r == EvalSeq(rev, fuel, exprs, Nil, env, h)
  {
    var obj := Nil;
    var heap := h;
    var i := 0;
    while i < |exprs|
      invariant i <= |exprs|
      invariant EvalSeq(rev, fuel, exprs[i..], obj, env, heap) == EvalSeq(rev, fuel, exprs, Nil, env, h)
    {
      var s := Eval(rev, fuel, exprs[i], env, heap);
      if !s.Done? {
        return s;
      }
      assert exprs[i..][1..] == exprs[i + 1..];
      obj, heap := s.value, s.heap;
      i := i + 1;
    }
    return Done(obj, heap);
  }

  /** The argument loop of a call. */
  method CollectArgs(rev: Revision, fuel: nat, pair: Value, env: Ref, h: Heap) returns (r: Evaluated)
    requires pair.Pair?
    ensures r == EvalArgs(rev, fuel, pair, env, h)
  {
    var args: seq<Value> := [];
    var p := pair;
    var heap := h;
    while true
      invariant p.Pair?
      invariant EvalArgs(rev, fuel, pair, env, h) == Prepend(args, EvalArgs(rev, fuel, p, env, heap))
      decreases ListLength(p)
    {
      var val := Eval(rev, fuel, p.car, env, heap);
      ArgsStep(rev, fuel, p, env, heap, args, val);
      if !val.Done? {
        return Stopped(val);
      }
      args := args + [val.value];
      heap := val.heap;
      if p.cdr == Nil {
        return Values(args, heap);
      }
      if !p.cdr.Pair? {
        return Stopped(Crash(NotAPair));
      }
      p := p.cdr;
    }
  }

  /** One turn of the argument loop: what `EvalArgs` gives after the value of `car`. */
  lemma ArgsStep(rev: Revision, fuel: nat, p: Value, env: Ref, heap: Heap, args: seq<Value>, val: Step)
    requires p.Pair? && val == Eval(rev, fuel, p.car, env, heap)
    ensures !val.Done? ==> Prepend(args, EvalArgs(rev, fuel, p, env, heap)) == Stopped(val)
    ensures val.Done? && p.cdr == Nil ==>
              Prepend(args, EvalArgs(rev, fuel, p, env, heap)) == Values(args + [val.value], val.heap)
    ensures val.Done? && p.cdr != Nil && !p.cdr.Pair? ==>
              Prepend(args, EvalArgs(rev, fuel, p, env, heap)) == Stopped(Crash(NotAPair))
    ensures val.Done? && p.cdr.Pair? ==>
              Prepend(args, EvalArgs(rev, fuel, p, env, heap)) ==
              Prepend(args + [val.value], EvalArgs(rev, fuel, p.cdr, env, val.heap))
  {
    if val.Done? && p.cdr.Pair? {
      var rest := EvalArgs(rev, fuel, p.cdr, env, val.heap);
      if rest.Values? {
        assert args + ([val.value] + rest.vals) == args + [val.value] + rest.vals;
      }
    }
  }

  /** The Integer `for` loop of `mathsComparisons`, for one operator. */
  method IntLoop(rev: Revision, fuel: nat, p: Primitive, first: int, rest: Value, env: Ref, h: Heap) returns (r: Step)
    requires !p.QuoteString?
    ensures r == IntFold(rev, fuel, p, first, rest, env, h)
  {
    var val := first;
    var more := rest;
    var heap := h;
    while true
      invariant IntFold(rev, fuel, p, val, more, env, heap) == IntFold(rev, fuel, p, first, rest, env, h)
      decreases ListLength(more)
    {
      if !more.Pair? {
        return Crash(NotAPair);
      }
      var d := Eval(rev, fuel, more.car, env, heap);
      if !d.Done? {
        return d;
      }
      if !d.value.Integer? {
        return Done(Error(ExpectingInteger), d.heap);
      }
      var x := IntAt(d.heap, d.value.ref);
      heap := d.heap;
      if p.Comparison? {
        if !Holds(p.c, val, x) {
          return Done(Boolean(false), heap);
        }
      } else {
        var n := Combine(p.op, val, x);
        if n.Fault? {
          return Crash(n.msg);
        }
        val := n.value;
      }
      if more.cdr == Nil {
        if p.Comparison? {
          return Done(Boolean(true), heap);
        }
        var (ref, h2) := Alloc(heap, IntCell(val));
        return Done(Integer(ref), h2);
      }
      more := more.cdr;
    }
  }
}
