/**
 * `Eval` of interpreter.go: the special forms DEFINE and QUOTE, the
 * builtin table, closures looked up in the environment and anonymous
 * lambdas in head position, with arguments evaluated left to right until
 * the first Error.
 *
 * Go's `Eval` may recurse forever (a lambda that calls itself), so the
 * model counts evaluation steps with `fuel` and answers `OutOfFuel` when
 * they are used up.  Writes to shared objects (a Lambda's `Env`, the
 * Integer a builtin folds into, a frame's bindings) are writes to the
 * `Heap` that every evaluation passes on.
 */
module Interpreter {
  import opened Common
  import opened Objects
  import opened Env
  import opened Builtins

  const Unimplemented := "You just found a bug or an unimplemented feature congrats!"
  const ArityMismatch := "arguments do not match"
  const NotAnIdentifier := "interface conversion: Object is not *Identifier"

  /** What `evalArgs` hands back: the argument values, or the step its caller returns at once. */
  datatype Evaluated = Values(vals: seq<Value>, heap: Heap) | Stopped(step: Step)

  predicate SameKind(a: Cell, b: Cell)
  {
    (a.IntCell? && b.IntCell?) || (a.LambdaCell? && b.LambdaCell?) || (a.FrameCell? && b.FrameCell?)
  }

  /**
   * The heap invariant of evaluation: objects are only ever added, and
   * an existing object stays an object of the same kind (an Integer stays
   * an Integer, a frame stays a frame).
   */
  predicate Evolves(h: Heap, h': Heap)
  {
    |h.cells| <= |h'.cells| &&
    forall q :: 0 <= q < |h.cells| ==> SameKind(h.cells[q], h'.cells[q])
  }

  /** The number of pairs along the `Cdr` chain. */
  function ListLength(v: Value): nat
  {
    if v.Pair? then 1 + ListLength(v.cdr) else 0
  }

  lemma EvolvesTrans(h1: Heap, h2: Heap, h3: Heap)
    requires Evolves(h1, h2) && Evolves(h2, h3)
    ensures Evolves(h1, h3)
  {
  }

  lemma SetEnvEvolves(h: Heap, r: Ref, env: Ref)
    ensures Evolves(h, SetEnv(h, r, env))
  {
  }

  lemma SetEvolves(h: Heap, f: Ref, name: string, v: Value)
    ensures Evolves(h, Set(h, f, name, v))
  {
  }

  lemma IntWriteEvolves(h: Heap, h': Heap, r: Ref)
    requires IntWrite(h, h', r)
    ensures Evolves(h, h')
  {
    if IsIntRef(h, r) {
      assert SameKind(h.cells[r], h'.cells[r]);
    }
  }

  /** A builtin only ever rewrites the value of an Integer. */
  lemma ApplyEvolves(p: Primitive, args: seq<Value>, h: Heap)
    ensures Apply(p, args, h).Done? ==> Evolves(h, Apply(p, args, h).heap)
  {
    var r := Apply(p, args, h);
    if r.Done? && args != [] && p.Arithmetic? && args[0].Integer? {
      IntWriteEvolves(h, r.heap, args[0].ref);
    }
  }

  /**
   * The positional binding loop of `extendFunctionEnv`, from parameter
   * `i` on: `args[i]` past the end of `args` panics.
   */
  function BindParams(h: Heap, f: Ref, params: seq<string>, args: seq<Value>, i: nat): (r: Outcome<Heap>)
    requires i <= |params|
    ensures r.Fault? <==> |args| < |params| && i < |params|
    ensures r.Fault? ==> r.msg == IndexOutOfRange
    ensures r.Ok? ==> Evolves(h, r.value) && |r.value.cells| == |h.cells|
    decreases |params| - i
  {
    if i == |params| then Ok(h)
    else if i >= |args| then Fault(IndexOutOfRange)
    else
      var h1 := Set(h, f, params[i], args[i]);
      SetEvolves(h, f, params[i], args[i]);
      var r := BindParams(h1, f, params, args, i + 1);
      if r.Ok? then EvolvesTrans(h, h1, r.value); r else r
  }

  /**
   * `extendFunctionEnv`: a new frame enclosed by the lambda's `Env`,
   * holding one binding per parameter.  Arguments beyond the parameters
   * are ignored; too few arguments panic.
   */
  function ExtendEnv(lam: Value, args: seq<Value>, h: Heap): (r: Outcome<(Ref, Heap)>)
    requires lam.Lambda?
    ensures r.Fault? <==> |args| < |lam.params|
    ensures r.Ok? ==> r.value.0 == |h.cells| && IsFrame(r.value.1, r.value.0) && Evolves(h, r.value.1)
  {
    var (f, h1) := NewEnclosed(h, EnvAt(h, lam.ref));
    match BindParams(h1, f, lam.params, args, 0)
    case Fault(m) => Fault(m)
    case Ok(h2) =>
      assert Evolves(h, h1);
      EvolvesTrans(h, h1, h2);
      Ok((f, h2))
  }

  /** `Eval(obj, env)`. */
  function Eval(fuel: nat, obj: Value, env: Ref, h: Heap): (r: Step)
    ensures r.Done? ==> Evolves(h, r.heap)
    decreases fuel, 0, 0
  {
    if fuel == 0 then OutOfFuel
    else
      match obj
      case Boolean(_) => Done(obj, h)
      case Char(_) => Done(obj, h)
      case Str(_) => Done(obj, h)
      case Error(_) => Done(obj, h)
      case Integer(_) => Done(obj, h)
      case Float(_) => Done(obj, h)
      case Vector(_) => Done(obj, h)
      case Lambda(ref, _, _) =>
        SetEnvEvolves(h, ref, env);
        Done(obj, SetEnv(h, ref, env))
      case Identifier(name) =>
        (match Get(h, env, name)
         case Some(v) => Done(v, h)
         case None => Done(Error("Unkown identifier " + name), h))
      case Pair(_, _) => EvalPair(fuel - 1, obj, env, h)
      case _ => Crash(Unimplemented)
  }

  /** The `*Pair` case of `Eval`, dispatching on the head. */
  function EvalPair(fuel: nat, node: Value, env: Ref, h: Heap): (r: Step)
    requires node.Pair?
    ensures r.Done? ==> Evolves(h, r.heap)
    decreases fuel, 4, 0
  {
    match node.car
    case Lambda(ref, params, _) =>
      var h1 := SetEnv(h, ref, env);
      SetEnvEvolves(h, ref, env);
      if node.cdr == Nil then ApplyStep(fuel, node.car, [], h1, h)
      else if !node.cdr.Pair? then Crash(NotAPair)
      else
        (match EvalArgs(fuel, node.cdr, env, h1)
         case Stopped(s) => EvolvesAfter(h, h1, s)
         case Values(args, h2) =>
           EvolvesTrans(h, h1, h2);
           if |args| == |params| then ApplyStep(fuel, node.car, args, h2, h)
           else Done(Error(ArityMismatch), h2))
    case Identifier(name) => EvalCall(fuel, name, node.cdr, env, h)
    case Nil => Done(node, h)
    case _ => Eval(fuel, node.cdr, env, h)
  }

  /** `(name args…)` with an Identifier head: special forms, builtins, then an environment Lambda. */
  function EvalCall(fuel: nat, name: string, cdr: Value, env: Ref, h: Heap): (r: Step)
    ensures r.Done? ==> Evolves(h, r.heap)
    decreases fuel, 3, 0
  {
    if name == "DEFINE" then
      if !cdr.Pair? then Crash(NotAPair)
      else if !cdr.car.Identifier? then Crash(NotAnIdentifier)
      else if !cdr.cdr.Pair? then Crash(NotAPair)
      else
        SetEvolves(h, env, cdr.car.name, cdr.cdr.car);
        Done(Nil, Set(h, env, cdr.car.name, cdr.cdr.car))
    else if name == "QUOTE" then Done(cdr, h)
    else if Lookup(name).Some? then
      if !cdr.Pair? then Crash(NotAPair)
      else
        match EvalArgs(fuel, cdr, env, h)
        case Stopped(s) => s
        case Values(args, h1) =>
          ApplyEvolves(Lookup(name).value, args, h1);
          EvolvesAfter(h, h1, Apply(Lookup(name).value, args, h1))
    else
      match Get(h, env, name)
      case Some(Lambda(ref, params, body)) =>
        var pre := if cdr == Nil then Values([], h)
                   else if !cdr.Pair? then Stopped(Crash(NotAPair))
                   else EvalArgs(fuel, cdr, env, h);
        (match pre
         case Stopped(s) => s
         case Values(args, h1) =>
           var h2 := SetEnv(h1, ref, env);
           SetEnvEvolves(h1, ref, env);
           EvolvesTrans(h, h1, h2);
           ApplyStep(fuel, Lambda(ref, params, body), args, h2, h))
      case _ => Done(Error("Unkown proc " + name), h)
  }

  /** A step taken from `h1`, seen from an earlier heap `h0`. */
  function EvolvesAfter(h0: Heap, h1: Heap, s: Step): (r: Step)
    requires Evolves(h0, h1)
    requires s.Done? ==> Evolves(h1, s.heap)
    ensures r == s && (r.Done? ==> Evolves(h0, r.heap))
  {
    if s.Done? then EvolvesTrans(h0, h1, s.heap); s else s
  }

  /** `applyFunction` on heap `h1`, reached from `h0`. */
  function ApplyStep(fuel: nat, lam: Value, args: seq<Value>, h1: Heap, h0: Heap): (r: Step)
    requires lam.Lambda? && Evolves(h0, h1)
    ensures r == ApplyFunction(fuel, lam, args, h1)
    ensures r.Done? ==> Evolves(h0, r.heap)
    decreases fuel, 2, 0
  {
    EvolvesAfter(h0, h1, ApplyFunction(fuel, lam, args, h1))
  }

  /** `applyFunction`: evaluate the body in the extended environment. */
  function ApplyFunction(fuel: nat, lam: Value, args: seq<Value>, h: Heap): (r: Step)
    requires lam.Lambda?
    ensures r.Done? ==> Evolves(h, r.heap)
    decreases fuel, 1, 0
  {
    match ExtendEnv(lam, args, h)
    case Fault(m) => Crash(m)
    case Ok((f, h1)) => EvolvesAfter(h, h1, Eval(fuel, lam.body, f, h1))
  }

  /**
   * `evalArgs(pair, env)`: the values of the list elements, left to
   * right; the first Error is returned without evaluating what follows.
   */
  function EvalArgs(fuel: nat, list: Value, env: Ref, h: Heap): (r: Evaluated)
    requires list.Pair?
    ensures r.Values? ==> |r.vals| == ListLength(list) && Evolves(h, r.heap)
    ensures r.Values? ==> forall i :: 0 <= i < |r.vals| ==> !r.vals[i].Error?
    ensures r.Stopped? && r.step.Done? ==> r.step.value.Error? && Evolves(h, r.step.heap)
    decreases fuel, 2, ListLength(list)
  {
    match Eval(fuel, list.car, env, h)
    case Done(v, h1) =>
      if v.Error? then Stopped(Done(v, h1))
      else if list.cdr == Nil then Values([v], h1)
      else if !list.cdr.Pair? then Stopped(Crash(NotAPair))
      else
        (match EvalArgs(fuel, list.cdr, env, h1)
         case Values(vs, h2) => EvolvesTrans(h, h1, h2); Values([v] + vs, h2)
         case Stopped(s) => if s.Done? then EvolvesTrans(h, h1, s.heap); Stopped(s) else Stopped(s))
    case other => Stopped(other)
  }

  /** `args` in front of the values of `r`; an early stop is passed on unchanged. */
  function Prepend(args: seq<Value>, r: Evaluated): Evaluated
  {
    if r.Values? then Values(args + r.vals, r.heap) else r
  }

  // ---------------------------------------------------------------------
  // The loops of interpreter.go

  /** The `for` loop of `evalArgs`, appending each value to `args`. */
  method EvalArgsLoop(fuel: nat, pair: Value, env: Ref, h: Heap) returns (r: Evaluated)
    requires pair.Pair?
    ensures r == EvalArgs(fuel, pair, env, h)
  {
    var args: seq<Value> := [];
    var p := pair;
    var heap := h;
    while true
      invariant p.Pair?
      invariant EvalArgs(fuel, pair, env, h) == Prepend(args, EvalArgs(fuel, p, env, heap))
      decreases ListLength(p)
    {
      var val := Eval(fuel, p.car, env, heap);
      if !val.Done? || val.value.Error? {
        return Stopped(val);
      }
      args := args + [val.value];
      heap := val.heap;
      if p.cdr == Nil {
        return Values(args, heap);
      }
      if !p.cdr.Pair? {
        return Stopped(Crash(NotAPair));
      }
      p := p.cdr;
    }
  }

  /** `extendFunctionEnv`: `env.Set(param, args[paramIdx])` for every parameter in turn. */
  method ExtendFunctionEnv(lam: Value, args: seq<Value>, h: Heap) returns (r: Outcome<(Ref, Heap)>)
    requires lam.Lambda?
    ensures r == ExtendEnv(lam, args, h)
  {
    var (f, h1) := NewEnclosed(h, EnvAt(h, lam.ref));
    var heap := h1;
    var i := 0;
    while i < |lam.params|
      invariant i <= |lam.params|
      invariant BindParams(heap, f, lam.params, args, i) == BindParams(h1, f, lam.params, args, 0)
    {
      if i >= |args| {
        return Fault(IndexOutOfRange);
      }
      heap := Set(heap, f, lam.params[i], args[i]);
      i := i + 1;
    }
    return Ok((f, heap));
  }
}
