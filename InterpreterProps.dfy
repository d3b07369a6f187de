/**
 * What `Eval` of interpreter.go does with each kind of expression:
 * self-evaluating objects, lookups, DEFINE (which stores the expression
 * unevaluated), QUOTE (which answers the whole argument list), the
 * resolution order of a head symbol, the arity rules of the two ways of
 * applying a lambda, positional parameter binding, and the dynamic scope
 * that follows from overwriting `Env` at every call.
 */
module InterpreterProps {
  import opened Common
  import opened Objects
  import opened Env
  import opened Builtins
  import opened Interpreter

  /** A list headed by a symbol is a call of that symbol. */
  lemma CallUnfold(fuel: nat, name: string, cdr: Value, env: Ref, h: Heap)
    requires fuel >= 1
    ensures Eval(fuel, Pair(Identifier(name), cdr), env, h) == EvalCall(fuel - 1, name, cdr, env, h)
  {
    assert Eval(fuel, Pair(Identifier(name), cdr), env, h) == EvalPair(fuel - 1, Pair(Identifier(name), cdr), env, h);
  }

  /** Booleans, characters, strings, errors, numbers and vectors evaluate to themselves. */
  lemma SelfEvaluating(fuel: nat, v: Value, env: Ref, h: Heap)
    requires fuel >= 1
    requires v.Boolean? || v.Char? || v.Str? || v.Error? || v.Integer? || v.Float? || v.Vector?
    ensures Eval(fuel, v, env, h) == Done(v, h)
  {
  }

  /** Evaluating a Lambda returns the same object, whose `Env` is now the current environment. */
  lemma LambdaTakesEnv(fuel: nat, ref: Ref, params: seq<string>, body: Value, env: Ref, h: Heap)
    requires fuel >= 1 && ref < |h.cells| && h.cells[ref].LambdaCell?
    ensures var r := Eval(fuel, Lambda(ref, params, body), env, h);
            r.Done? && r.value == Lambda(ref, params, body) && EnvAt(r.heap, ref) == Some(env) &&
            |r.heap.cells| == |h.cells|
  {
  }

  /** An Identifier is its binding, or an Error naming it when it is unbound. */
  lemma IdentifierLookup(fuel: nat, name: string, env: Ref, h: Heap)
    requires fuel >= 1
    ensures Get(h, env, name).Some? ==> Eval(fuel, Identifier(name), env, h) == Done(Get(h, env, name).value, h)
    ensures Get(h, env, name).None? ==> Eval(fuel, Identifier(name), env, h) == Done(Error("Unkown identifier " + name), h)
  {
  }

  /**
   * `(DEFINE x e rest…)` returns nil and binds `x` in the current frame
   * to the expression `e` itself, not to its value; no other name
   * changes, seen from any frame.
   */
  lemma DefineBindsUnevaluated(fuel: nat, x: string, e: Value, rest: Value, env: Ref, h: Heap)
    requires fuel >= 2 && IsFrame(h, env)
    ensures var r := Eval(fuel, Pair(Identifier("DEFINE"), Pair(Identifier(x), Pair(e, rest))), env, h);
            r.Done? && r.value == Nil && Get(r.heap, env, x) == Some(e) &&
            forall g, y :: y != x ==> Get(r.heap, g, y) == Get(h, g, y)
  {
    CallUnfold(fuel, "DEFINE", Pair(Identifier(x), Pair(e, rest)), env, h);
    var h' := Set(h, env, x, e);
    GetAfterSet(h, env, x, e);
    forall g, y | y != x
      ensures Get(h', g, y) == Get(h, g, y)
    {
      GetAfterSetOther(h, env, x, e, g, y);
    }
  }

  /**
   * After `(DEFINE x (+ 1 2))`, the identifier `x` evaluates to the list
   * `(+ 1 2)`, not to 3.
   */
  lemma DefinedNameYieldsExpression(fuel: nat, x: string, e: Value, rest: Value, env: Ref, h: Heap)
    requires fuel >= 2 && IsFrame(h, env)
    ensures var r := Eval(fuel, Pair(Identifier("DEFINE"), Pair(Identifier(x), Pair(e, rest))), env, h);
            r.Done? && Eval(fuel, Identifier(x), env, r.heap) == Done(e, r.heap)
  {
    DefineBindsUnevaluated(fuel, x, e, rest, env, h);
  }

  /** A DEFINE whose second element is not an Identifier panics in the type assertion. */
  lemma DefineNeedsIdentifier(fuel: nat, target: Value, more: Value, env: Ref, h: Heap)
    requires fuel >= 2 && !target.Identifier?
    ensures Eval(fuel, Pair(Identifier("DEFINE"), Pair(target, more)), env, h) == Crash(NotAnIdentifier)
  {
    CallUnfold(fuel, "DEFINE", Pair(target, more), env, h);
  }

  /** `(QUOTE a b …)` answers the argument list `(a b …)` itself: `(QUOTE x)` is `(x)`, not `x`. */
  lemma QuoteReturnsArguments(fuel: nat, args: Value, env: Ref, h: Heap)
    requires fuel >= 2
    ensures Eval(fuel, Pair(Identifier("QUOTE"), args), env, h) == Done(args, h)
  {
    CallUnfold(fuel, "QUOTE", args, env, h);
  }

  /**
   * The reader turns `'x` into a list headed by the lower-case symbol
   * `quote`, while `Eval` only knows the upper-case `QUOTE`: unless the
   * program bound `quote` to a lambda, the quoted form is an unknown
   * procedure.
   */
  lemma QuoteSugarIsUnknownProc(fuel: nat, x: Value, env: Ref, h: Heap)
    requires fuel >= 2
    requires Get(h, env, "quote").None? || !Get(h, env, "quote").value.Lambda?
    ensures Eval(fuel, Pair(Identifier("quote"), Pair(x, Nil)), env, h) == Done(Error("Unkown proc quote"), h)
  {
    CallUnfold(fuel, "quote", Pair(x, Nil), env, h);
    assert "quote"[0] != "QUOTE"[0] && "quote"[0] != "DEFINE"[0];
    assert Lookup("quote").None?;
    assert "Unkown proc " + "quote" == "Unkown proc quote";
  }

  /**
   * A builtin name is applied as the builtin whatever the environment
   * binds it to: the arguments are evaluated, then the primitive runs on
   * their values.
   */
  lemma BuiltinBeforeEnvironment(fuel: nat, name: string, args: Value, env: Ref, h: Heap)
    requires fuel >= 1 && name != "QUOTE" && Lookup(name).Some? && args.Pair?
    ensures Eval(fuel + 1, Pair(Identifier(name), args), env, h) ==
            match EvalArgs(fuel, args, env, h)
            case Stopped(s) => s
            case Values(vs, h1) => Apply(Lookup(name).value, vs, h1)
  {
    CallUnfold(fuel + 1, name, args, env, h);
  }

  /** A builtin called with no argument list at all panics before looking at anything. */
  lemma BuiltinWithoutArguments(fuel: nat, name: string, env: Ref, h: Heap)
    requires fuel >= 1 && name != "QUOTE" && Lookup(name).Some?
    ensures Eval(fuel + 1, Pair(Identifier(name), Nil), env, h) == Crash(NotAPair)
  {
    CallUnfold(fuel + 1, name, Nil, env, h);
  }

  /**
   * A head symbol that is neither a special form, nor a builtin, nor
   * bound to a Lambda (unbound, or bound to any other object) is an
   * unknown procedure, and nothing is evaluated.
   */
  lemma UnknownProc(fuel: nat, name: string, args: Value, env: Ref, h: Heap)
    requires fuel >= 1 && name != "DEFINE" && name != "QUOTE" && Lookup(name).None?
    requires Get(h, env, name).None? || !Get(h, env, name).value.Lambda?
    ensures Eval(fuel + 1, Pair(Identifier(name), args), env, h) == Done(Error("Unkown proc " + name), h)
  {
    CallUnfold(fuel + 1, name, args, env, h);
  }

  /** The first argument that evaluates to an Error is the answer; what follows is not evaluated. */
  lemma ErrorStopsArguments(fuel: nat, x: Value, rest: Value, env: Ref, h: Heap, m: string, h1: Heap)
    requires Eval(fuel, x, env, h) == Done(Error(m), h1)
    ensures EvalArgs(fuel, Pair(x, rest), env, h) == Stopped(Done(Error(m), h1))
  {
  }

  /** Every argument before the stop is evaluated, each from the heap its predecessor left. */
  lemma {:induction false} ArgumentsInOrder(fuel: nat, x: Value, rest: Value, env: Ref, h: Heap)
    requires rest.Pair?
    requires Eval(fuel, x, env, h).Done? && !Eval(fuel, x, env, h).value.Error?
    ensures var first := Eval(fuel, x, env, h);
            EvalArgs(fuel, Pair(x, rest), env, h) == Prepend([first.value], EvalArgs(fuel, rest, env, first.heap))
  {
  }

  /**
   * A Lambda in head position checks arity: when every argument
   * evaluates, a count different from the parameter count is an Error.
   */
  lemma AnonymousArityMismatch(fuel: nat, ref: Ref, params: seq<string>, body: Value, args: Value, env: Ref, h: Heap)
    requires args.Pair? && ListLength(args) != |params|
    requires EvalArgs(fuel, args, env, SetEnv(h, ref, env)).Values?
    ensures Eval(fuel + 1, Pair(Lambda(ref, params, body), args), env, h) ==
            Done(Error(ArityMismatch), EvalArgs(fuel, args, env, SetEnv(h, ref, env)).heap)
  {
  }

  /**
   * A Lambda in head position with no arguments takes the environment and
   * is applied to no arguments at all; its arity is not checked, so a
   * Lambda with parameters panics binding the first of them.
   */
  lemma AnonymousLambdaNoArguments(fuel: nat, ref: Ref, params: seq<string>, body: Value, env: Ref, h: Heap)
    ensures Eval(fuel + 1, Pair(Lambda(ref, params, body), Nil), env, h) ==
            ApplyFunction(fuel, Lambda(ref, params, body), [], SetEnv(h, ref, env))
    ensures |params| > 0 ==> Eval(fuel + 1, Pair(Lambda(ref, params, body), Nil), env, h) == Crash(IndexOutOfRange)
  {
    var lam := Lambda(ref, params, body);
    var h1 := SetEnv(h, ref, env);
    assert Eval(fuel + 1, Pair(lam, Nil), env, h) == EvalPair(fuel, Pair(lam, Nil), env, h);
    if |params| > 0 {
      assert ExtendEnv(lam, [], h1).Fault?;
    }
  }

  /**
   * A Lambda found in the environment does not check arity: called with
   * no arguments while it has parameters, binding the first parameter
   * indexes past the end of the empty argument slice and panics.
   */
  lemma NamedLambdaTooFewArguments(fuel: nat, name: string, ref: Ref, params: seq<string>, body: Value, env: Ref, h: Heap)
    requires fuel >= 1 && name != "DEFINE" && name != "QUOTE" && Lookup(name).None?
    requires Get(h, env, name) == Some(Lambda(ref, params, body)) && |params| > 0
    ensures Eval(fuel + 1, Pair(Identifier(name), Nil), env, h) == Crash(IndexOutOfRange)
  {
    CallUnfold(fuel + 1, name, Nil, env, h);
  }

  /** Parameters `i…` of distinct names are bound positionally; every other name keeps its binding. */
  lemma {:induction false} BindParamsBinds(h: Heap, f: Ref, params: seq<string>, args: seq<Value>, i: nat)
    requires i <= |params| <= |args| && IsFrame(h, f)
    requires forall a, b :: i <= a < b < |params| ==> params[a] != params[b]
    ensures BindParams(h, f, params, args, i).Ok?
    ensures forall k :: i <= k < |params| ==> Get(BindParams(h, f, params, args, i).value, f, params[k]) == Some(args[k])
    ensures forall n :: n !in params[i..] ==> Get(BindParams(h, f, params, args, i).value, f, n) == Get(h, f, n)
    decreases |params| - i
  {
    if i < |params| {
      var h1 := Set(h, f, params[i], args[i]);
      var r := BindParams(h1, f, params, args, i + 1).value;
      assert BindParams(h, f, params, args, i).value == r;
      BindParamsBinds(h1, f, params, args, i + 1);
      GetAfterSet(h, f, params[i], args[i]);
      assert params[i] !in params[i + 1..];
      forall n | n !in params[i..]
        ensures Get(r, f, n) == Get(h, f, n)
      {
        assert n !in params[i + 1..] && n != params[i];
        GetAfterSetOther(h, f, params[i], args[i], f, n);
      }
    }
  }

  /**
   * Application frame: a fresh frame enclosed by the lambda's `Env`, in
   * which parameter `k` is bound to argument `k`; any other name is
   * looked up in `Env`.
   */
  lemma ExtendEnvBinds(lam: Value, args: seq<Value>, h: Heap)
    requires lam.Lambda? && |lam.params| <= |args|
    requires forall a, b :: 0 <= a < b < |lam.params| ==> lam.params[a] != lam.params[b]
    ensures var r := ExtendEnv(lam, args, h);
            r.Ok? &&
            (forall k :: 0 <= k < |lam.params| ==> Get(r.value.1, r.value.0, lam.params[k]) == Some(args[k])) &&
            (forall n, o :: n !in lam.params && EnvAt(h, lam.ref) == Some(o) && o < |h.cells| ==>
               Get(r.value.1, r.value.0, n) == Get(h, o, n))
  {
    var (f, h1) := NewEnclosed(h, EnvAt(h, lam.ref));
    BindParamsBinds(h1, f, lam.params, args, 0);
    assert lam.params[0..] == lam.params;
    forall n, o | n !in lam.params && EnvAt(h, lam.ref) == Some(o) && o < |h.cells|
      ensures Get(h1, f, n) == Get(h, o, n)
    {
      GetInNewFrame(h, o, n);
    }
  }

  /**
   * `((lambda (x) x) e)`: the value of the argument comes back out of
   * the application frame.
   */
  lemma IdentityApplication(fuel: nat, ref: Ref, x: string, arg: Value, env: Ref, h: Heap)
    requires fuel >= 2
    requires Eval(fuel - 1, arg, env, SetEnv(h, ref, env)).Done?
    requires !Eval(fuel - 1, arg, env, SetEnv(h, ref, env)).value.Error?
    ensures var r := Eval(fuel, Pair(Lambda(ref, [x], Identifier(x)), Pair(arg, Nil)), env, h);
            r.Done? && r.value == Eval(fuel - 1, arg, env, SetEnv(h, ref, env)).value
  {
    var lam := Lambda(ref, [x], Identifier(x));
    var a := Eval(fuel - 1, arg, env, SetEnv(h, ref, env));
    ApplyLambdaNode(fuel, lam, arg, env, h);
    ApplyIdentity(fuel - 1, lam, a.value, a.heap);
  }

  /** A Lambda applied to one argument: the argument is evaluated after the lambda captures `env`, then applied. */
  lemma ApplyLambdaNode(fuel: nat, lam: Value, arg: Value, env: Ref, h: Heap)
    requires fuel >= 2 && lam.Lambda? && |lam.params| == 1
    requires Eval(fuel - 1, arg, env, SetEnv(h, lam.ref, env)).Done?
    requires !Eval(fuel - 1, arg, env, SetEnv(h, lam.ref, env)).value.Error?
    ensures var a := Eval(fuel - 1, arg, env, SetEnv(h, lam.ref, env));
            Eval(fuel, Pair(lam, Pair(arg, Nil)), env, h) == ApplyFunction(fuel - 1, lam, [a.value], a.heap)
  {
    var a := Eval(fuel - 1, arg, env, SetEnv(h, lam.ref, env));
    var node := Pair(lam, Pair(arg, Nil));
    assert Eval(fuel, node, env, h) == EvalPair(fuel - 1, node, env, h);
    assert EvalArgs(fuel - 1, Pair(arg, Nil), env, SetEnv(h, lam.ref, env)) == Values([a.value], a.heap);
  }

  /** The identity lambda gives back its argument. */
  lemma ApplyIdentity(fuel: nat, lam: Value, v: Value, h: Heap)
    requires fuel >= 1 && lam.Lambda? && |lam.params| == 1 && lam.body == Identifier(lam.params[0])
    ensures var r := ApplyFunction(fuel, lam, [v], h);
            r.Done? && r.value == v
  {
    ExtendEnvBinds(lam, [v], h);
    var e := ExtendEnv(lam, [v], h);
    assert Get(e.value.1, e.value.0, lam.params[0]) == Some(v);
    assert ApplyFunction(fuel, lam, [v], h) == EvolvesAfter(h, e.value.1, Eval(fuel, lam.body, e.value.0, e.value.1));
  }

  /**
   * Dynamic scope: a Lambda called by name has its `Env` overwritten with
   * the caller's environment, so a free name in its body is looked up
   * where the call happens, not where the lambda was written.
   */
  lemma NamedCallSeesCallerScope(fuel: nat, name: string, ref: Ref, y: string, env: Ref, h: Heap)
    requires fuel >= 1 && name != "DEFINE" && name != "QUOTE" && Lookup(name).None?
    requires ref < |h.cells| && h.cells[ref].LambdaCell? && env < |h.cells|
    requires Get(h, env, name) == Some(Lambda(ref, [], Identifier(y)))
    ensures var r := Eval(fuel + 1, Pair(Identifier(name), Nil), env, h);
            r.Done? && r.value == (if Get(h, env, y).Some? then Get(h, env, y).value else Error("Unkown identifier " + y))
  {
    CallUnfold(fuel + 1, name, Nil, env, h);
    var lam := Lambda(ref, [], Identifier(y));
    var h2 := SetEnv(h, ref, env);
    assert EnvAt(h2, ref) == Some(env);
    ExtendEnvBinds(lam, [], h2);
    var e := ExtendEnv(lam, [], h2);
    assert Get(e.value.1, e.value.0, y) == Get(h2, env, y);
    SetEnvKeepsLookups(h, ref, env, env, y);
    assert EvalCall(fuel, name, Nil, env, h) == ApplyFunction(fuel, lam, [], h2);
    assert ApplyFunction(fuel, lam, [], h2) == Eval(fuel, Identifier(y), e.value.0, e.value.1);
  }

  /** Overwriting a Lambda's `Env` changes no binding. */
  lemma {:induction false} SetEnvKeepsLookups(h: Heap, r: Ref, env: Ref, g: Ref, y: string)
    ensures Get(SetEnv(h, r, env), g, y) == Get(h, g, y)
    decreases g
  {
    var h' := SetEnv(h, r, env);
    if g < |h.cells| {
      assert h'.cells[g].FrameCell? <==> h.cells[g].FrameCell?;
      if h.cells[g].FrameCell? {
        assert h'.cells[g] == h.cells[g];
        var c := h.cells[g];
        if y !in c.vars && c.outer.Some? && c.outer.value < g {
          SetEnvKeepsLookups(h, r, env, c.outer.value, y);
        }
      }
    }
  }
}
