/**
 * What `eval` of take-three.go and eval.go does with each form: values
 * evaluate to themselves, `define` binds the value of its body, a lambda
 * keeps the environment it was made in (lexical scope), `begin` builds a
 * Begin without evaluating it, and the operators of eval.go fold into a
 * NEW Integer or compare every later operand with the first one.
 */
module SplitEvalProps {
  import opened Common
  import opened GoText
  import opened Objects
  import opened Env
  import opened Builtins
  import opened BuiltinProps
  import Interpreter
  import InterpreterProps
  import opened Splitting
  import opened SplitEval

  /** The objects `eval` hands back unchanged. */
  predicate SelfEvaluating(v: Value)
  {
    v.Str? || v.Boolean? || v.Char? || v.Integer? || v.Float?
  }

  /** The list `(head a0 a1 …)`. */
  function Call(head: string, args: seq<Value>): Value
  {
    Pair(Identifier(head), Chain(args, Nil))
  }

  /** A head name that `eval` treats as a form of its own rather than a call. */
  predicate Special(rev: Revision, name: string)
  {
    name == "begin" || name == "define" || name == "lambda" ||
    (rev == Final && (name == "display" || name == "quote" || MathOp(name).Some?))
  }

  // ---------------------------------------------------------------------
  // Lists

  lemma {:induction false} ChainIsProper(xs: seq<Value>)
    requires xs != []
    ensures Proper(Chain(xs, Nil))
    decreases |xs|
  {
    if |xs| > 1 {
      ChainIsProper(xs[1..]);
    }
  }

  lemma {:induction false} ChainInjective(a: seq<Value>, b: seq<Value>)
    requires Chain(a, Nil) == Chain(b, Nil)
    ensures a == b
    decreases |a|
  {
    if a != [] {
      assert b != [];
      ChainInjective(a[1..], b[1..]);
      assert a == [a[0]] + a[1..] && b == [b[0]] + b[1..];
    } else {
      assert b == [];
    }
  }

  /** The `begin` loop reads back exactly the elements of a written-out list. */
  lemma BeginBodyOfList(xs: seq<Value>)
    requires xs != []
    ensures BeginBody(Chain(xs, Nil)) == Ok(xs)
  {
    ChainIsProper(xs);
    ChainInjective(BeginBody(Chain(xs, Nil)).value, xs);
  }

  /** The parameter loop reads back the names of a list of Identifiers. */
  lemma {:induction false} ParamsOfSymbols(names: seq<string>)
    requires names != []
    ensures Chain(Symbols(names), Nil).Pair?
    ensures ParamNames(Chain(Symbols(names), Nil)) == Ok(names)
    decreases |names|
  {
    var c := Chain(Symbols(names), Nil);
    assert Symbols(names)[1..] == Symbols(names[1..]);
    assert c == Pair(Identifier(names[0]), Chain(Symbols(names[1..]), Nil));
    if |names| == 1 {
      assert names[1..] == [] && Symbols(names[1..]) == [];
      assert names == [names[0]];
    } else {
      ParamsOfSymbols(names[1..]);
      assert [names[0]] + names[1..] == names;
    }
  }

  lemma FormUnfold(rev: Revision, fuel: nat, name: string, cdr: Value, env: Ref, h: Heap)
    requires fuel > 0
    ensures Eval(rev, fuel, Pair(Identifier(name), cdr), env, h) == EvalForm(rev, fuel - 1, name, cdr, env, h)
  {
  }

  lemma CallUnfold(head: string, args: seq<Value>)
    ensures |args| == 1 ==> Call(head, args) == Pair(Identifier(head), Pair(args[0], Nil))
    ensures |args| == 2 ==> Call(head, args) == Pair(Identifier(head), Pair(args[0], Pair(args[1], Nil)))
  {
    if |args| == 1 {
      assert args[1..] == [];
      assert Chain(args, Nil) == Pair(args[0], Chain([], Nil));
    } else if |args| == 2 {
      assert args[1..][1..] == [];
      assert Chain(args[1..], Nil) == Pair(args[1], Nil);
    }
  }

  // ---------------------------------------------------------------------
  // Atoms and sequences

  /** Strings, booleans, characters, integers and floats evaluate to themselves, with no allocation. */
  lemma SelfEvaluatingValues(rev: Revision, fuel: nat, v: Value, env: Ref, h: Heap)
    requires fuel > 0 && SelfEvaluating(v)
    ensures Eval(rev, fuel, v, env, h) == Done(v, h)
  {
  }

  /**
   * An identifier is its binding in the environment chain; an unbound one
   * is the Error "unkown identifier <name>" (spelled as in both files).
   */
  lemma IdentifierLookup(rev: Revision, fuel: nat, name: string, env: Ref, h: Heap)
    requires fuel > 0
    ensures Get(h, env, name).Some? ==> Eval(rev, fuel, Identifier(name), env, h) == Done(Get(h, env, name).value, h)
    ensures Get(h, env, name).None? ==> Eval(rev, fuel, Identifier(name), env, h) == Done(Error("unkown identifier " + name), h)
  {
  }

  /** Evaluating a sequence of self-evaluating expressions answers the last one, or `last` when there are none. */
  lemma {:induction false} SequenceOfValues(rev: Revision, fuel: nat, exprs: seq<Value>, last: Value, env: Ref, h: Heap)
    requires fuel > 0
    requires forall i :: 0 <= i < |exprs| ==> SelfEvaluating(exprs[i])
    ensures EvalSeq(rev, fuel, exprs, last, env, h) == Done(if exprs == [] then last else exprs[|exprs| - 1], h)
    decreases |exprs|
  {
    if exprs != [] {
      SequenceOfValues(rev, fuel, exprs[1..], exprs[0], env, h);
    }
  }

  /** A Begin answers the value of its last expression, and nil when it is empty. */
  lemma BeginAnswersLast(rev: Revision, fuel: nat, exprs: seq<Value>, env: Ref, h: Heap)
    requires fuel >= 2
    requires forall i :: 0 <= i < |exprs| ==> SelfEvaluating(exprs[i])
    ensures Eval(rev, fuel, Begin(exprs), env, h) == Done(if exprs == [] then Nil else exprs[|exprs| - 1], h)
  {
    SequenceOfValues(rev, fuel - 1, exprs, Nil, env, h);
  }

  /** Evaluating an Error object panics with its message (an unclosed `#(` parses to one). */
  lemma ErrorObjectPanics(rev: Revision, fuel: nat, m: string, env: Ref, h: Heap)
    requires fuel > 0
    ensures Eval(rev, fuel, Error(m), env, h) == Crash(m)
  {
  }

  /**
   * A list whose head is not an Identifier is answered as it is: even a
   * lambda expression in head position is never applied.
   */
  lemma OtherHeadIsData(rev: Revision, fuel: nat, car: Value, cdr: Value, env: Ref, h: Heap)
    requires fuel > 0 && !car.Identifier?
    ensures Eval(rev, fuel, Pair(car, cdr), env, h) == Done(Pair(car, cdr), h)
  {
  }

  // ---------------------------------------------------------------------
  // Forms

  /** `(begin e1 … en)` is the Begin of the UNEVALUATED expressions. */
  lemma BeginFormIsUnevaluated(rev: Revision, fuel: nat, xs: seq<Value>, env: Ref, h: Heap)
    requires fuel > 0 && xs != []
    ensures Eval(rev, fuel, Call("begin", xs), env, h) == Done(Begin(xs), h)
  {
    BeginBodyOfList(xs);
  }

  /** `(begin)` panics: the form needs a list after `begin`. */
  lemma EmptyBeginPanics(rev: Revision, fuel: nat, env: Ref, h: Heap)
    requires fuel > 0
    ensures Eval(rev, fuel, Call("begin", []), env, h) == Crash(NotAPair)
  {
  }

  /**
   * `(define x e)` binds x to the VALUE of e in the current frame and
   * answers nil.
   */
  lemma DefineBindsValue(rev: Revision, fuel: nat, x: string, e: Value, env: Ref, h: Heap)
    requires fuel > 0 && Eval(rev, fuel - 1, e, env, h).Done?
    ensures var v := Eval(rev, fuel - 1, e, env, h);
            var r := Eval(rev, fuel, Call("define", [Identifier(x), e]), env, h);
            r == Done(Nil, Set(v.heap, env, x, v.value)) &&
            (IsFrame(v.heap, env) ==> Get(r.heap, env, x) == Some(v.value))
  {
    var v := Eval(rev, fuel - 1, e, env, h);
    var cdr := Pair(Identifier(x), Pair(e, Nil));
    CallUnfold("define", [Identifier(x), e]);
    FormUnfold(rev, fuel, "define", cdr, env, h);
    assert EvalForm(rev, fuel - 1, "define", cdr, env, h) == Done(Nil, Set(v.heap, env, x, v.value));
    if IsFrame(v.heap, env) {
      GetAfterSet(v.heap, env, x, v.value);
    }
  }

  /** `define` of anything but an Identifier panics before the body is evaluated. */
  lemma DefineNeedsName(rev: Revision, fuel: nat, target: Value, more: Value, env: Ref, h: Heap)
    requires fuel > 0 && !target.Identifier?
    ensures Eval(rev, fuel, Pair(Identifier("define"), Pair(target, more)), env, h) == Crash(Interpreter.NotAnIdentifier)
  {
  }

  /**
   * `(lambda (p1 … pn) body)`: the body is evaluated once, must give a
   * Begin, and the new Lambda keeps the parameter names, that Begin and the
   * environment the form was evaluated in.
   */
  lemma LambdaClosesOverEnv(rev: Revision, fuel: nat, names: seq<string>, body: Value, env: Ref, h: Heap)
    requires fuel > 0 && names != []
    requires Eval(rev, fuel - 1, body, env, h).Done? && Eval(rev, fuel - 1, body, env, h).value.Begin?
    ensures var b := Eval(rev, fuel - 1, body, env, h);
            var r := Eval(rev, fuel, Call("lambda", [Chain(Symbols(names), Nil), body]), env, h);
            r == Done(Lambda(|b.heap.cells|, names, b.value), Alloc(b.heap, LambdaCell(Some(env))).1) &&
            EnvAt(r.heap, |b.heap.cells|) == Some(env)
  {
    ParamsOfSymbols(names);
    var params := Chain(Symbols(names), Nil);
    CallUnfold("lambda", [params, body]);
    FormUnfold(rev, fuel, "lambda", Pair(params, Pair(body, Nil)), env, h);
  }

  /** A lambda body that does not evaluate to a Begin panics. */
  lemma LambdaNeedsBegin(rev: Revision, fuel: nat, names: seq<string>, body: Value, env: Ref, h: Heap)
    requires fuel > 0 && names != []
    requires Eval(rev, fuel - 1, body, env, h).Done? && !Eval(rev, fuel - 1, body, env, h).value.Begin?
    ensures Eval(rev, fuel, Call("lambda", [Chain(Symbols(names), Nil), body]), env, h) == Crash(NotABegin)
  {
    ParamsOfSymbols(names);
    var params := Chain(Symbols(names), Nil);
    CallUnfold("lambda", [params, body]);
    FormUnfold(rev, fuel, "lambda", Pair(params, Pair(body, Nil)), env, h);
  }

  /**
   * A call by name with one string argument: the argument list is
   * evaluated (and, in take-three.go, printed), then the bound value must be
   * a lambda, which is applied.
   */
  lemma CallWithString(rev: Revision, fuel: nat, f: string, v: Value, s: string, env: Ref, h: Heap)
    requires fuel >= 2 && !Special(rev, f) && Get(h, env, f) == Some(v)
    ensures Eval(rev, fuel, Call(f, [Str(s)]), env, h) ==
            if v.Lambda? then ApplyFunction(rev, fuel - 1, v, [Str(s)], h) else Crash(NotALambda)
  {
    var cdr := Pair(Str(s), Nil);
    CallUnfold(f, [Str(s)]);
    FormUnfold(rev, fuel, f, cdr, env, h);
    assert Eval(rev, fuel - 1, Str(s), env, h) == Done(Str(s), h);
    assert EvalArgs(rev, fuel - 1, cdr, env, h) == Interpreter.Values([Str(s)], h);
    assert LastPair(cdr) == cdr;
    assert Inspect(Str(s), h) == Text(s);
    assert Inspect(cdr, h) == Cat(Text("("), Cat(Text(s), Text(")")));
  }

  /**
   * Lexical scope: a lambda runs in a frame enclosed by the environment it
   * was MADE in, so a free name in its body has the value bound there.
   */
  lemma ApplySeesDefiningScope(rev: Revision, fuel: nat, ref: Ref, x: string, y: string,
                               arg: Value, def: Ref, w: Value, h: Heap)
    requires fuel >= 2
    requires EnvAt(h, ref) == Some(def) && def < |h.cells|
    requires x != y && Get(h, def, y) == Some(w)
    ensures var r := ApplyFunction(rev, fuel, Lambda(ref, [x], Begin([Identifier(y)])), [arg], h);
            r.Done? && r.value == w
  {
    var lam := Lambda(ref, [x], Begin([Identifier(y)]));
    InterpreterProps.ExtendEnvBinds(lam, [arg], h);
    var e := Interpreter.ExtendEnv(lam, [arg], h);
    var frame, h1 := e.value.0, e.value.1;
    assert Get(h1, frame, y) == Some(w);
    assert Eval(rev, fuel - 1, Identifier(y), frame, h1) == Done(w, h1);
    assert EvalSeq(rev, fuel - 1, [Identifier(y)], Nil, frame, h1) == Done(w, h1);
    assert Eval(rev, fuel, Begin([Identifier(y)]), frame, h1) == Done(w, h1);
  }

  /**
   * The same seen from a call by name: whatever the caller's environment
   * binds, the free name y comes from the lambda's own environment.
   */
  lemma CallSeesDefiningScope(rev: Revision, fuel: nat, f: string, ref: Ref, x: string, y: string,
                              s: string, def: Ref, w: Value, env: Ref, h: Heap)
    requires fuel >= 3 && !Special(rev, f)
    requires Get(h, env, f) == Some(Lambda(ref, [x], Begin([Identifier(y)])))
    requires EnvAt(h, ref) == Some(def) && def < |h.cells|
    requires x != y && Get(h, def, y) == Some(w)
    ensures var r := Eval(rev, fuel, Call(f, [Str(s)]), env, h);
            r.Done? && r.value == w
  {
    CallWithString(rev, fuel, f, Lambda(ref, [x], Begin([Identifier(y)])), s, env, h);
    ApplySeesDefiningScope(rev, fuel - 1, ref, x, y, Str(s), def, w, h);
  }

  /** Calling a lambda with fewer arguments than parameters indexes past the arguments and panics. */
  lemma TooFewArgumentsPanics(rev: Revision, fuel: nat, f: string, ref: Ref, x1: string, x2: string,
                              body: Value, s: string, env: Ref, h: Heap)
    requires fuel >= 2 && !Special(rev, f)
    requires Get(h, env, f) == Some(Lambda(ref, [x1, x2], body))
    ensures Eval(rev, fuel, Call(f, [Str(s)]), env, h) == Crash(IndexOutOfRange)
  {
    CallWithString(rev, fuel, f, Lambda(ref, [x1, x2], body), s, env, h);
  }

  /** Calling a name bound to something other than a lambda panics once the arguments are evaluated. */
  lemma CallOfNonLambdaPanics(rev: Revision, fuel: nat, f: string, v: Value, s: string, env: Ref, h: Heap)
    requires fuel >= 2 && !Special(rev, f) && !v.Lambda?
    requires Get(h, env, f) == Some(v)
    ensures Eval(rev, fuel, Call(f, [Str(s)]), env, h) == Crash(NotALambda)
  {
    CallWithString(rev, fuel, f, v, s, env, h);
  }

  /**
   * An unbound name in head position is an Error whose text differs
   * between the files: take-three.go writes the name, eval.go the Go
   * syntax of the Identifier object, with the name quoted; a name without
   * quotes, backslashes or control characters is quoted as it is.
   */
  lemma UnknownHeadMessages(rev: Revision, fuel: nat, name: string, args: Value, env: Ref, h: Heap)
    requires fuel > 0 && !Special(rev, name) && Get(h, env, name).None?
    ensures Eval(rev, fuel, Pair(Identifier(name), args), env, h) == Done(Error(UnknownHead(rev, name)), h)
    ensures rev == TakeThree ==> UnknownHead(rev, name) == "unknown identifier " + name
    ensures rev == Final ==> UnknownHead(rev, name) == "unknown identifier &main.Identifier{Value:" + Quote(name) + "}"
    ensures rev == Final && PlainName(name) ==>
              UnknownHead(rev, name) == "unknown identifier &main.Identifier{Value:\"" + name + "\"}"
  {
    UnknownHeadText(rev, name);
  }

  /** A name that `strconv.Quote` leaves as it is. */
  predicate PlainName(name: string)
  {
    forall k :: 0 <= k < |name| ==> ' ' <= name[k] <= '~' && name[k] != '"' && name[k] != '\\'
  }

  lemma UnknownHeadText(rev: Revision, name: string)
    ensures rev == TakeThree ==> UnknownHead(rev, name) == "unknown identifier " + name
    ensures rev == Final ==> UnknownHead(rev, name) == "unknown identifier &main.Identifier{Value:" + Quote(name) + "}"
    ensures rev == Final && PlainName(name) ==>
              UnknownHead(rev, name) == "unknown identifier &main.Identifier{Value:\"" + name + "\"}"
  {
    if rev == Final {
      FinalHeadText(name);
      if PlainName(name) {
        PlainQuote(name);
      }
    }
  }

  lemma FinalHeadText(name: string)
    ensures UnknownHead(Final, name) == "unknown identifier &main.Identifier{Value:" + Quote(name) + "}"
  {
    assert UnknownPrefix + IdentifierSyntax == "unknown identifier &main.Identifier{Value:";
  }

  lemma PlainQuote(name: string)
    requires PlainName(name)
    ensures "unknown identifier &main.Identifier{Value:" + Quote(name) + "}" ==
            "unknown identifier &main.Identifier{Value:\"" + name + "\"}"
  {
    EscapedPlain(name);
  }

  /** take-three.go has no operators: `(+ …)` with `+` unbound is the unknown-identifier Error. */
  lemma NoOperatorsInTakeThree(fuel: nat, name: string, args: Value, env: Ref, h: Heap)
    requires fuel > 0 && MathOp(name).Some? && Get(h, env, name).None?
    ensures Eval(TakeThree, fuel, Pair(Identifier(name), args), env, h) == Done(Error("unknown identifier " + name), h)
  {
  }

  /** `(quote x …)` in eval.go answers x unevaluated; `(quote ())`-like nil becomes an empty pair. */
  lemma QuoteAnswersDatum(fuel: nat, x: Value, more: Value, env: Ref, h: Heap)
    requires fuel > 0
    ensures Eval(Final, fuel, Pair(Identifier("quote"), Pair(x, more)), env, h) ==
            Done(if x == Nil then Pair(Nil, Nil) else x, h)
  {
  }

  /** `(display x)` answers nil once x prints. */
  lemma DisplayAnswersNil(fuel: nat, x: Value, env: Ref, h: Heap)
    requires fuel >= 2 && SelfEvaluating(x) && !x.Float?
    ensures Eval(Final, fuel, Call("display", [x]), env, h) == Done(Nil, h)
  {
    CallUnfold("display", [x]);
    FormUnfold(Final, fuel, "display", Pair(x, Nil), env, h);
    assert Eval(Final, fuel - 1, x, env, h) == Done(x, h);
  }

  /** `(display (define y e))` panics: `define` answers nil, which has no `String()`. */
  lemma DisplayOfDefinitionPanics(fuel: nat, y: string, e: Value, env: Ref, h: Heap)
    requires fuel >= 3 && Eval(Final, fuel - 2, e, env, h).Done?
    ensures Eval(Final, fuel, Call("display", [Call("define", [Identifier(y), e])]), env, h) == Crash(NilDeref)
  {
    DefineBindsValue(Final, fuel - 1, y, e, env, h);
  }

  // ---------------------------------------------------------------------
  // Operators of eval.go

  /**
   * The Integer loop over Integer operands is the left fold of the operator
   * over their values, answered as a NEW Integer: no operand is written.
   */
  lemma {:induction false} IntFoldIsLeftFold(rev: Revision, fuel: nat, op: Arith, val: int, xs: seq<Value>, env: Ref, h: Heap)
    requires fuel > 0 && xs != [] && AllIntegers(xs)
    ensures IntFold(rev, fuel, Arithmetic(op), val, Chain(xs, Nil), env, h) ==
            (match FoldInts(op, val, IntValues(xs, h))
             case Ok(n) => Done(Integer(|h.cells|), Alloc(h, IntCell(n)).1)
             case Fault(m) => Crash(m))
    decreases |xs|
  {
    assert Chain(xs, Nil) == Pair(xs[0], Chain(xs[1..], Nil));
    var x := IntAt(h, xs[0].ref);
    assert IntValues(xs, h)[0] == x;
    assert IntValues(xs, h)[1..] == IntValues(xs[1..], h);
    match Combine(op, val, x)
    case Fault(m) =>
    case Ok(n) =>
      if |xs| > 1 {
        IntFoldIsLeftFold(rev, fuel, op, n, xs[1..], env, h);
      }
  }

  /**
   * The comparison loop over Integer operands answers whether the FIRST
   * operand stands in the relation to every later one; the later operands
   * are never compared with each other.
   */
  lemma {:induction false} IntFoldComparesWithFirst(rev: Revision, fuel: nat, c: Compare, val: int, xs: seq<Value>, env: Ref, h: Heap)
    requires fuel > 0 && xs != [] && AllIntegers(xs)
    ensures IntFold(rev, fuel, Comparison(c), val, Chain(xs, Nil), env, h) ==
            Done(Boolean(forall i :: 0 <= i < |xs| ==> Holds(c, val, IntAt(h, xs[i].ref))), h)
    decreases |xs|
  {
    assert Chain(xs, Nil) == Pair(xs[0], Chain(xs[1..], Nil));
    if Holds(c, val, IntAt(h, xs[0].ref)) && |xs| > 1 {
      IntFoldComparesWithFirst(rev, fuel, c, val, xs[1..], env, h);
      assert (forall i :: 0 <= i < |xs| ==> Holds(c, val, IntAt(h, xs[i].ref))) <==>
             (forall i :: 0 <= i < |xs[1..]| ==> Holds(c, val, IntAt(h, xs[1..][i].ref)));
    }
  }

  /** The operator form, with Integer operands, after its first operand. */
  lemma OperatorForm(fuel: nat, name: string, first: Value, xs: seq<Value>, env: Ref, h: Heap)
    requires fuel >= 2 && MathOp(name).Some? && first.Integer? && xs != [] && AllIntegers(xs)
    ensures Eval(Final, fuel, Call(name, [first] + xs), env, h) ==
            IntFold(Final, fuel - 1, MathOp(name).value, IntAt(h, first.ref), Chain(xs, Nil), env, h)
  {
    assert ([first] + xs)[0] == first && ([first] + xs)[1..] == xs;
    var cdr := Chain([first] + xs, Nil);
    assert cdr == Pair(first, Chain(xs, Nil));
    FormUnfold(Final, fuel, name, cdr, env, h);
    assert Eval(Final, fuel - 1, first, env, h) == Done(first, h);
  }

  /**
   * `(op a b …)` for `+ - * /` over Integers: the wrapping int64 left fold,
   * stopped by a division by zero, in a new Integer; the operands keep
   * their values.
   */
  lemma ArithmeticIsLeftFold(fuel: nat, name: string, first: Value, xs: seq<Value>, env: Ref, h: Heap)
    requires fuel >= 2 && MathOp(name).Some? && MathOp(name).value.Arithmetic?
    requires first.Integer? && xs != [] && AllIntegers(xs)
    ensures Eval(Final, fuel, Call(name, [first] + xs), env, h) ==
            (match FoldInts(MathOp(name).value.op, IntAt(h, first.ref), IntValues(xs, h))
             case Ok(n) => Done(Integer(|h.cells|), Heap(h.cells + [IntCell(n)]))
             case Fault(m) => Crash(m))
  {
    OperatorForm(fuel, name, first, xs, env, h);
    IntFoldIsLeftFold(Final, fuel - 1, MathOp(name).value.op, IntAt(h, first.ref), xs, env, h);
  }

  /** `(+ a b …)` over Integers is a new Integer holding the wrapped sum. */
  lemma AdditionIsWrappedSum(fuel: nat, first: Value, xs: seq<Value>, env: Ref, h: Heap)
    requires fuel >= 2 && first.Integer? && xs != [] && AllIntegers(xs) && IsInt64(IntAt(h, first.ref))
    ensures Eval(Final, fuel, Call("+", [first] + xs), env, h) ==
            Done(Integer(|h.cells|), Heap(h.cells + [IntCell(Wrap64(IntAt(h, first.ref) + Sum(IntValues(xs, h))))]))
  {
    ArithmeticIsLeftFold(fuel, "+", first, xs, env, h);
    AddFoldIsSum(IntAt(h, first.ref), IntValues(xs, h));
  }

  /** `(< a b …)` and the other comparisons over Integers test the first operand against each later one. */
  lemma ComparisonTestsFirst(fuel: nat, name: string, first: Value, xs: seq<Value>, env: Ref, h: Heap)
    requires fuel >= 2 && MathOp(name).Some? && MathOp(name).value.Comparison?
    requires first.Integer? && xs != [] && AllIntegers(xs)
    ensures Eval(Final, fuel, Call(name, [first] + xs), env, h) ==
            Done(Boolean(forall i :: 0 <= i < |xs| ==> Holds(MathOp(name).value.c, IntAt(h, first.ref), IntAt(h, xs[i].ref))), h)
  {
    OperatorForm(fuel, name, first, xs, env, h);
    IntFoldComparesWithFirst(Final, fuel - 1, MathOp(name).value.c, IntAt(h, first.ref), xs, env, h);
  }

  /** `(< 1 3 2)` is true: 1 is less than 3 and than 2, and 3 is never compared with 2. */
  lemma LessThanIsNotChained(env: Ref)
    ensures var h := Heap([IntCell(1), IntCell(3), IntCell(2)]);
            Eval(Final, 2, Call("<", [Integer(0), Integer(1), Integer(2)]), env, h) == Done(Boolean(true), h)
  {
    var h := Heap([IntCell(1), IntCell(3), IntCell(2)]);
    var xs := [Integer(1), Integer(2)];
    assert [Integer(0)] + xs == [Integer(0), Integer(1), Integer(2)];
    ComparisonTestsFirst(2, "<", Integer(0), xs, env, h);
    assert Holds(Lt, 1, IntAt(h, xs[0].ref)) && Holds(Lt, 1, IntAt(h, xs[1].ref));
  }

  /** An operator with a single operand panics: the loop takes `car` of nil. */
  lemma SingleOperandPanics(fuel: nat, name: string, x: Value, env: Ref, h: Heap)
    requires fuel >= 2 && MathOp(name).Some? && (x.Integer? || x.Float?)
    ensures Eval(Final, fuel, Call(name, [x]), env, h) == Crash(NotAPair)
  {
    CallUnfold(name, [x]);
    FormUnfold(Final, fuel, name, Pair(x, Nil), env, h);
    assert Eval(Final, fuel - 1, x, env, h) == Done(x, h);
    var op := MathOp(name).value;
    if x.Integer? {
      assert IntFold(Final, fuel - 1, op, IntAt(h, x.ref), Nil, env, h) == Crash(NotAPair);
    } else {
      assert FloatFold(Final, fuel - 1, op, Nil, env, h) == Crash(NotAPair);
    }
    assert MathsComparisons(Final, fuel - 1, name, Pair(x, Nil), env, h) == Crash(NotAPair);
    assert EvalForm(Final, fuel - 1, name, Pair(x, Nil), env, h) == MathsComparisons(Final, fuel - 1, name, Pair(x, Nil), env, h);
  }

  /** A first operand that is neither Integer nor Float gives the Error "unknown operator". */
  lemma NonNumberFirstOperand(fuel: nat, name: string, x: Value, more: Value, env: Ref, h: Heap)
    requires fuel >= 2 && MathOp(name).Some? && (x.Str? || x.Boolean? || x.Char?)
    ensures Eval(Final, fuel, Pair(Identifier(name), Pair(x, more)), env, h) == Done(Error("unknown operator " + name), h)
  {
    FormUnfold(Final, fuel, name, Pair(x, more), env, h);
    assert Eval(Final, fuel - 1, x, env, h) == Done(x, h);
  }

  /** A Float after an Integer first operand gives the Error "expecting an integer", and the reverse "expecting a float". */
  lemma MixedOperands(fuel: nat, name: string, i: Value, f: Value, env: Ref, h: Heap)
    requires fuel >= 2 && MathOp(name).Some? && i.Integer? && f.Float?
    ensures Eval(Final, fuel, Call(name, [i, f]), env, h) == Done(Error(ExpectingInteger), h)
    ensures Eval(Final, fuel, Call(name, [f, i]), env, h) == Done(Error(ExpectingFloat), h)
  {
    CallUnfold(name, [i, f]);
    CallUnfold(name, [f, i]);
    FormUnfold(Final, fuel, name, Pair(i, Pair(f, Nil)), env, h);
    FormUnfold(Final, fuel, name, Pair(f, Pair(i, Nil)), env, h);
    assert Eval(Final, fuel - 1, i, env, h) == Done(i, h);
    assert Eval(Final, fuel - 1, f, env, h) == Done(f, h);
    var p := MathOp(name).value;
    assert IntFold(Final, fuel - 1, p, IntAt(h, i.ref), Pair(f, Nil), env, h) == Done(Error(ExpectingInteger), h);
    assert FloatFold(Final, fuel - 1, p, Pair(i, Nil), env, h) == Done(Error(ExpectingFloat), h);
    assert EvalForm(Final, fuel - 1, name, Pair(i, Pair(f, Nil)), env, h) == MathsComparisons(Final, fuel - 1, name, Pair(i, Pair(f, Nil)), env, h);
    assert EvalForm(Final, fuel - 1, name, Pair(f, Pair(i, Nil)), env, h) == MathsComparisons(Final, fuel - 1, name, Pair(f, Pair(i, Nil)), env, h);
  }

  // ---------------------------------------------------------------------
  // Eval(code)

  /** eval.go answers nil for a program with no tokens, without allocating. */
  lemma EmptyProgramIsNil(fuel: nat, global: Ref, h: Heap)
    ensures Run(Final, fuel, "", global, h) == Done(Nil, h)
  {
    StripIsUncommented("");
    TokensShape(Final, "");
  }
}
