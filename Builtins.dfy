/**
 * The primitive table of builtins.go.  Every arithmetic primitive folds
 * its later arguments into its FIRST argument object, overwriting that
 * object's value, and returns that same object; every comparison tests
 * the first argument against each later one.  Integer values live in the
 * heap, so a first argument that also appears later is read back after
 * it has been overwritten, exactly as Go reads `intArg.Value` through the
 * shared pointer.
 */
module Builtins {
  import opened Common
  import opened GoText
  import opened Objects

  const IntegerExpected := "Expecting an Integer"
  const FloatExpected := "Expecting a Float"
  const DivideByZero := "runtime error: integer divide by zero"
  const NoArguments := "runtime error: index out of range [0] with length 0"
  const NotAString := "interface conversion: Object is not *String"

  datatype Arith = Add | Sub | Mul | Div
  datatype Compare = Lt | Le | Gt | Ge | Eq

  /** The entries of the `builtins` map. */
  datatype Primitive = Arithmetic(op: Arith) | Comparison(c: Compare) | QuoteString

  /** `builtins[name]`; `scopedBuiltins` is empty and has no entries at all. */
  function Lookup(name: string): (r: Option<Primitive>)
    ensures r.Some? <==> name in {"+", "-", "*", "/", "<", "<=", ">", ">=", "=", "QUOTE"}
  {
    if name == "+" then Some(Arithmetic(Add))
    else if name == "-" then Some(Arithmetic(Sub))
    else if name == "*" then Some(Arithmetic(Mul))
    else if name == "/" then Some(Arithmetic(Div))
    else if name == "<" then Some(Comparison(Lt))
    else if name == "<=" then Some(Comparison(Le))
    else if name == ">" then Some(Comparison(Gt))
    else if name == ">=" then Some(Comparison(Ge))
    else if name == "=" then Some(Comparison(Eq))
    else if name == "QUOTE" then Some(QuoteString)
    else None
  }

  /** `x op= y` on int64: wraps around, and an integer division by zero panics. */
  function Combine(op: Arith, x: int, y: int): (r: Outcome<int>)
    ensures r.Ok? ==> IsInt64(r.value)
    ensures r.Fault? <==> op == Div && y == 0
    ensures r.Fault? ==> r.msg == DivideByZero
  {
    match op
    case Add => Ok(Wrap64(x + y))
    case Sub => Ok(Wrap64(x - y))
    case Mul => Ok(Wrap64(x * y))
    case Div => if y == 0 then Fault(DivideByZero) else Ok(Wrap64(Quot(x, y)))
  }

  predicate Holds(c: Compare, x: int, y: int)
  {
    match c
    case Lt => x < y
    case Le => x <= y
    case Gt => x > y
    case Ge => x >= y
    case Eq => x == y
  }

  /**
   * The Integer branch of `+ - * /`: fold `rest` into the Integer at
   * `ref`, reading each argument's value when it is reached.  A
   * non-Integer stops the fold with an Error, keeping what was already
   * written.  Only the first argument's value ever changes.
   */
  function ArithFold(op: Arith, ref: Ref, rest: seq<Value>, h: Heap): (r: Step)
    ensures r.Done? || r.Crash?
    ensures r.Done? ==> (r.value == Integer(ref) || r.value == Error(IntegerExpected)) && IntWrite(h, r.heap, ref)
    ensures r.Crash? ==> op == Div && r.msg == DivideByZero
    decreases |rest|
  {
    if rest == [] then Done(Integer(ref), h)
    else if !rest[0].Integer? then Done(Error(IntegerExpected), h)
    else match Combine(op, IntAt(h, ref), IntAt(h, rest[0].ref))
      case Fault(m) => Crash(m)
      case Ok(n) => ArithFold(op, ref, rest[1..], SetInt(h, ref, n))
  }

  /**
   * The Integer branch of `< <= > >= =`: the first argument's value
   * against each later one; the first failing test answers FALSE without
   * looking further.  Nothing is written.
   */
  function CompareChain(c: Compare, first: int, rest: seq<Value>, h: Heap): (r: Step)
    ensures r.Done? && r.heap == h
    ensures r.value == Boolean(true) || r.value == Boolean(false) || r.value == Error(IntegerExpected)
    decreases |rest|
  {
    if rest == [] then Done(Boolean(true), h)
    else if !rest[0].Integer? then Done(Error(IntegerExpected), h)
    else if !Holds(c, first, IntAt(h, rest[0].ref)) then Done(Boolean(false), h)
    else CompareChain(c, first, rest[1..], h)
  }

  /**
   * The Float branch of `+ - * /`: float64 values are not part of this
   * model, so only its type errors and the one-argument case are known.
   */
  function FloatArith(first: Value, rest: seq<Value>, h: Heap): (r: Step)
    ensures r.Done? ==> r.heap == h
    ensures r.Done? <==> rest == [] || exists i :: 0 <= i < |rest| && !rest[i].Float?
  {
    if forall i :: 0 <= i < |rest| ==> rest[i].Float? then
      if rest == [] then Done(first, h) else Undetermined("float64 arithmetic")
    else Done(Error(FloatExpected), h)
  }

  /** The Float branch of the comparisons: decided without float64 values only when the first test is not reached. */
  function FloatCompare(rest: seq<Value>, h: Heap): Step
  {
    if rest == [] then Done(Boolean(true), h)
    else if !rest[0].Float? then Done(Error(FloatExpected), h)
    else Undetermined("float64 comparison")
  }

  /** The Error for a first argument that is neither an Integer nor a Float; printing it may itself panic. */
  function Unexpected(first: Value, h: Heap): Step
  {
    match Inspect(first, h)
    case Text(t) => Done(Error("Unexpected " + t + " expecting one of Integer or Float"), h)
    case Panic(m) => Crash(m)
    case Unmodelled(w) => Undetermined(w)
  }

  /** `builtin.Fn(args...)`. */
  function Apply(p: Primitive, args: seq<Value>, h: Heap): (r: Step)
    ensures !r.OutOfFuel?
    ensures args == [] ==> r == Crash(NoArguments)
  {
    if args == [] then Crash(NoArguments)
    else
      match p
      case QuoteString => if args[0].Str? then Done(args[0], h) else Crash(NotAString)
      case Arithmetic(op) =>
        if args[0].Integer? then ArithFold(op, args[0].ref, args[1..], h)
        else if args[0].Float? then FloatArith(args[0], args[1..], h)
        else Unexpected(args[0], h)
      case Comparison(c) =>
        if args[0].Integer? then CompareChain(c, IntAt(h, args[0].ref), args[1..], h)
        else if args[0].Float? then FloatCompare(args[1..], h)
        else Unexpected(args[0], h)
  }

  // ---------------------------------------------------------------------
  // The loops of the Go primitives

  /** `for _, rightSide := range args[1:]` with `obj.Value op= intArg.Value`. */
  method ArithLoop(op: Arith, args: seq<Value>, h: Heap) returns (r: Step)
    requires |args| >= 1 && args[0].Integer?
    ensures r == ArithFold(op, args[0].ref, args[1..], h)
  {
    var obj := args[0].ref;
    var heap := h;
    var i := 1;
    while i < |args|
      invariant 1 <= i <= |args|
      invariant ArithFold(op, obj, args[i..], heap) == ArithFold(op, obj, args[1..], h)
    {
      assert args[i..][1..] == args[i + 1..];
      if !args[i].Integer? {
        return Done(Error(IntegerExpected), heap);
      }
      var combined := Combine(op, IntAt(heap, obj), IntAt(heap, args[i].ref));
      if combined.Fault? {
        return Crash(combined.msg);
      }
      heap := SetInt(heap, obj, combined.value);
      i := i + 1;
    }
    return Done(Integer(obj), heap);
  }

  /** The comparison loop: `if !(obj.Value < intArg.Value) { return FALSE }`. */
  method CompareLoop(c: Compare, args: seq<Value>, h: Heap) returns (r: Step)
    requires |args| >= 1 && args[0].Integer?
    ensures r == CompareChain(c, IntAt(h, args[0].ref), args[1..], h)
  {
    var first := IntAt(h, args[0].ref);
    var i := 1;
    while i < |args|
      invariant 1 <= i <= |args|
      invariant CompareChain(c, first, args[i..], h) == CompareChain(c, first, args[1..], h)
    {
      assert args[i..][1..] == args[i + 1..];
      if !args[i].Integer? {
        return Done(Error(IntegerExpected), h);
      }
      if !Holds(c, first, IntAt(h, args[i].ref)) {
        return Done(Boolean(false), h);
      }
      i := i + 1;
    }
    return Done(Boolean(true), h);
  }

  /** `builtin.Fn(args...)`, running the loops above. */
  method Call(p: Primitive, args: seq<Value>, h: Heap) returns (r: Step)
    ensures r == Apply(p, args, h)
  {
    if args == [] {
      return Crash(NoArguments);
    }
    match p
    case QuoteString =>
      r := if args[0].Str? then Done(args[0], h) else Crash(NotAString);
    case Arithmetic(op) =>
      if args[0].Integer? {
        r := ArithLoop(op, args, h);
      } else if args[0].Float? {
        r := FloatArith(args[0], args[1..], h);
      } else {
        r := Unexpected(args[0], h);
      }
    case Comparison(c) =>
      if args[0].Integer? {
        r := CompareLoop(c, args, h);
      } else if args[0].Float? {
        r := FloatCompare(args[1..], h);
      } else {
        r := Unexpected(args[0], h);
      }
  }
}
