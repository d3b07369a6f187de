/**
 * evaluator/builtins.go: the table of the four integer builtins of the
 * third generation.  Each `Fn` copies the value of its first argument
 * into a freshly allocated Integer and folds every later argument into it
 * with `+=`, `-=`, `*=` or `/=` on Go's 64-bit `int`.  The first argument
 * must exist and every argument must be an Integer, or the type
 * assertion panics; a division by zero panics as well.
 *
 * `CallSpec` says what a call answers; method `Call` allocates and updates
 * the Integer as the Go code does and is proved to follow it.  The lemmas
 * relate the fold to the plain sum, difference and product of the values.
 */
module EvaluatorBuiltins {
  import opened Common
  import opened GoText
  import opened ObjectTypes
  import B = Builtins
  import BP = BuiltinProps

  /** What Go's type assertion `arg.(*object.Integer)` panics with on a Builtin. */
  const NotAnInteger := "interface conversion: object.Object is *object.Builtin, not *object.Integer"

  /** The `builtins` map: the Builtin registered under `name`, if any. */
  function Table(name: string): (r: Option<Object>)
    ensures r.Some? <==> name in {"+", "-", "*", "/"}
    ensures r.Some? ==> r.value.Builtin? && OperatorOf(r.value.fn) == name
  {
    if name == "+" then Some(Builtin(AddAll))
    else if name == "-" then Some(Builtin(SubtractAll))
    else if name == "*" then Some(Builtin(MultiplyAll))
    else if name == "/" then Some(Builtin(DivideAll))
    else None
  }

  /** The name each function is registered under. */
  function OperatorOf(f: BuiltinFunction): string
  {
    match f
    case AddAll => "+"
    case SubtractAll => "-"
    case MultiplyAll => "*"
    case DivideAll => "/"
  }

  /** The compound assignment each function applies. */
  function Op(f: BuiltinFunction): B.Arith
  {
    match f
    case AddAll => B.Add
    case SubtractAll => B.Sub
    case MultiplyAll => B.Mul
    case DivideAll => B.Div
  }

  /** A suffix of the arguments reads no Integer the whole list does not. */
  lemma CellsOfSuffix(objs: seq<Object>, j: nat)
    requires j <= |objs|
    ensures Cells(objs[j..]) <= Cells(objs)
  {
    forall o | o in Cells(objs[j..]) ensures o in Cells(objs) {
      var k :| 0 <= k < |objs[j..]| && objs[j..][k].IntegerRef? && objs[j..][k].ptr == o;
      assert objs[j + k] == objs[j..][k];
    }
  }

  /**
   * The loop of a `Fn` from accumulated value `acc` over the arguments
   * `rest`, in order: each one is asserted to be an Integer, then
   * combined; the first panic ends the call.
   */
  function FoldSpec(f: BuiltinFunction, acc: int, rest: seq<Object>): (r: Outcome<int>)
    reads Cells(rest)
    ensures r.Fault? ==> r.msg in {NotAnInteger, B.DivideByZero}
    ensures r.Ok? && rest != [] ==> IsInt64(r.value)
    decreases |rest|
  {
    if rest == [] then Ok(acc)
    else if !rest[0].IntegerRef? then Fault(NotAnInteger)
    else
      match B.Combine(Op(f), acc, rest[0].ptr.value)
      case Fault(m) => Fault(m)
      case Ok(n) =>
        CellsOfSuffix(rest, 1);
        FoldSpec(f, n, rest[1..])
  }

  /**
   * `Fn(args...)`: the value of the Integer the call returns, or its
   * panic.  No argument at all is an index out of range; a first argument
   * that is not an Integer fails the type assertion.
   */
  function CallSpec(f: BuiltinFunction, args: seq<Object>): (r: Outcome<int>)
    reads Cells(args)
    ensures r.Fault? ==> r.msg in {B.NoArguments, NotAnInteger, B.DivideByZero}
    ensures r.Ok? ==> args != [] && args[0].IntegerRef?
  {
    if args == [] then Fault(B.NoArguments)
    else if !args[0].IntegerRef? then Fault(NotAnInteger)
    else
      CellsOfSuffix(args, 1);
      FoldSpec(f, args[0].ptr.value, args[1..])
  }

  /**
   * `Fn(args...)` as the Go code runs it: a new Integer takes the first
   * value and every later argument is folded into it.  The method may
   * write nothing that existed before the call, so no argument changes;
   * the result is a new Integer holding `CallSpec`'s value.
   */
  method Call(f: BuiltinFunction, args: seq<Object>) returns (r: Outcome<Object>)
    ensures r.Ok? <==> CallSpec(f, args).Ok?
    ensures r.Ok? ==> r.value.IntegerRef? && fresh(r.value.ptr) && r.value.ptr.value == CallSpec(f, args).value
    ensures r.Fault? ==> r.msg == CallSpec(f, args).msg
  {
    if |args| == 0 {
      return Fault(B.NoArguments);
    }
    if !args[0].IntegerRef? {
      return Fault(NotAnInteger);
    }
    var intObj := new Integer(args[0].ptr.value);
    assert intObj !in Cells(args);
    var i := 1;
    while i < |args|
      invariant 1 <= i <= |args|
      invariant fresh(intObj) && intObj !in Cells(args)
      invariant FoldSpec(f, intObj.value, args[i..]) == CallSpec(f, args)
    {
      if !args[i].IntegerRef? {
        return Fault(NotAnInteger);
      }
      var intArg := args[i].ptr;
      var next := B.Combine(Op(f), intObj.value, intArg.value);
      if next.Fault? {
        return Fault(next.msg);
      }
      assert args[i..][1..] == args[i + 1..];
      assert FoldSpec(f, next.value, args[i + 1..]) == CallSpec(f, args);
      CellsOfSuffix(args, i + 1);
      intObj.value := next.value;
      i := i + 1;
    }
    return Ok(IntegerRef(intObj));
  }

  // ---------------------------------------------------------------------
  // The fold against plain integer arithmetic

  predicate AllIntegers(objs: seq<Object>)
  {
    forall i :: 0 <= i < |objs| ==> objs[i].IntegerRef?
  }

  /** The values of a sequence of Integers. */
  function ValuesOf(objs: seq<Object>): (r: seq<int>)
    requires AllIntegers(objs)
    reads Cells(objs)
    ensures |r| == |objs|
  {
    seq(|objs|, i requires 0 <= i < |objs| && AllIntegers(objs) reads Cells(objs) => objs[i].ptr.value)
  }

  /** Over Integers only, the loop is the reference left fold of their values. */
  lemma {:induction false} FoldSpecIsFoldInts(f: BuiltinFunction, acc: int, rest: seq<Object>)
    requires AllIntegers(rest)
    ensures FoldSpec(f, acc, rest) == BP.FoldInts(Op(f), acc, ValuesOf(rest))
    decreases |rest|
  {
    if rest != [] {
      var xs := ValuesOf(rest);
      assert xs[0] == rest[0].ptr.value;
      match B.Combine(Op(f), acc, xs[0])
      case Fault(_) =>
      case Ok(n) =>
        FoldSpecIsFoldInts(f, n, rest[1..]);
        assert ValuesOf(rest[1..]) == xs[1..];
    }
  }

  /** A call over Integers folds the later values into the first. */
  lemma CallIsFold(f: BuiltinFunction, args: seq<Object>)
    requires args != [] && AllIntegers(args)
    ensures CallSpec(f, args) == BP.FoldInts(Op(f), args[0].ptr.value, ValuesOf(args)[1..])
  {
    FoldSpecIsFoldInts(f, args[0].ptr.value, args[1..]);
    assert ValuesOf(args[1..]) == ValuesOf(args)[1..];
  }

  /** `+` answers the sum of all the values, wrapped to 64 bits. */
  lemma AddIsSum(args: seq<Object>)
    requires args != [] && AllIntegers(args) && IsInt64(args[0].ptr.value)
    ensures CallSpec(AddAll, args) == Ok(Wrap64(BP.Sum(ValuesOf(args))))
  {
    var xs := ValuesOf(args);
    CallIsFold(AddAll, args);
    BP.AddFoldIsSum(xs[0], xs[1..]);
    assert xs == [xs[0]] + xs[1..];
  }

  /** `-` answers the first value less every later one, wrapped to 64 bits. */
  lemma SubtractIsDifference(args: seq<Object>)
    requires args != [] && AllIntegers(args) && IsInt64(args[0].ptr.value)
    ensures CallSpec(SubtractAll, args) == Ok(Wrap64(args[0].ptr.value - BP.Sum(ValuesOf(args)[1..])))
  {
    CallIsFold(SubtractAll, args);
    BP.SubFoldIsDifference(args[0].ptr.value, ValuesOf(args)[1..]);
  }

  /** `*` answers the product of all the values, wrapped to 64 bits. */
  lemma MultiplyIsProduct(args: seq<Object>)
    requires args != [] && AllIntegers(args) && IsInt64(args[0].ptr.value)
    ensures CallSpec(MultiplyAll, args) == Ok(Wrap64(BP.Product(ValuesOf(args))))
  {
    var xs := ValuesOf(args);
    CallIsFold(MultiplyAll, args);
    BP.MulFoldIsProduct(xs[0], xs[1..]);
    assert xs == [xs[0]] + xs[1..];
  }

  /** The left fold of `/` panics exactly when some divisor is zero. */
  lemma {:induction false} DivideFaultsOnZero(acc: int, xs: seq<int>)
    ensures BP.FoldInts(B.Div, acc, xs).Fault? <==> 0 in xs
    ensures BP.FoldInts(B.Div, acc, xs).Fault? ==> BP.FoldInts(B.Div, acc, xs).msg == B.DivideByZero
    decreases |xs|
  {
    if xs != [] {
      if xs[0] != 0 {
        DivideFaultsOnZero(Wrap64(Quot(acc, xs[0])), xs[1..]);
        assert 0 in xs <==> 0 in xs[1..];
      }
    }
  }

  /** `/` over Integers panics exactly when a later value is zero. */
  lemma DivideByZeroPanics(args: seq<Object>)
    requires args != [] && AllIntegers(args)
    ensures CallSpec(DivideAll, args).Fault? <==> 0 in ValuesOf(args)[1..]
    ensures CallSpec(DivideAll, args).Fault? ==> CallSpec(DivideAll, args).msg == B.DivideByZero
  {
    var xs := ValuesOf(args);
    CallIsFold(DivideAll, args);
    DivideFaultsOnZero(args[0].ptr.value, xs[1..]);
  }

  /** A single Integer argument comes back as a new Integer with the same value. */
  lemma SingleArgument(f: BuiltinFunction, x: Object)
    requires x.IntegerRef?
    ensures CallSpec(f, [x]) == Ok(x.ptr.value)
  {
    assert [x][1..] == [];
  }

  /**
   * Apart from `/`, which may first panic on a zero divisor, a call
   * panics on a type assertion exactly when some argument is a Builtin.
   */
  lemma {:induction false} FoldRejectsBuiltins(f: BuiltinFunction, acc: int, rest: seq<Object>)
    requires f != DivideAll
    ensures FoldSpec(f, acc, rest).Fault? <==> !AllIntegers(rest)
    ensures FoldSpec(f, acc, rest).Fault? ==> FoldSpec(f, acc, rest).msg == NotAnInteger
    decreases |rest|
  {
    if rest != [] && rest[0].IntegerRef? {
      var n := B.Combine(Op(f), acc, rest[0].ptr.value).value;
      FoldRejectsBuiltins(f, n, rest[1..]);
      assert AllIntegers(rest) <==> AllIntegers(rest[1..]) by {
        if AllIntegers(rest[1..]) {
          forall i | 0 <= i < |rest| ensures rest[i].IntegerRef? {
            if i > 0 { assert rest[i] == rest[1..][i - 1]; }
          }
        }
      }
    }
  }

  lemma CallRejectsBuiltins(f: BuiltinFunction, args: seq<Object>)
    requires f != DivideAll && args != []
    ensures CallSpec(f, args).Fault? <==> !AllIntegers(args)
    ensures CallSpec(f, args).Fault? ==> CallSpec(f, args).msg == NotAnInteger
  {
    if args[0].IntegerRef? {
      FoldRejectsBuiltins(f, args[0].ptr.value, args[1..]);
      assert AllIntegers(args) <==> AllIntegers(args[1..]) by {
        if AllIntegers(args[1..]) {
          forall i | 0 <= i < |args| ensures args[i].IntegerRef? {
            if i > 0 { assert args[i] == args[1..][i - 1]; }
          }
        }
      }
    }
  }
}
