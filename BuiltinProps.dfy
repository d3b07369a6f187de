/**
 * What the primitives of builtins.go compute, against reference
 * definitions over plain integers: without aliasing, `+ - *` are the
 * int64-wrapped sum, difference and product; with aliasing the first
 * argument is read back after it was overwritten; a type error keeps the
 * writes already made; comparisons test the first argument against every
 * later one.
 */
module BuiltinProps {
  import opened Common
  import opened GoText
  import opened Objects
  import opened Builtins

  predicate AllIntegers(vs: seq<Value>)
  {
    forall i :: 0 <= i < |vs| ==> vs[i].Integer?
  }

  /** The values of a sequence of Integer objects. */
  function IntValues(vs: seq<Value>, h: Heap): (r: seq<int>)
    requires AllIntegers(vs)
    ensures |r| == |vs|
  {
    seq(|vs|, i requires 0 <= i < |vs| => IntAt(h, vs[i].ref))
  }

  /** The reference left fold over integers: stop at the first division by zero. */
  function FoldInts(op: Arith, acc: int, xs: seq<int>): Outcome<int>
    decreases |xs|
  {
    if xs == [] then Ok(acc)
    else match Combine(op, acc, xs[0])
      case Fault(m) => Fault(m)
      case Ok(n) => FoldInts(op, n, xs[1..])
  }

  function Sum(xs: seq<int>): int
  {
    if xs == [] then 0 else xs[0] + Sum(xs[1..])
  }

  function Product(xs: seq<int>): int
  {
    if xs == [] then 1 else xs[0] * Product(xs[1..])
  }

  lemma SetIntTwice(h: Heap, r: Ref, a: int, b: int)
    ensures SetInt(SetInt(h, r, a), r, b) == SetInt(h, r, b)
  {
    if IsIntRef(h, r) {
      assert h.cells[r := IntCell(a)][r := IntCell(b)] == h.cells[r := IntCell(b)];
    }
  }

  /**
   * When no later argument is the first argument object itself, the
   * Integer branch is the plain left fold of the argument values, and the
   * result is written into the first argument.
   */
  lemma {:induction false} ArithIsLeftFold(op: Arith, ref: Ref, rest: seq<Value>, h: Heap)
    requires IsIntRef(h, ref) && AllIntegers(rest)
    requires forall i :: 0 <= i < |rest| ==> rest[i].ref != ref
    ensures ArithFold(op, ref, rest, h) ==
            match FoldInts(op, IntAt(h, ref), IntValues(rest, h))
            case Ok(n) => Done(Integer(ref), SetInt(h, ref, n))
            case Fault(m) => Crash(m)
    decreases |rest|
  {
    if rest == [] {
      assert SetInt(h, ref, IntAt(h, ref)).cells == h.cells;
    } else {
      var xs := IntValues(rest, h);
      match Combine(op, IntAt(h, ref), xs[0])
      case Fault(m) =>
      case Ok(n) =>
        var h1 := SetInt(h, ref, n);
        ArithIsLeftFold(op, ref, rest[1..], h1);
        assert IntValues(rest[1..], h1) == xs[1..];
        match FoldInts(op, n, xs[1..])
        case Ok(m) => SetIntTwice(h, ref, n, m);
        case Fault(_) =>
    }
  }

  /** The left fold of `+` from an int64 is the sum, wrapped to int64 once at the end. */
  lemma {:induction false} AddFoldIsSum(acc: int, xs: seq<int>)
    requires IsInt64(acc)
    ensures FoldInts(Add, acc, xs) == Ok(Wrap64(acc + Sum(xs)))
    decreases |xs|
  {
    if xs != [] {
      var n := Wrap64(acc + xs[0]);
      AddFoldIsSum(n, xs[1..]);
      WrapThenAdd(acc + xs[0], Sum(xs[1..]));
    }
  }

  /** The left fold of `-` subtracts every later value from the first. */
  lemma {:induction false} SubFoldIsDifference(acc: int, xs: seq<int>)
    requires IsInt64(acc)
    ensures FoldInts(Sub, acc, xs) == Ok(Wrap64(acc - Sum(xs)))
    decreases |xs|
  {
    if xs != [] {
      var n := Wrap64(acc - xs[0]);
      SubFoldIsDifference(n, xs[1..]);
      WrapThenAdd(acc - xs[0], -Sum(xs[1..]));
    }
  }

  /** The left fold of `*` is the product, wrapped to int64. */
  lemma {:induction false} MulFoldIsProduct(acc: int, xs: seq<int>)
    requires IsInt64(acc)
    ensures FoldInts(Mul, acc, xs) == Ok(Wrap64(acc * Product(xs)))
    decreases |xs|
  {
    if xs != [] {
      var n := Wrap64(acc * xs[0]);
      MulFoldIsProduct(n, xs[1..]);
      var rest := Product(xs[1..]);
      WrapThenMul(acc * xs[0], rest);
      assert Product(xs) == xs[0] * rest;
      MulAssoc(acc, xs[0], rest);
    }
  }

  lemma MulAssoc(a: int, b: int, c: int)
    ensures a * b * c == a * (b * c)
  {
  }

  /**
   * `(+ a b …)` with distinct Integer objects returns the first object,
   * now holding the int64-wrapped sum of all the values.
   */
  lemma AddReturnsSumInFirst(args: seq<Value>, h: Heap)
    requires |args| >= 1 && AllIntegers(args) && IsIntRef(h, args[0].ref) && IsInt64(IntAt(h, args[0].ref))
    requires forall i :: 1 <= i < |args| ==> args[i].ref != args[0].ref
    ensures var r := Apply(Arithmetic(Add), args, h);
            r == Done(args[0], SetInt(h, args[0].ref, Wrap64(Sum(IntValues(args, h)))))
  {
    var rest := args[1..];
    ArithIsLeftFold(Add, args[0].ref, rest, h);
    AddFoldIsSum(IntAt(h, args[0].ref), IntValues(rest, h));
    assert IntValues(args, h) == [IntAt(h, args[0].ref)] + IntValues(rest, h);
    assert IntValues(args, h)[1..] == IntValues(rest, h);
  }

  /**
   * Aliasing: in `(+ x x x)` the second and third operands are the first
   * argument object itself, read after each write, so the result is four
   * times the value, not three.
   */
  lemma AliasedOperandsReadNewValue(r: Ref, h: Heap)
    requires IsIntRef(h, r) && IsInt64(4 * IntAt(h, r))
    ensures Apply(Arithmetic(Add), [Integer(r), Integer(r), Integer(r)], h) ==
            Done(Integer(r), SetInt(h, r, 4 * IntAt(h, r)))
  {
    var n := IntAt(h, r);
    var args := [Integer(r), Integer(r), Integer(r)];
    assert args[1..] == [Integer(r), Integer(r)];
    var h1 := SetInt(h, r, 2 * n);
    assert ArithFold(Add, r, [Integer(r), Integer(r)], h) == ArithFold(Add, r, [Integer(r)], h1);
    assert [Integer(r), Integer(r)][1..] == [Integer(r)];
    assert ArithFold(Add, r, [Integer(r)], h1) == ArithFold(Add, r, [], SetInt(h1, r, 4 * n));
    SetIntTwice(h, r, 2 * n, 4 * n);
  }

  /**
   * Aliasing in division: in `(/ x y x)` with `x` smaller in size than
   * `y`, the first step writes x / y = 0 into `x`, and the third operand
   * is `x` itself, now 0; the call panics although no operand was 0
   * when it began (for example x = 1, y = 2).
   */
  lemma AliasedDivisionPanics(x: Ref, y: Ref, h: Heap)
    requires x != y && IsIntRef(h, x) && IsIntRef(h, y)
    requires var a, b := IntAt(h, x), IntAt(h, y);
             a != 0 && (if a < 0 then -a else a) < (if b < 0 then -b else b)
    ensures Apply(Arithmetic(Div), [Integer(x), Integer(y), Integer(x)], h) == Crash(DivideByZero)
  {
    var a, b := IntAt(h, x), IntAt(h, y);
    var args := [Integer(x), Integer(y), Integer(x)];
    assert args[1..] == [Integer(y), Integer(x)];
    SmallerQuotIsZero(a, b);
    var h1 := SetInt(h, x, 0);
    assert Combine(Div, a, b) == Ok(0);
    assert [Integer(y), Integer(x)][1..] == [Integer(x)];
    assert ArithFold(Div, x, [Integer(y), Integer(x)], h) == ArithFold(Div, x, [Integer(x)], h1);
    assert IntAt(h1, x) == 0;
    assert Combine(Div, 0, 0) == Fault(DivideByZero);
  }

  lemma SmallerQuotIsZero(a: int, b: int)
    requires (if a < 0 then -a else a) < (if b < 0 then -b else b)
    ensures Combine(Div, a, b) == Ok(0)
  {
    var abs := if a < 0 then -a else a;
    var absb := if b < 0 then -b else b;
    SmallDivIsZero(abs, absb);
    assert Quot(a, b) == 0;
    assert IsInt64(0);
  }

  lemma SmallDivIsZero(x: int, y: int)
    requires 0 <= x < y
    ensures x / y == 0
  {
  }

  /** Folding a concatenation is folding the first part, then the rest from where it stopped. */
  lemma {:induction false} ArithFoldSplit(op: Arith, ref: Ref, a: seq<Value>, b: seq<Value>, h: Heap)
    ensures ArithFold(op, ref, a + b, h) ==
            var r := ArithFold(op, ref, a, h);
            if r.Done? && r.value == Integer(ref) then ArithFold(op, ref, b, r.heap) else r
    decreases |a|
  {
    if a != [] {
      assert (a + b)[0] == a[0];
      assert (a + b)[1..] == a[1..] + b;
      if a[0].Integer? {
        match Combine(op, IntAt(h, ref), IntAt(h, a[0].ref))
        case Fault(_) =>
        case Ok(n) => ArithFoldSplit(op, ref, a[1..], b, SetInt(h, ref, n));
      }
    } else {
      assert a + b == b;
    }
  }

  /**
   * A non-Integer operand after Integer ones gives "Expecting an Integer",
   * and the writes already made to the first argument stay.
   */
  lemma TypeErrorKeepsWrites(op: Arith, ref: Ref, done: seq<Value>, bad: Value, more: seq<Value>, h: Heap)
    requires !bad.Integer?
    requires ArithFold(op, ref, done, h).Done? && ArithFold(op, ref, done, h).value == Integer(ref)
    ensures ArithFold(op, ref, done + [bad] + more, h) ==
            Done(Error(IntegerExpected), ArithFold(op, ref, done, h).heap)
  {
    assert done + [bad] + more == done + ([bad] + more);
    ArithFoldSplit(op, ref, done, [bad] + more, h);
  }

  /** With a single argument, arithmetic returns it untouched and a comparison answers TRUE. */
  lemma SingleArgument(p: Primitive, x: Value, h: Heap)
    requires p.Arithmetic? || p.Comparison?
    requires x.Integer? || x.Float?
    ensures p.Arithmetic? ==> Apply(p, [x], h) == Done(x, h)
    ensures p.Comparison? ==> Apply(p, [x], h) == Done(Boolean(true), h)
  {
    assert [x][1..] == [];
  }

  /**
   * On Integers, a comparison is TRUE exactly when the first value is in
   * relation with every later value (not each with its neighbour).
   */
  lemma {:induction false} CompareIsForAll(c: Compare, first: int, rest: seq<Value>, h: Heap)
    requires AllIntegers(rest)
    ensures CompareChain(c, first, rest, h) ==
            Done(Boolean(forall i :: 0 <= i < |rest| ==> Holds(c, first, IntAt(h, rest[i].ref))), h)
    decreases |rest|
  {
    if rest != [] {
      CompareIsForAll(c, first, rest[1..], h);
      assert forall i :: 1 <= i < |rest| ==> rest[1..][i - 1] == rest[i];
    }
  }

  /** A failing test answers FALSE at once: whatever follows is not even type-checked. */
  lemma {:induction false} FalseStopsChain(c: Compare, first: int, passed: seq<Value>, failing: Value, more: seq<Value>, h: Heap)
    requires forall i :: 0 <= i < |passed| ==> passed[i].Integer? && Holds(c, first, IntAt(h, passed[i].ref))
    requires failing.Integer? && !Holds(c, first, IntAt(h, failing.ref))
    ensures CompareChain(c, first, passed + [failing] + more, h) == Done(Boolean(false), h)
    decreases |passed|
  {
    var all := passed + [failing] + more;
    if passed == [] {
      assert all[0] == failing;
    } else {
      assert all[0] == passed[0];
      assert all[1..] == passed[1..] + [failing] + more;
      FalseStopsChain(c, first, passed[1..], failing, more, h);
    }
  }

  /** `(< 1 3 2)` is TRUE: 3 and 2 are both compared with 1, never with each other. */
  lemma ComparesWithFirstOnly()
    ensures var h := Heap([IntCell(1), IntCell(3), IntCell(2)]);
            Apply(Comparison(Lt), [Integer(0), Integer(1), Integer(2)], h) == Done(Boolean(true), h)
  {
    var h := Heap([IntCell(1), IntCell(3), IntCell(2)]);
    var rest := [Integer(1), Integer(2)];
    assert [Integer(0), Integer(1), Integer(2)][1..] == rest;
    CompareIsForAll(Lt, 1, rest, h);
    assert IntAt(h, 1) == 3 && IntAt(h, 2) == 2;
  }

  /** A first argument that is neither Integer nor Float is reported with its printed form. */
  lemma UnexpectedFirstArgument(p: Primitive, x: Value, rest: seq<Value>, h: Heap)
    requires p.Arithmetic? || p.Comparison?
    requires x.Boolean? || x.Str? || x.Char? || x.Identifier? || x.Builtin? || x.Error?
    ensures Inspect(x, h).Text?
    ensures Apply(p, [x] + rest, h) ==
            Done(Error("Unexpected " + Inspect(x, h).s + " expecting one of Integer or Float"), h)
  {
    assert ([x] + rest)[0] == x;
  }
}
