/**
 * object/object.go: the objects of the third generation.  An `Integer` is
 * a heap cell holding a Go `int` (64 bits); a `Builtin` holds the Go
 * function the evaluator's table registered.  Every object answers its
 * type name and an `Inspect` text.
 */
module ObjectTypes {
  import opened Common
  import opened GoText

  const IntType := "INT_OBJ"
  const BuiltinType := "BUILTIN_OBJ"
  const ProcedureText := "<#procedure>"

  /** `*object.Integer`: the evaluator allocates one and writes its `Value` in place. */
  class Integer {
    var value: int

    constructor (value: int)
      ensures this.value == value
    {
      this.value := value;
    }
  }

  /**
   * The `Fn` a `Builtin` holds.  Go function values are opaque; the only
   * ones ever stored are the four folds of the evaluator's table.
   */
  datatype BuiltinFunction = AddAll | SubtractAll | MultiplyAll | DivideAll

  /** An `object.Object`: a pointer to an Integer, or a Builtin. */
  datatype Object = IntegerRef(ptr: Integer) | Builtin(fn: BuiltinFunction)

  /** The Integers among `objs`: what reading their values depends on. */
  function Cells(objs: seq<Object>): set<Integer>
  {
    set i | 0 <= i < |objs| && objs[i].IntegerRef? :: objs[i].ptr
  }

  /** `Type()`: `INT_OBJ` for an Integer, `BUILTIN_OBJ` for a Builtin, and nothing else. */
  function TypeOf(o: Object): (t: string)
    ensures t == IntType <==> o.IntegerRef?
    ensures t == BuiltinType <==> o.Builtin?
  {
    match o
    case IntegerRef(_) => IntType
    case Builtin(_) => BuiltinType
  }

  /**
   * `Inspect()`: an Integer prints its value with `%d`, which
   * `strconv.ParseInt` reads back; a Builtin prints `<#procedure>`.
   */
  function Inspect(o: Object): (s: string)
    reads if o.IntegerRef? then {o.ptr} else {}
    ensures o.Builtin? ==> s == ProcedureText
    ensures o.IntegerRef? && IsInt64(o.ptr.value) ==> ParseInt64(s) == Some(o.ptr.value)
  {
    match o
    case IntegerRef(p) =>
      var text := DecimalString(p.value);
      if IsInt64(p.value) then ParseIntOfDecimal(p.value); text else text
    case Builtin(_) => ProcedureText
  }

  /** `<#procedure>` is no number. */
  lemma ProcedureIsNoNumber()
    ensures ParseInt64(ProcedureText) == None
  {
    assert DigitValue(ProcedureText[0]) == 36;
  }

  /**
   * The printed text tells the objects apart: a Builtin never prints like
   * an Integer, and two Integers print alike only when their values are
   * equal.
   */
  lemma InspectTellsApart(a: Object, b: Object)
    requires a.IntegerRef? ==> IsInt64(a.ptr.value)
    requires b.IntegerRef? ==> IsInt64(b.ptr.value)
    requires Inspect(a) == Inspect(b)
    ensures a.IntegerRef? <==> b.IntegerRef?
    ensures a.IntegerRef? ==> a.ptr.value == b.ptr.value
  {
    ProcedureIsNoNumber();
  }
}
