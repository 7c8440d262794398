/** The JavaScript values that alert documents, request bodies and prices
    carry, with the few operators the handlers apply to them: truthiness,
    `typeof`, `Number.isInteger`, `===` and the relational operators. */
module JsValues {

  datatype JValue =
    | Undefined
    | Null
    | Bool(b: bool)
    | Num(x: real)       // a finite number
    | NaN
    | Str(s: string)
    | Obj(ref: nat)      // an object (array, promise, ...) known by its reference

  /** ToBoolean: the falsy values are undefined, null, false, 0, NaN and "". */
  predicate Truthy(v: JValue) {
    match v
    case Undefined => false
    case Null => false
    case Bool(b) => b
    case Num(x) => x != 0.0
    case NaN => false
    case Str(s) => s != ""
    case Obj(_) => true
  }

  /** `typeof v === "number"`. */
  predicate IsNumber(v: JValue) {
    v.Num? || v.NaN?
  }

  /** `Number.isInteger(v)`: a finite number with no fractional part. */
  predicate IsInteger(v: JValue) {
    v.Num? && v.x == v.x.Floor as real
  }

  /** `a === b`: same type and value; objects by reference; NaN equals nothing. */
  predicate StrictEq(a: JValue, b: JValue) {
    a == b && !a.NaN?
  }

  /** ToNumber, as the relational operators apply it to a non-number operand.
      The empty string converts to 0; other strings and objects are taken to
      convert to NaN (see README). */
  function ToNumber(v: JValue): (r: JValue)
    ensures IsNumber(r)
    ensures IsNumber(v) ==> r == v
    ensures !Truthy(v) && !v.NaN? && !v.Undefined? ==> r == Num(0.0)
  {
    match v
    case Undefined => NaN
    case Null => Num(0.0)
    case Bool(b) => Num(if b then 1.0 else 0.0)
    case Num(_) => v
    case NaN => NaN
    case Str(s) => if s == "" then Num(0.0) else NaN
    case Obj(_) => NaN
  }

  /** `a < b` for a number `a`: false whenever either side is NaN. */
  predicate Less(a: JValue, b: JValue) {
    var p, q := ToNumber(a), ToNumber(b);
    p.Num? && q.Num? && p.x < q.x
  }

  /** `a <= b` for a number `a`: false whenever either side is NaN. */
  predicate LessEq(a: JValue, b: JValue) {
    var p, q := ToNumber(a), ToNumber(b);
    p.Num? && q.Num? && p.x <= q.x
  }

  /** `a > b` */
  predicate Greater(a: JValue, b: JValue) {
    Less(b, a)
  }

  /** `a >= b` */
  predicate GreaterEq(a: JValue, b: JValue) {
    LessEq(b, a)
  }
}
