/** JavaScript values as the viewer sees them in the parsed page records.
    The viewer dispatches on the JS type of a few fields (style tokens,
    style-table entries, colour indices); those fields are `Value`s.
    Fields the viewer only does arithmetic on are `Number`s. */
module JsValues {

  datatype Option<+T> = None | Some(value: T)

  /** A JSON-compatible JS value. Objects are opaque: the viewer never looks
      inside an object it receives in one of these positions. */
  datatype Value =
    | JUndefined
    | JNull
    | JBool(b: bool)
    | JNum(n: real)
    | JStr(s: string)
    | JArr(items: seq<Value>)
    | JObj

  /** JS truthiness (`if (v)`, `v || d`, `v ? a : b`). JSON has no NaN, so a
      number is falsy exactly when it is zero. */
  predicate Truthy(v: Value)
  {
    match v
    case JUndefined => false
    case JNull => false
    case JBool(b) => b
    case JNum(n) => n != 0.0
    case JStr(s) => s != ""
    case JArr(_) => true
    case JObj => true
  }

  /** JS strict equality `a === b`. Arrays and objects compare by reference;
      two values parsed from different positions of a JSON document are never
      the same reference, so they are never strictly equal. */
  predicate StrictEquals(a: Value, b: Value)
  {
    match (a, b)
    case (JUndefined, JUndefined) => true
    case (JNull, JNull) => true
    case (JBool(x), JBool(y)) => x == y
    case (JNum(x), JNum(y)) => x == y
    case (JStr(x), JStr(y)) => x == y
    case _ => false
  }

  /** A JS number in a numeric field of a page record. `NaN` stands both for
      NaN and for an absent field: every use the viewer makes of such a field
      (multiplication, `||`, `=== 1`) treats `undefined` and NaN alike. A field
      holding JSON `null` behaves exactly like `Num(0.0)` in all those uses. */
  datatype Number = Num(r: real) | NaN

  /** `n || d` for a numeric field. */
  function OrDefault(n: Number, d: real): Number
  {
    if n.Num? && n.r != 0.0 then n else Num(d)
  }

  /** JS `a * k` and `a + b`: NaN absorbs everything, even a zero factor. */
  function Times(a: Number, k: Number): Number
  {
    if a.Num? && k.Num? then Num(a.r * k.r) else NaN
  }

  function Plus(a: Number, b: Number): Number
  {
    if a.Num? && b.Num? then Num(a.r + b.r) else NaN
  }
}
