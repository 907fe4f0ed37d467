/**
 * The JavaScript values that block attributes, block settings and element
 * props hold, with JavaScript's truthiness test.
 */
module JsValues {

  /** Numbers are modelled as integers; NaN and fractions are not represented. */
  datatype Value =
    | Undefined
    | Null
    | Bool(b: bool)
    | Num(n: int)
    | Str(s: string)
    | Arr(items: seq<Value>)
    | Obj(fields: map<string, Value>)

  /** JavaScript's ToBoolean: what `if (v)`, `v ? a : b` and `v && w` test. */
  predicate Truthy(v: Value) {
    match v
    case Undefined => false
    case Null => false
    case Bool(b) => b
    case Num(n) => n != 0
    case Str(s) => s != ""
    case Arr(_) => true
    case Obj(_) => true
  }

  /** Property access `o.k`: a missing key reads as `undefined`. */
  function Prop(o: map<string, Value>, k: string): Value {
    if k in o then o[k] else Undefined
  }

  /**
   * The own enumerable properties that object spread `{ ...v }` copies.
   * `undefined`, `null`, booleans and numbers contribute none.
   */
  function SpreadFields(v: Value): map<string, Value> {
    if v.Obj? then v.fields else map[]
  }
}
