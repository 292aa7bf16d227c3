/** The JavaScript values the scripts read from parsed JSON configuration. */
module JsValues {

  /**
   * A JSON-parsed JavaScript value, plus `undefined` for a missing property.
   * Objects are maps from property names to values.
   */
  datatype JsValue =
    | Undefined
    | Null
    | Bool(b: bool)
    | Num(n: real)
    | Str(s: string)
    | Arr(items: seq<JsValue>)
    | Obj(props: map<string, JsValue>)

  /** JavaScript truthiness: `undefined`, `null`, `false`, `0` and `""` are falsy. */
  predicate Truthy(v: JsValue) {
    match v
    case Undefined => false
    case Null => false
    case Bool(b) => b
    case Num(n) => n != 0.0
    case Str(s) => s != ""
    case Arr(_) => true
    case Obj(_) => true
  }

  /** `null` or `undefined`: reading a property of such a value raises a TypeError. */
  predicate IsNullish(v: JsValue) {
    v.Undefined? || v.Null?
  }

  /** `typeof v === 'object'`, which holds for `null` too. */
  predicate IsTypeofObject(v: JsValue) {
    v.Null? || v.Arr? || v.Obj?
  }

  /**
   * The property read `v[key]` for a key that no built-in prototype defines: an own
   * property of an object, and `undefined` otherwise. Callers handle the TypeError a
   * nullish `v` raises before reading.
   */
  function Get(v: JsValue, key: string): (r: JsValue)
    ensures r != Undefined ==> v.Obj? && key in v.props && r == v.props[key]
    ensures v.Obj? && key in v.props ==> r == v.props[key]
  {
    if v.Obj? && key in v.props then v.props[key] else Undefined
  }
}
