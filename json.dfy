/**
 * The JSON values that requests carry, with JavaScript's notion of
 * truthiness and property lookup. Numbers are integers (prices and totals
 * are taken in minor units).
 */
module Json {
  /** A document id (a Mongo ObjectId), as the string JSON carries it. */
  type Id = string

  datatype JsValue =
    | Undefined
    | Null
    | Bool(b: bool)
    | Num(n: int)
    | Str(s: string)
    | Arr(elems: seq<JsValue>)
    | Obj(fields: map<string, JsValue>)

  /** JavaScript truthiness: `undefined`, `null`, `false`, `0` and `''` are falsy. */
  predicate Truthy(v: JsValue) {
    match v
    case Undefined => false
    case Null => false
    case Bool(b) => b
    case Num(n) => n != 0
    case Str(s) => s != ""
    case Arr(_) => true
    case Obj(_) => true
  }

  /** `obj[key]`: a key that is not there reads as `undefined`. */
  function Get(obj: map<string, JsValue>, key: string): JsValue
  {
    if key in obj then obj[key] else Undefined
  }
}
