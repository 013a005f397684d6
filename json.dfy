/**
 * A decoded JSON request body, together with the two Python idioms the
 * handlers apply to it: truthiness (`if not x`) and `dict.get`.
 * Numbers are integers only; floats are not modelled.
 */
module Json {
  datatype Json =
    | JNull
    | JBool(b: bool)
    | JInt(i: int)
    | JStr(s: string)
    | JArr(items: seq<Json>)
    | JObj(fields: map<string, Json>)

  /** A JSON object, i.e. a Python dict with string keys (a request body or keyword arguments). */
  type Object = map<string, Json>

  /** Python truthiness of a decoded value: None, False, 0, "", [] and {} are falsy. */
  predicate Truthy(v: Json) {
    match v
    case JNull => false
    case JBool(b) => b
    case JInt(i) => i != 0
    case JStr(s) => s != ""
    case JArr(items) => items != []
    case JObj(fields) => fields != map[]
  }

  /** `d.get(key, default)`. */
  function GetOr(d: Object, key: string, default: Json): (v: Json) {
    if key in d then d[key] else default
  }

  /** `d.get(key)`: a missing key reads as None, exactly like an explicit null. */
  function Get(d: Object, key: string): (v: Json) {
    GetOr(d, key, JNull)
  }
}
