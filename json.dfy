/**
 * A decoded JSON document, as Python's `json` module hands it back
 * (`r.json()`): objects become dictionaries keyed by strings, arrays lists.
 * The two lookups below are Python's subscript operator on such a value,
 * with the exception it would raise turned into `None`.
 */
module Json {
  import opened Wrappers

  datatype Value =
    | JNull
    | JBool(b: bool)
    | JNumber(n: real)
    | JString(s: string)
    | JArray(items: seq<Value>)
    | JObject(fields: map<string, Value>)

  /** `v[key]` for a string key: only a dictionary that holds the key answers. */
  function Member(v: Value, key: string): (r: Option<Value>)
  {
    match v
    case JObject(fields) => if key in fields then Some(fields[key]) else None
    case _ => None
  }

  /**
   * `v[0]`: the first item of a non-empty list, the first character of a
   * non-empty string; a dictionary has no integer keys (JSON keys are
   * strings), and every other value is not subscriptable.
   */
  function First(v: Value): (r: Option<Value>)
  {
    match v
    case JArray(items) => if |items| > 0 then Some(items[0]) else None
    case JString(s) => if |s| > 0 then Some(JString([s[0]])) else None
    case _ => None
  }

  /** Python truthiness of a decoded value (`None`, `False`, zero and empty containers are false). */
  predicate Truthy(v: Value)
  {
    match v
    case JNull => false
    case JBool(b) => b
    case JNumber(n) => n != 0.0
    case JString(s) => s != []
    case JArray(items) => items != []
    case JObject(fields) => fields != map[]
  }
}
