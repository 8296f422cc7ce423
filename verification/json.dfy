/** The opaque result payloads the front end stores and inspects: JSON values as JavaScript sees them. */
module Json {
  import opened Optional

  /** A parsed JSON value. Numbers are integers here (no fractions, no NaN). */
  datatype Value =
    | JNull
    | JBool(b: bool)
    | JNum(n: int)
    | JStr(s: string)
    | JArr(items: seq<Value>)
    | JObj(fields: map<string, Value>)

  /** JavaScript truthiness of a possibly-undefined value (`None` is `undefined`). */
  predicate Truthy(v: Option<Value>)
  {
    match v
    case None => false
    case Some(JNull) => false
    case Some(JBool(b)) => b
    case Some(JNum(n)) => n != 0
    case Some(JStr(s)) => |s| > 0
    case Some(JArr(_)) => true
    case Some(JObj(_)) => true
  }

  /** Property read `v.key`: only objects carry the keys a payload is inspected for. */
  function Prop(v: Option<Value>, key: string): (r: Option<Value>)
    ensures r.Some? ==> v.Some? && v.value.JObj? && key in v.value.fields
  {
    match v
    case Some(JObj(fields)) => if key in fields then Some(fields[key]) else None
    case _ => None
  }

  /** `v.length`: the element count of an array or the length of a string; `undefined` otherwise. */
  function Length(v: Option<Value>): Option<nat>
  {
    match v
    case Some(JArr(items)) => Some(|items|)
    case Some(JStr(s)) => Some(|s|)
    case _ => None
  }
}
