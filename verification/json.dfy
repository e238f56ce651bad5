/** The JSON-like values that flow through the pipeline: the provider's response
    envelope, the extracted payload and the parsed model output. */
module Json {
  import opened Wrappers

  /** A Python value built from dicts, lists, strings, numbers, booleans and None.
      Object keys are strings, as they are in anything produced by a JSON parser. */
  datatype Json =
    | JNull
    | JBool(b: bool)
    | JNum(n: real)
    | JStr(s: string)
    | JArr(items: seq<Json>)
    | JObj(fields: map<string, Json>)

  /** Python truthiness: `None`, `False`, zero and empty containers are false. */
  predicate Truthy(v: Json) {
    match v
    case JNull => false
    case JBool(b) => b
    case JNum(n) => n != 0.0
    case JStr(s) => s != []
    case JArr(items) => items != []
    case JObj(fields) => fields != map[]
  }

  /** `v[key]` for a string key: only a dict with that key answers; every other
      case raises (KeyError or TypeError), modelled as `None`. */
  function Member(v: Json, key: string): (r: Option<Json>)
    ensures r.Some? <==> v.JObj? && key in v.fields
    ensures r.Some? ==> r.value == v.fields[key]
  {
    match v
    case JObj(fields) => if key in fields then Some(fields[key]) else None
    case _ => None
  }

  /** `v[i]` for a non-negative integer index: a list yields its element, a string
      yields its one-character substring, and a dict (whose keys are strings) raises
      KeyError, as does everything else. */
  function Element(v: Json, i: nat): (r: Option<Json>)
    ensures v.JArr? ==> (r.Some? <==> i < |v.items|)
    ensures v.JArr? && i < |v.items| ==> r == Some(v.items[i])
    ensures v.JStr? ==> (r.Some? <==> i < |v.s|)
    ensures v.JStr? && i < |v.s| ==> r == Some(JStr([v.s[i]]))
    ensures r.Some? ==> v.JArr? || (v.JStr? && r.value.JStr? && |r.value.s| == 1)
  {
    match v
    case JArr(items) => if i < |items| then Some(items[i]) else None
    case JStr(s) => if i < |s| then Some(JStr([s[i]])) else None
    case _ => None
  }
}
