/** JSON values as both the Python backend and the TypeScript frontend receive them,
    with the truthiness rules each language applies to them. Numbers are
    integers: a JSON number with a fraction or an exponent is outside the
    model. */
module Json {

  import opened Wrappers

  datatype Json =
    | JNull
    | JBool(b: bool)
    | JNum(n: int)
    | JStr(s: string)
    | JArr(items: seq<Json>)
    | JObj(fields: map<string, Json>)

  /** Python `bool(v)`: None, False, 0, "", [] and {} are falsy. */
  predicate PyTruthy(v: Json) {
    match v
    case JNull => false
    case JBool(b) => b
    case JNum(n) => n != 0
    case JStr(s) => s != ""
    case JArr(xs) => |xs| > 0
    case JObj(m) => |m| > 0
  }

  /** JavaScript `Boolean(v)`: arrays and objects are always truthy. */
  predicate JsTruthy(v: Json) {
    match v
    case JNull => false
    case JBool(b) => b
    case JNum(n) => n != 0
    case JStr(s) => s != ""
    case JArr(_) => true
    case JObj(_) => true
  }

  /** Python `d.get(k)`: a missing key reads as None. */
  function Field(fields: map<string, Json>, k: string): (v: Json)
    ensures k in fields ==> v == fields[k]
    ensures k !in fields ==> v == JNull
  {
    if k in fields then fields[k] else JNull
  }

  /** Outcome of reading `(d.get(k) or "")` and then calling a string method on it:
      a falsy value gives "", a string gives itself, and any other truthy value
      raises (it has no `.strip()`), which is `None` here. */
  function PyStrOrEmpty(v: Json): (r: Option<string>)
    ensures !PyTruthy(v) ==> r == Some("")
    ensures v.JStr? ==> r == Some(v.s)
    ensures r.None? <==> PyTruthy(v) && !v.JStr?
  {
    if !PyTruthy(v) then Some("")
    else if v.JStr? then Some(v.s)
    else None
  }

  /** Python `v.get(k)` on a decoded JSON value: only an object has `.get`;
      on anything else the call raises `AttributeError`, which is `None` here. */
  function PyGet(v: Json, k: string): (r: Option<Json>)
    ensures r.Some? <==> v.JObj?
    ensures v.JObj? ==> r.value == Field(v.fields, k)
  {
    if v.JObj? then Some(Field(v.fields, k)) else None
  }

  /** `{"type": t, "payload": p}`, the envelope of every socket frame. */
  function Frame(t: string, p: Json): (f: Json)
    ensures f.JObj? && Field(f.fields, "type") == JStr(t) && Field(f.fields, "payload") == p
  {
    JObj(map["type" := JStr(t), "payload" := p])
  }
}
