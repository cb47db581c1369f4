/** The dynamically typed values the service reads out of JSON columns,
    configuration strings and provider responses. Floats are reals; NaN and the
    infinities are not modelled. */
module JsonValues {
  import opened Wrappers
  import opened Text

  datatype Json = JNull | JBool(b: bool) | JInt(i: int) | JReal(r: real) | JStr(s: string) | JArr(items: seq<Json>) | JObj(fields: map<string, Json>)

  /** Python truthiness. */
  predicate Falsy(v: Json) {
    v == JNull || v == JBool(false) || v == JInt(0) || v == JReal(0.0) || v == JStr("") || v == JArr([]) || v == JObj(map[])
  }

  /** Python's `a or b`. */
  function Or(a: Json, b: Json): Json {
    if Falsy(a) then b else a
  }

  /** `d.get(key)`. */
  function Get(d: map<string, Json>, key: string): Json {
    if key in d then d[key] else JNull
  }

  /** Python's int(v); None where int() raises. */
  function IntOf(v: Json): Option<int> {
    match v
    case JBool(b) => Some(if b then 1 else 0)
    case JInt(i) => Some(i)
    case JReal(r) => Some(if r >= 0.0 then r.Floor else -((-r).Floor))
    case JStr(s) => ParseInt(s)
    case _ => None
  }
}
