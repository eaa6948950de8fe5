/**
 * The values `json.loads` produces, and the Python operations the core
 * applies to them: truthiness, `dict.get` and `a or b`.
 */
module Json {

  import opened Wrappers

  /**
   * A decoded JSON document. A float is kept only through what the core
   * observes of it: whether it is zero, what `int()` makes of it (none for
   * an infinity or NaN) and the text `str()` gives.
   */
  datatype Json =
    | JNull
    | JBool(b: bool)
    | JInt(i: int)
    | JFloat(isZero: bool, trunc: Option<int>, text: string)
    | JStr(s: string)
    | JArray(items: seq<Json>)
    | JObject(fields: map<string, Json>)

  /** Python truthiness of a decoded value. */
  predicate Truthy(j: Json) {
    match j
    case JNull => false
    case JBool(b) => b
    case JInt(i) => i != 0
    case JFloat(z, _, _) => !z
    case JStr(s) => s != ""
    case JArray(xs) => xs != []
    case JObject(m) => m != map[]
  }

  /** `d.get(k)`: the value under `k`, or null when `k` is missing. */
  function Get(m: map<string, Json>, k: string): (r: Json)
    ensures k in m ==> r == m[k]
    ensures k !in m ==> r == JNull
  {
    if k in m then m[k] else JNull
  }

  /** `a or b` */
  function Or(a: Json, b: Json): (r: Json)
    ensures Truthy(a) ==> r == a
    ensures !Truthy(a) ==> r == b
  {
    if Truthy(a) then a else b
  }

  /** `d.get(k) or default` where the result is then used as a string: the string, or failure. */
  function TextOr(m: map<string, Json>, k: string, default: string): (r: Option<string>)
    ensures (k !in m || !Truthy(m[k])) ==> r == Some(default)
    ensures k in m && m[k].JStr? && m[k].s != "" ==> r == Some(m[k].s)
    ensures r.None? <==> k in m && Truthy(m[k]) && !m[k].JStr?
  {
    match Or(Get(m, k), JStr(default))
    case JStr(s) => Some(s)
    case _ => None
  }
}
