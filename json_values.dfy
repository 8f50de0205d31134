/**
 * The value JSON.parse produces, as an abstract datatype, and the two pieces
 * of JavaScript run-time behaviour the response normaliser relies on when it
 * reads such a value: truthiness and property access (`v.key`).
 *
 * Numbers are exact reals (JSON text never yields NaN), objects are maps from
 * key to value (JSON.parse keeps the last of duplicated keys).
 */
module JsonValues {
  import opened Wrappers

  datatype Json =
    | JNull
    | JBool(b: bool)
    | JNumber(n: real)
    | JString(s: string)
    | JArray(elems: seq<Json>)
    | JObject(fields: map<string, Json>)

  /** JavaScript truthiness: null, false, 0 and "" are falsy; arrays and objects are truthy. */
  predicate IsTruthy(v: Json)
  {
    match v
    case JNull => false
    case JBool(b) => b
    case JNumber(n) => n != 0.0
    case JString(s) => s != ""
    case JArray(_) => true
    case JObject(_) => true
  }

  /** Truthiness of a property read, where `None` is `undefined` and falsy. */
  predicate Truthy(p: Option<Json>)
  {
    p.Some? && IsTruthy(p.value)
  }

  /** `Array.isArray(p)` of a property read. */
  predicate IsArray(p: Option<Json>)
  {
    p.Some? && p.value.JArray?
  }

  /**
   * `v.key` on a value that is not null: an object's own field, and
   * `undefined` on a string, number, boolean or array (none of the keys the
   * normaliser reads is a property of those). Reading a property of `null`
   * throws a TypeError; callers handle that case first.
   */
  function Member(v: Json, key: string): Option<Json>
    requires !v.JNull?
  {
    if v.JObject? && key in v.fields then Some(v.fields[key]) else None
  }

  /** `p || fallback` */
  function OrElse(p: Option<Json>, fallback: Json): Json
  {
    if Truthy(p) then p.value else fallback
  }

  /** Every array is truthy, so `!p || !Array.isArray(p)` is just `!Array.isArray(p)`. */
  lemma ArraysAreTruthy(p: Option<Json>)
    ensures IsArray(p) ==> Truthy(p)
  {
  }
}
