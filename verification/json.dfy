/** JavaScript values as they flow through the enrollment code: request
    bodies, response payloads and the wizard's accumulated data. Only the
    JavaScript semantics the source relies on is modelled: truthiness,
    `String(v)`, property access and object spread. */
module Json {
  import opened Wrappers
  import Text

  /** A JSON value. Numbers are integers: no value in the modelled code
      carries a fraction. */
  datatype Json = JNull | JBool(b: bool) | JNum(n: int) | JStr(s: string) | JObj(fields: map<string, Json>)

  /** A plain object literal: keys to values. */
  type Object = map<string, Json>

  /** JavaScript truthiness of a value; `None` is `undefined`. */
  predicate Truthy(v: Option<Json>)
  {
    match v
    case None => false
    case Some(JNull) => false
    case Some(JBool(b)) => b
    case Some(JNum(n)) => n != 0
    case Some(JStr(s)) => s != ""
    case Some(JObj(_)) => true
  }

  /** `String(v)`, which `localStorage.setItem` applies to what it stores;
      `None` is `undefined`. */
  function JsString(v: Option<Json>): (s: string)
    ensures v.Some? && v.value.JStr? ==> s == v.value.s
    ensures v.None? ==> s == "undefined"
  {
    match v
    case None => "undefined"
    case Some(JNull) => "null"
    case Some(JBool(b)) => if b then "true" else "false"
    case Some(JNum(n)) => Text.IntToString(n)
    case Some(JStr(s)) => s
    case Some(JObj(_)) => "[object Object]"
  }

  /** A truthy value never renders as the empty string: this is why a
      truthy server message always shows some text. */
  lemma TruthyTextNonEmpty(v: Option<Json>)
    ensures Truthy(v) ==> JsString(v) != ""
  {
  }

  /** `v.key`: `undefined` (`Ok(None)`) when an object lacks the key or `v`
      is a primitive, a `TypeError` when `v` is `null`. */
  function Property(v: Json, key: string): (r: Result<Option<Json>, string>)
    ensures r.Err? <==> v.JNull?
    ensures r.Ok? ==> (r.value.Some? <==> v.JObj? && key in v.fields)
    ensures r.Ok? && r.value.Some? ==> r.value.value == v.fields[key]
  {
    match v
    case JNull => Err("Cannot read properties of null (reading '" + key + "')")
    case JObj(m) => Ok(if key in m then Some(m[key]) else None)
    case _ => Ok(None)
  }

  /** `data.outer.inner` on a plain object: a `TypeError` when `outer` is
      missing (so `undefined`) or `null`, `undefined` when the outer value
      has no `inner` field, and that field otherwise. */
  function NestedProperty(data: Object, outer: string, inner: string): (r: Result<Option<Json>, string>)
    ensures r.Err? <==> outer !in data || data[outer].JNull?
    ensures r.Ok? ==> (r.value.Some? <==> data[outer].JObj? && inner in data[outer].fields)
    ensures r.Ok? && r.value.Some? ==> r.value.value == data[outer].fields[inner]
  {
    if outer !in data then Err("Cannot read properties of undefined (reading '" + inner + "')")
    else Property(data[outer], inner)
  }

  /** `{...base, ...over}`: the keys of both objects, with `over` winning
      where both define a key. */
  function Spread(base: Object, over: Object): (r: Object)
    ensures r.Keys == base.Keys + over.Keys
    ensures forall k :: k in over ==> r[k] == over[k]
    ensures forall k :: k in base && k !in over ==> r[k] == base[k]
  {
    base + over
  }
}
