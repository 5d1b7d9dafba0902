/** What the enrollment code sends to and receives from the server. The
    network is an input: each awaited request settles as the caller of a
    model operation says it does. */
module Http {
  import opened Wrappers
  import opened Json

  /** A request the code issued: an `axios.post` of `body` to `url`, or an
      `axios.get` of `url`. */
  datatype Request = Post(url: string, body: Json) | Get(url: string)

  /** How an awaited `axios` call settled: resolved with `response.data`, or
      rejected with an error whose `message` is given and which carries
      `error.response.data` when the server answered at all. */
  datatype Reply = Resolved(data: Json) | Rejected(message: string, body: Option<Json>)

  /** `error.response?.data?.<field>`: `undefined` (`None`) without a
      response, with a `null` or non-object body, or without the field. */
  function ErrorField(body: Option<Json>, field: string): (v: Option<Json>)
    ensures v.Some? <==> body.Some? && body.value.JObj? && field in body.value.fields
    ensures v.Some? ==> v.value == body.value.fields[field]
  {
    match body
    case Some(JObj(m)) => if field in m then Some(m[field]) else None
    case _ => None
  }

  /** `error.response?.data?.<field> || fallback`, as the text an alert shows:
      the server's field when it is truthy, the fallback otherwise. */
  function ErrorText(body: Option<Json>, field: string, fallback: string): (m: string)
    ensures !Truthy(ErrorField(body, field)) ==> m == fallback
    ensures Truthy(ErrorField(body, field)) && ErrorField(body, field).value.JStr? ==>
      m == ErrorField(body, field).value.s
    ensures fallback != "" ==> m != ""
  {
    var v := ErrorField(body, field);
    TruthyTextNonEmpty(v);
    if Truthy(v) then JsString(v) else fallback
  }
}
