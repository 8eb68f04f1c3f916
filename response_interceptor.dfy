/** The success envelope: whatever a handler returns is wrapped as
    `{ success: true, message, data }`, with defaults for a missing message
    or missing data. */
module ResponseInterceptor {
  import opened Common
  import opened Js

  const DefaultMessage: string := "요청에 성공했습니다."

  datatype Envelope = Envelope(success: bool, message: Value, data: Value)

  /** The envelope as the JSON object sent to the client. */
  function ToJson(e: Envelope): (v: Value)
    ensures v.Obj? && v.fields.Keys == {"success", "message", "data"}
    ensures v.fields["success"] == Bool(e.success)
    ensures v.fields["message"] == e.message && v.fields["data"] == e.data
  {
    Obj(map["success" := Bool(e.success), "message" := e.message, "data" := e.data])
  }

  /** `ResponseInterceptor.intercept` on the handler's value: reading
      `data.message` throws on undefined and null. */
  function Intercept(handled: Value): (r: Result<Envelope>)
    ensures r.Ok? <==> Readable(handled)
    ensures r.Err? ==> r.error == Exception(InternalServerError, TypeError)
    ensures r.Ok? ==> r.value.success
    ensures r.Ok? ==> Truthy(Get(handled, "message")) ==> r.value.message == Get(handled, "message")
    ensures r.Ok? ==> !Truthy(Get(handled, "message")) ==> r.value.message == Str(DefaultMessage)
    ensures r.Ok? ==> Truthy(Get(handled, "data")) ==> r.value.data == Get(handled, "data")
    ensures r.Ok? ==> !Truthy(Get(handled, "data")) ==> r.value.data == Obj(map[])
  {
    if !Readable(handled) then Err(Exception(InternalServerError, TypeError))
    else Ok(Envelope(true, Or(Get(handled, "message"), Str(DefaultMessage)), Or(Get(handled, "data"), Obj(map[]))))
  }

  /** An envelope always carries a truthy message and truthy data. */
  lemma EnvelopeFieldsTruthy(handled: Value)
    requires Intercept(handled).Ok?
    ensures Truthy(Intercept(handled).value.message) && Truthy(Intercept(handled).value.data)
  {
  }

  /** Wrapping is idempotent: an envelope sent through the interceptor again
      comes out unchanged. */
  lemma InterceptIdempotent(handled: Value)
    requires Intercept(handled).Ok?
    ensures Intercept(ToJson(Intercept(handled).value)) == Intercept(handled)
  {
    var e := Intercept(handled).value;
    EnvelopeFieldsTruthy(handled);
    assert Get(ToJson(e), "message") == e.message;
    assert Get(ToJson(e), "data") == e.data;
  }
}
