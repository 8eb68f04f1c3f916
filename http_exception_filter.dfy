/** The exception filter: an HTTP exception becomes a response with the
    exception's status and a `{ statusCode, message }` body. */
module HttpExceptionFilter {
  import opened Common
  import opened Js
  import opened Express

  /** An HTTP exception: its status and the response value it was built with
      (`getStatus()` and `getResponse()`). */
  datatype HttpException = HttpException(status: int, response: Value)

  /** Lines choosing `message`: the `.message` of an object response, the
      response itself otherwise. `typeof null` is 'object', so a null response
      throws a TypeError (the absent result). */
  function SelectMessage(response: Value): (m: Option<Value>)
    ensures m.None? <==> response.Null?
    ensures IsObject(response) && !response.Null? ==> m == Some(Get(response, "message"))
    ensures !IsObject(response) ==> m == Some(response)
  {
    if IsObject(response) then
      if response.Null? then None else Some(Get(response, "message"))
    else Some(response)
  }

  /** The exception a service throws, as the framework builds it:
      `new NotFoundException(message)` has the status's code and the response
      `{ message, error, statusCode }`. A JavaScript TypeError is not an HTTP
      exception and never reaches this filter. */
  function Raised(e: Exception, message: string): (x: HttpException)
    requires e.reason != TypeError
    ensures x.status == e.status.Code() && 400 <= x.status < 600
    ensures SelectMessage(x.response) == Some(Str(message))
  {
    var code := e.status.Code();
    HttpException(code, Obj(map["message" := Str(message), "error" := Str(e.status.Name()), "statusCode" := Num(code)]))
  }

  function ErrorBody(status: int, message: Value): (v: Value)
    ensures v.Obj? && v.fields.Keys == {"statusCode", "message"}
    ensures v.fields["statusCode"] == Num(status) && v.fields["message"] == message
  {
    Obj(map["statusCode" := Num(status), "message" := message])
  }

  /** `HttpExceptionFilter.catch`: status and body are written together, or,
      when the message read throws, not at all. */
  method Catch(exception: HttpException, response: ServerResponse) returns (written: bool)
    modifies response`statusCode, response`body
    ensures written <==> !exception.response.Null?
    ensures written ==> response.statusCode == exception.status
    ensures written ==> response.body == Some(ErrorBody(exception.status, SelectMessage(exception.response).value))
    ensures !written ==> response.statusCode == old(response.statusCode) && response.body == old(response.body)
  {
    var message := SelectMessage(exception.response);
    if message.None? {
      return false;
    }
    response.Status(exception.status);
    response.Json(ErrorBody(exception.status, message.value));
    written := true;
  }

  /** An exception thrown by a service reaches the client as its status's code
      and the message it was thrown with, and nothing else. */
  method CatchServiceException(e: Exception, message: string, response: ServerResponse)
    requires e.reason != TypeError
    modifies response`statusCode, response`body
    ensures response.statusCode == e.status.Code()
    ensures response.body == Some(Obj(map["statusCode" := Num(e.status.Code()), "message" := Str(message)]))
  {
    var written := Catch(Raised(e, message), response);
  }

  /** The framework's own exceptions are built with `{ message, error, statusCode }`;
      for them the body carries exactly the message they were built with. */
  lemma BuiltInExceptionMessage(status: int, message: string, error: string)
    ensures var response := Obj(map["message" := Str(message), "error" := Str(error), "statusCode" := Num(status)]);
      SelectMessage(response) == Some(Str(message))
  {
  }
}
