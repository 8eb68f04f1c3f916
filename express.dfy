/** The part of the HTTP response object that the interceptor and the
    exception filter write: the status, the `Set-Cookie` list, the JSON body. */
module Express {
  import opened Common
  import opened Js

  /** Options of `response.cookie`; an option left out reads as false. */
  datatype CookieOptions = CookieOptions(httpOnly: bool, secure: bool, path: string, maxAge: int)

  datatype SetCookie = SetCookie(name: string, value: Value, options: CookieOptions)

  class ServerResponse {
    var statusCode: int
    var cookies: seq<SetCookie>
    var body: Option<Value>

    constructor ()
      ensures statusCode == 200 && cookies == [] && body == None
    {
      statusCode, cookies, body := 200, [], None;
    }

    /** `response.cookie(name, value, options)` */
    method Cookie(name: string, value: Value, options: CookieOptions)
      modifies this`cookies
      ensures cookies == old(cookies) + [SetCookie(name, value, options)]
    {
      cookies := cookies + [SetCookie(name, value, options)];
    }

    /** `response.status(code)` */
    method Status(code: int)
      modifies this`statusCode
      ensures statusCode == code
    {
      statusCode := code;
    }

    /** `response.json(v)` */
    method Json(v: Value)
      modifies this`body
      ensures body == Some(v)
    {
      body := Some(v);
    }
  }
}
