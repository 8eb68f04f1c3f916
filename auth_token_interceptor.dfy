/** The interceptor on the login and refresh routes: when the handler's `data`
    carries a token pair, the two tokens leave the body and become cookies. */
module AuthTokenInterceptor {
  import opened Common
  import opened Js
  import opened Express

  const Day: int := 1000 * 60 * 60 * 24

  /** The access cookie: readable on every path for one day. */
  const AccessCookieOptions: CookieOptions := CookieOptions(httpOnly := true, secure := false, path := "/", maxAge := Day)

  /** The refresh cookie: HTTPS only, sent to the refresh route only, for seven days. */
  const RefreshCookieOptions: CookieOptions :=
    CookieOptions(httpOnly := true, secure := true, path := "/auths/refresh", maxAge := 7 * Day)

  /** `data && data.accessToken && data.refreshToken` */
  predicate CarriesTokens(data: Value)
  {
    Truthy(data) && Truthy(Get(data, "accessToken")) && Truthy(Get(data, "refreshToken"))
  }

  /** The cookies the interceptor sets for the handler's `data`. */
  function Cookies(data: Value): (cs: seq<SetCookie>)
    requires Readable(data)
    ensures !CarriesTokens(data) ==> cs == []
    ensures CarriesTokens(data) ==> |cs| == 2
    ensures CarriesTokens(data) ==>
      && cs[0].name == "accessToken" && cs[0].value == Get(data, "accessToken")
      && cs[0].options.httpOnly && !cs[0].options.secure && cs[0].options.path == "/" && cs[0].options.maxAge == 86_400_000
    ensures CarriesTokens(data) ==>
      && cs[1].name == "refreshToken" && cs[1].value == Get(data, "refreshToken")
      && cs[1].options.httpOnly && cs[1].options.secure
      && cs[1].options.path == "/auths/refresh" && cs[1].options.maxAge == 604_800_000
      && cs[1].options.maxAge == 7 * cs[0].options.maxAge
  {
    if CarriesTokens(data) then
      [SetCookie("accessToken", Get(data, "accessToken"), AccessCookieOptions),
       SetCookie("refreshToken", Get(data, "refreshToken"), RefreshCookieOptions)]
    else []
  }

  /** The value the interceptor passes on for the handler's `data`. */
  function Body(data: Value): (b: Value)
    requires Readable(data)
    ensures CarriesTokens(data) ==> b.Obj? && b.fields.Keys == {"data"} && b.fields["data"] == Get(data, "user")
    ensures !CarriesTokens(data) ==> b == data
  {
    if CarriesTokens(data) then Obj(map["data" := Get(data, "user")]) else data
  }

  /** `AuthTokenInterceptor.intercept` on the handler's value `handled`: the
      `({ data })` destructuring throws on undefined and null; otherwise the
      cookies go onto the response and the body is passed on. */
  method Intercept(handled: Value, response: ServerResponse) returns (r: Result<Value>)
    modifies response`cookies
    ensures !Readable(handled) ==>
      r == Err(Exception(InternalServerError, TypeError)) && response.cookies == old(response.cookies)
    ensures Readable(handled) ==>
      var data := Get(handled, "data");
      && (!Readable(data) ==> r == Ok(data) && response.cookies == old(response.cookies))
      && (Readable(data) ==> r == Ok(Body(data)) && response.cookies == old(response.cookies) + Cookies(data))
  {
    if !Readable(handled) {
      return Err(Exception(InternalServerError, TypeError));
    }
    var data := Get(handled, "data");
    if Readable(data) && CarriesTokens(data) {
      response.Cookie("accessToken", Get(data, "accessToken"), AccessCookieOptions);
      response.Cookie("refreshToken", Get(data, "refreshToken"), RefreshCookieOptions);
      r := Ok(Obj(map["data" := Get(data, "user")]));
    } else {
      r := Ok(data);
    }
  }

  /** A token pair never reaches the client in the body: the body that follows
      a pair is `{ data: user }` alone, and the two tokens are exactly the two
      cookie values. */
  lemma TokensMoveToCookies(data: Value)
    requires Readable(data) && CarriesTokens(data)
    ensures "accessToken" !in Body(data).fields && "refreshToken" !in Body(data).fields
    ensures [Cookies(data)[0].value, Cookies(data)[1].value] == [Get(data, "accessToken"), Get(data, "refreshToken")]
  {
  }
}
