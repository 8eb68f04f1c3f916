/** The access-token guard: the `accessToken` cookie is read, verified by the
    middleware, and `validate` turns the payload into the stored user. It only
    reads the user table, which it receives as a value. */
module JwtStrategy {
  import opened Common
  import opened Passport
  import opened Store

  const AccessCookie: string := "accessToken"

  /** `cookieExtractor`: the `accessToken` cookie when the request and its cookies exist. */
  function CookieExtractor(req: Option<Request>): (token: Option<string>)
    ensures req.None? || req.value.cookies.None? ==> token.None?
    ensures req.Some? && req.value.cookies.Some? ==>
      (token.Some? <==> AccessCookie in req.value.cookies.value)
    ensures token.Some? ==> token.value == req.value.cookies.value[AccessCookie]
  {
    CookieValue(req, AccessCookie)
  }

  /** `JwtStrategy.validate`: the stored user whose id is the payload's subject. */
  function Validate(payload: Option<Payload>, users: map<int, User>): (r: Result<User>)
    ensures r.Ok? <==> HasSubject(payload) && payload.value.sub.value in users
    ensures r.Ok? ==> r.value == users[payload.value.sub.value]
    ensures !HasSubject(payload) ==> r == Err(Exception(Unauthorized, InvalidPayload))
    ensures HasSubject(payload) && payload.value.sub.value !in users ==>
      r == Err(Exception(Unauthorized, UserNotFound))
  {
    if !HasSubject(payload) then
      Err(Exception(Unauthorized, InvalidPayload))
    else if payload.value.sub.value !in users then
      Err(Exception(Unauthorized, UserNotFound))
    else
      Ok(users[payload.value.sub.value])
  }

  /** The whole guard on one request: extract, verify, validate. It admits a
      request exactly when its cookie verifies to a subject that is stored,
      and then yields that user's row. */
  function Guard(req: Option<Request>, verify: string -> Verification, users: map<int, User>): (r: Result<User>)
    ensures r.Ok? <==>
      && Filled(CookieExtractor(req))
      && verify(CookieExtractor(req).value).Verified?
      && HasSubject(verify(CookieExtractor(req).value).payload)
      && verify(CookieExtractor(req).value).payload.value.sub.value in users
    ensures r.Ok? ==> r.value == users[verify(CookieExtractor(req).value).payload.value.sub.value]
  {
    Authenticate(CookieExtractor(req), verify, (p: Option<Payload>) => Validate(p, users))
  }

  /** Every rejection of the access guard, whichever check fails, is a 401. */
  lemma GuardRejectsOnlyUnauthorized(req: Option<Request>, verify: string -> Verification, users: map<int, User>)
    ensures Guard(req, verify, users).Err? ==> Guard(req, verify, users).error.status == Unauthorized
  {
  }

  /** The user the guard admits is the stored row of the token's subject, and
      that row's id is the subject. */
  lemma GuardAdmitsSubject(req: Option<Request>, verify: string -> Verification, users: Table<User>)
    requires UsersValid(users)
    requires Guard(req, verify, users.rows).Ok?
    ensures var token := CookieExtractor(req);
      && Filled(token)
      && verify(token.value).Verified?
      && var sub := verify(token.value).payload.value.sub.value;
         sub in users.rows && Guard(req, verify, users.rows).value == users.rows[sub]
         && Guard(req, verify, users.rows).value.id == sub
  {
    var token := CookieExtractor(req);
    var sub := verify(token.value).payload.value.sub.value;
    assert users.rows[sub].id == sub;
  }
}
