/** The refresh-token guard: the `refreshToken` cookie is read and verified by
    the middleware, then `validate` checks, in order, the payload, the token
    stored for the user (server-side revocation), the cookie, and exact
    equality of the two token strings. It only reads the user table, which it
    receives as a value, so a mismatch does not revoke anything. */
module RefreshTokenStrategy {
  import opened Common
  import opened Passport
  import opened Store

  const RefreshCookie: string := "refreshToken"

  /** What `validate` hands to the route on success: `{ id }`. */
  datatype Principal = Principal(id: int)

  /** `refreshTokenExtractor`: the `refreshToken` cookie when the request and its cookies exist. */
  function RefreshTokenExtractor(req: Option<Request>): (token: Option<string>)
    ensures req.None? || req.value.cookies.None? ==> token.None?
    ensures req.Some? && req.value.cookies.Some? ==>
      (token.Some? <==> RefreshCookie in req.value.cookies.value)
    ensures token.Some? ==> token.value == req.value.cookies.value[RefreshCookie]
  {
    CookieValue(req, RefreshCookie)
  }

  /** The token stored for the user, when `!user || !user.refreshToken` is false. */
  predicate Active(users: map<int, User>, id: int)
  {
    id in users && Filled(users[id].refreshToken)
  }

  /** The cookie `validate` reads again from the request (`req.cookies['refreshToken']`). */
  function Presented(req: Request): Option<string>
    requires req.cookies.Some?
  {
    if RefreshCookie in req.cookies.value then Some(req.cookies.value[RefreshCookie]) else None
  }

  /** `RefreshJwtStrategy.validate`. The first failing check decides the error:
      401 for the payload, 403 for a revoked or missing session, a TypeError
      when the request has no cookie object, 401 for a missing cookie, 403 for
      a token that is not the stored one. */
  function Validate(req: Request, payload: Option<Payload>, users: map<int, User>): (r: Result<Principal>)
    // success exactly when the presented cookie is, character for character, the stored token
    ensures r.Ok? <==>
      && HasSubject(payload)
      && Active(users, payload.value.sub.value)
      && req.cookies.Some?
      && Filled(Presented(req))
      && Presented(req) == users[payload.value.sub.value].refreshToken
    ensures r.Ok? ==> r == Ok(Principal(users[payload.value.sub.value].id))
    // 1. payload
    ensures !HasSubject(payload) ==> r == Err(Exception(Unauthorized, InvalidPayload))
    // 2. revocation: no user, or no stored token, whatever cookie is presented
    ensures HasSubject(payload) && !Active(users, payload.value.sub.value) ==>
      r == Err(Exception(Forbidden, NoStoredRefreshToken))
    // 3. cookie presence
    ensures HasSubject(payload) && Active(users, payload.value.sub.value) && req.cookies.None? ==>
      r == Err(Exception(InternalServerError, TypeError))
    ensures (HasSubject(payload) && Active(users, payload.value.sub.value) && req.cookies.Some?
             && !Filled(Presented(req))) ==>
      r == Err(Exception(Unauthorized, NoRefreshCookie))
    // 4. equality: a stale or reused token
    ensures (HasSubject(payload) && Active(users, payload.value.sub.value) && req.cookies.Some?
             && Filled(Presented(req)) && Presented(req) != users[payload.value.sub.value].refreshToken) ==>
      r == Err(Exception(Forbidden, RefreshTokenMismatch))
  {
    if !HasSubject(payload) then
      Err(Exception(Unauthorized, InvalidPayload))
    else
      var userId := payload.value.sub.value;
      if !Active(users, userId) then
        Err(Exception(Forbidden, NoStoredRefreshToken))
      else if req.cookies.None? then
        Err(Exception(InternalServerError, TypeError))
      else
        var fromCookie := Presented(req);
        if !Filled(fromCookie) then
          Err(Exception(Unauthorized, NoRefreshCookie))
        else if fromCookie != users[userId].refreshToken then
          Err(Exception(Forbidden, RefreshTokenMismatch))
        else
          Ok(Principal(users[userId].id))
  }

  /** The whole guard on one request: extract, verify, validate with the same
      request. The extractor already found the cookie, so the cookie checks
      inside `validate` never reject. */
  function Guard(req: Request, verify: string -> Verification, users: map<int, User>): (r: Result<Principal>)
    ensures r.Err? ==> r.error.reason != NoRefreshCookie && r.error.reason != TypeError
  {
    var token := RefreshTokenExtractor(Some(req));
    assert Filled(token) ==> req.cookies.Some? && Presented(req) == token;
    Authenticate(token, verify, (p: Option<Payload>) => Validate(req, p, users))
  }

  /** Behind the extractor, `validate`'s own cookie checks never fire: the
      guard only ever answers 401 for a missing, rejected or subject-less
      token and 403 for a revoked or mismatched one. */
  lemma GuardOutcomes(req: Request, verify: string -> Verification, users: map<int, User>)
    ensures var r := Guard(req, verify, users);
      r.Err? ==> r.error in {
        Exception(Unauthorized, NoAuthToken),
        Exception(Unauthorized, TokenRejected),
        Exception(Unauthorized, InvalidPayload),
        Exception(Forbidden, NoStoredRefreshToken),
        Exception(Forbidden, RefreshTokenMismatch)}
  {
    var token := RefreshTokenExtractor(Some(req));
    if Filled(token) && verify(token.value).Verified? {
      assert req.cookies.Some? && Presented(req) == token;
    }
  }

  /** The guard admits a request exactly when its cookie is the token stored
      for the verified subject, and then yields that subject's id. */
  lemma GuardAdmitsStoredToken(req: Request, verify: string -> Verification, users: Table<User>)
    requires UsersValid(users)
    ensures var r := Guard(req, verify, users.rows);
      var token := RefreshTokenExtractor(Some(req));
      r.Ok? <==>
        && Filled(token)
        && verify(token.value).Verified?
        && HasSubject(verify(token.value).payload)
        && var sub := verify(token.value).payload.value.sub.value;
           Active(users.rows, sub) && token == users.rows[sub].refreshToken
    ensures var r := Guard(req, verify, users.rows);
      r.Ok? ==> r.value.id == verify(RefreshTokenExtractor(Some(req)).value).payload.value.sub.value
  {
    var token := RefreshTokenExtractor(Some(req));
    if Filled(token) && verify(token.value).Verified? {
      assert req.cookies.Some? && Presented(req) == token;
      var p := verify(token.value).payload;
      if HasSubject(p) && Active(users.rows, p.value.sub.value) {
        assert users.rows[p.value.sub.value].id == p.value.sub.value;
      }
    }
  }

  /** Server-side revocation: once the stored token of a user is cleared, no
      request whatsoever passes the guard for that user. */
  lemma RevokedUserNeverPasses(req: Request, verify: string -> Verification, users: Table<User>, id: int)
    requires UsersValid(users)
    requires !Active(users.rows, id)
    ensures var r := Guard(req, verify, users.rows);
      r.Ok? ==> r.value.id != id
  {
    GuardAdmitsStoredToken(req, verify, users);
  }
}
