/** What the two JWT strategies receive from the authentication middleware:
    the request's parsed cookies, and the outcome of token verification,
    which is taken as an input (signature, expiry and the secret are not
    modelled). */
module Passport {
  import opened Common

  /** An incoming request; `cookies` is absent when no cookie parser filled it in. */
  datatype Request = Request(cookies: Option<map<string, string>>)

  /** A decoded JWT payload; `sub` is the user-id claim. */
  datatype Payload = Payload(sub: Option<int>)

  /** Verification of an extracted token: the decoded payload (absent when the
      token carries none), or a rejection for a bad signature or an expired token. */
  datatype Verification = Verified(payload: Option<Payload>) | Rejected

  /** `req && req.cookies ? req.cookies[name] : null`; a missing cookie reads as absent. */
  function CookieValue(req: Option<Request>, name: string): (token: Option<string>)
    ensures token.Some? <==>
      req.Some? && req.value.cookies.Some? && name in req.value.cookies.value
    ensures token.Some? ==> token.value == req.value.cookies.value[name]
  {
    if req.Some? && req.value.cookies.Some? && name in req.value.cookies.value
    then Some(req.value.cookies.value[name])
    else None
  }

  /** A string that `if (s)` accepts: present and not empty. */
  predicate Filled(s: Option<string>)
  {
    s.Some? && s.value != ""
  }

  /** The negation of `!payload || !payload.sub`: a payload with a non-zero subject. */
  predicate HasSubject(payload: Option<Payload>)
  {
    payload.Some? && payload.value.sub.Some? && payload.value.sub.value != 0
  }

  /** The middleware around a strategy's `validate`: no token, or a token that
      fails verification, is a 401 before `validate` runs; otherwise the
      outcome is `validate`'s. */
  function Authenticate<T>(token: Option<string>, verify: string -> Verification,
                           validate: Option<Payload> -> Result<T>): (r: Result<T>)
    ensures !Filled(token) ==> r == Err(Exception(Unauthorized, NoAuthToken))
    ensures Filled(token) && verify(token.value).Rejected? ==> r == Err(Exception(Unauthorized, TokenRejected))
    ensures Filled(token) && verify(token.value).Verified? ==> r == validate(verify(token.value).payload)
  {
    if !Filled(token) then Err(Exception(Unauthorized, NoAuthToken))
    else match verify(token.value)
      case Rejected => Err(Exception(Unauthorized, TokenRejected))
      case Verified(payload) => validate(payload)
  }
}
