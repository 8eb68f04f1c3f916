/** Shared vocabulary of the services: optional values, the framework's HTTP
    exceptions, and the `{ message, data }` objects the services return. */
module Common {

  datatype Option<+T> = None | Some(value: T)

  /** The exception classes of the web framework that the services throw. */
  datatype HttpStatus = BadRequest | Unauthorized | Forbidden | NotFound | InternalServerError
  {
    function Code(): (c: int)
      ensures 400 <= c < 600
      ensures c < 500 <==> !InternalServerError?
    {
      match this
      case BadRequest => 400
      case Unauthorized => 401
      case Forbidden => 403
      case NotFound => 404
      case InternalServerError => 500
    }

    /** The `error` text the framework puts beside the message. */
    function Name(): string
    {
      match this
      case BadRequest => "Bad Request"
      case Unauthorized => "Unauthorized"
      case Forbidden => "Forbidden"
      case NotFound => "Not Found"
      case InternalServerError => "Internal Server Error"
    }
  }

  /** Which throw site raised an exception (one tag per `throw` in the services and guards). */
  datatype Reason =
    | InvalidPayload            // access/refresh guard: payload or `sub` falsy
    | UserNotFound              // access guard: no user with id `sub`
    | NoStoredRefreshToken      // refresh guard: user gone or stored token falsy (revoked)
    | NoRefreshCookie           // refresh guard: cookie absent at validation time
    | RefreshTokenMismatch      // refresh guard: presented token differs from the stored one
    | NoAuthToken               // passport: the extractor found no token
    | TokenRejected             // passport: signature or expiry check failed
    | PostNotFound(postId: int)
    | CommentNotFound(commentId: int)
    | ParentNotInPost(parentId: int, postId: int)
    | NotAuthor
    | SlugInUse(slug: string)
    | CommunityLimitReached
    | AdminRoleMissing
    | CommunityMissing          // communities.update
    | NoSuchCommunity           // communities.findOne / join
    | AlreadyMember
    | PostMissing               // posts.findOne / update / remove
    | TypeError                 // a JavaScript TypeError the framework turns into a 500

  datatype Exception = Exception(status: HttpStatus, reason: Reason)

  /** A service call either returns a value or throws an exception. */
  datatype Result<+T> = Ok(value: T) | Err(error: Exception)

  /** A key of an update body that validation lets be left out: absent,
      `null`, or a value. */
  datatype Patch<T> = Omitted | Null | Given(value: T)

  /** A nullable column after a patch: unchanged when the key is left out,
      NULL for `null`, the value otherwise. */
  function Patched(current: Option<string>, p: Patch<string>): (r: Option<string>)
    ensures p.Omitted? ==> r == current
    ensures p.Null? ==> r.None?
    ensures p.Given? ==> r == Some(p.value)
  {
    match p
    case Omitted => current
    case Null => None
    case Given(v) => Some(v)
  }

  /** The `{ message, data }` object a service returns; either key may be absent. */
  datatype Reply<+T> = Reply(message: Option<string>, data: Option<T>)

  /** A message-only reply, `{ message }`. */
  function Say<T>(message: string): Reply<T>
  {
    Reply(Some(message), None)
  }
}
