# A verified model of the group-server backend core

This project models the core of a NestJS community backend: users sign in
through Google, write posts and threaded comments, and create and join
communities. It models these parts:

- the two JWT guards (access token and refresh token) and the Google profile
  mapping;
- the interceptor that moves a token pair into cookies, the success envelope,
  and the HTTP exception filter;
- the services for sign-up, users, posts, comments and communities.

The ORM is replaced by in-memory tables: one `Table<T>` per model, with an
auto-increment key. A `$transaction` is one atomic step.

One module per source file:

| module | file | form |
|---|---|---|
| `Common`, `Js`, `Store`, `Passport`, `Express` | `common.dfy`, `js.dfy`, `store.dfy`, `passport.dfy`, `express.dfy` | shared vocabulary: exceptions, JavaScript values and truthiness, tables and the `Prisma` client class, the authentication middleware, the response object |
| `RefreshTokenStrategy` | `refresh_token_strategy.dfy` | pure functions over a read-only user table |
| `JwtStrategy` | `jwt_strategy.dfy` | pure functions over a read-only user table |
| `GoogleStrategy` | `google_strategy.dfy` | pure function |
| `AuthTokenInterceptor` | `auth_token_interceptor.dfy` | pure body shaping, plus a method that sets cookies on a `ServerResponse` |
| `ResponseInterceptor` | `response_interceptor.dfy` | pure functions |
| `HttpExceptionFilter` | `http_exception_filter.dfy` | pure message selection, plus a method that writes to a `ServerResponse` |
| `Auths`, `Users`, `Posts`, `Comments`, `Communities` | `auths_service.dfy`, `users_service.dfy`, `posts_service.dfy`, `comments_service.dfy`, `communities_service.dfy` | one service class each, over a shared `Prisma` object |

Each service method that writes follows the same shape:

- a pure function states the new table and the result, with the ordered
  error checks and "nothing else changes" in its contract;
- the class method has a field-granular `modifies` clause and is proved to
  end in exactly that state;
- lemmas relate several calls: idempotence, invariants kept, round trips.

Read-only service methods (the listings, `findOne`, `findAll`) are methods
without `modifies`. Their contracts state what they return.

Exceptions are `Exception(status, reason)`. The reason tag names the throw
site, so each contract says which check fired, not just which status came
back. A JavaScript `TypeError` (a property read on `null`, `undefined[0]`)
is modelled as a 500.

## Model

| member | source | states |
|---|---|---|
| Passport.Authenticate | src/auths/strategies/jwt.strategy.ts:25-29 | no or empty token: 401 before `validate`; a token that fails signature/expiry: 401; otherwise exactly `validate`'s result on the decoded payload |
| JwtStrategy.CookieExtractor | src/auths/strategies/jwt.strategy.ts:10-17 | the `accessToken` cookie when the request and its cookies exist, absent otherwise |
| JwtStrategy.Validate | src/auths/strategies/jwt.strategy.ts:34-55 | success iff the payload has a non-zero `sub` that is a stored user id, and the result is that stored row; missing payload/sub and unknown user are both 401 |
| JwtStrategy.Guard | src/auths/strategies/jwt.strategy.ts:20-61 | the `JwtAuthGuard` pipeline admits a request iff its `accessToken` cookie is non-empty, verifies, carries a non-zero subject, and that subject is a stored user id; the user admitted is that stored row |
| JwtStrategy.GuardRejectsOnlyUnauthorized | src/auths/strategies/jwt.strategy.ts:38-50 | every rejection of the whole access guard is a 401 |
| JwtStrategy.GuardAdmitsSubject | src/auths/strategies/jwt.strategy.ts:42-54 | an admitted request carries a verified token whose subject is stored, and the user returned is that row, with id equal to the subject |
| RefreshTokenStrategy.RefreshTokenExtractor | src/auths/strategies/refresh-token.strategy.ts:15-26 | the `refreshToken` cookie when the request and its cookies exist, absent otherwise |
| RefreshTokenStrategy.Validate | src/auths/strategies/refresh-token.strategy.ts:51-105 | success iff the subject is present, the user has a stored token, and the cookie equals it exactly; otherwise the first failing check decides: 401 payload, 403 revoked, TypeError without cookies, 401 missing cookie, 403 mismatch; success yields `{id: user.id}` |
| RefreshTokenStrategy.Guard | src/auths/strategies/refresh-token.strategy.ts:28-105 | the refresh guard pipeline (extractor, verification, `validate` with the same request) never rejects for a missing cookie or a missing cookie object: those checks are behind the extractor |
| RefreshTokenStrategy.GuardOutcomes | src/auths/strategies/refresh-token.strategy.ts:37-97 | behind the extractor the guard only answers 401 (no token, rejected token, bad payload) or 403 (revoked, mismatch); the cookie checks inside `validate` never fire |
| RefreshTokenStrategy.GuardAdmitsStoredToken | src/auths/strategies/refresh-token.strategy.ts:89-104 | the guard admits a request iff its cookie is exactly the token stored for the verified subject, and then returns that subject's id |
| RefreshTokenStrategy.RevokedUserNeverPasses | src/auths/strategies/refresh-token.strategy.ts:59-69 | a user without a stored token (or no such user) is never admitted, whatever cookie is presented |
| GoogleStrategy.Validate | src/auths/strategies/google.strategy.ts:19-40 | `done` is called exactly once with a null error and `{googleId: id, name: displayName, email: emails[0], image: photos[0]}`; an empty email or photo list throws |
| Express.ServerResponse.Cookie | src/common/auth-token.interceptor.ts:28-39 | appends exactly one `Set-Cookie` with the given name, value and options |
| Express.ServerResponse.Status | src/common/http-exception.filter.ts:24 | sets the status code |
| Express.ServerResponse.Json | src/common/http-exception.filter.ts:24-27 | sets the JSON body |
| AuthTokenInterceptor.Cookies | src/common/auth-token.interceptor.ts:24-39 | no cookie unless `data`, `accessToken` and `refreshToken` are truthy; then exactly two: access (httpOnly, `/`, 86 400 000 ms) and refresh (httpOnly, secure, `/auths/refresh`, 604 800 000 ms = 7 × access) carrying the two tokens |
| AuthTokenInterceptor.Body | src/common/auth-token.interceptor.ts:41-43 | with a token pair the body is `{data: user}` and has no other key; otherwise `data` unchanged |
| AuthTokenInterceptor.Intercept | src/common/auth-token.interceptor.ts:20-46 | a null/undefined handler value throws and sets nothing; otherwise the response gains exactly `Cookies(data)` and the result is `Body(data)` |
| AuthTokenInterceptor.TokensMoveToCookies | src/common/auth-token.interceptor.ts:26-41 | neither token appears in the body; the two cookie values are exactly the two tokens |
| ResponseInterceptor.ToJson | src/common/response.interceptor.ts:23-27 | the envelope object has exactly the keys `success`, `message`, `data` |
| ResponseInterceptor.Intercept | src/common/response.interceptor.ts:17-29 | `success` is true; `message` is the handler's if truthy, else the default text; `data` is the handler's if truthy, else `{}`; a null/undefined handler value throws |
| ResponseInterceptor.EnvelopeFieldsTruthy | src/common/response.interceptor.ts:25-26 | the envelope's message and data are always truthy |
| ResponseInterceptor.InterceptIdempotent | src/common/response.interceptor.ts:23-27 | wrapping an envelope again yields the same envelope |
| HttpExceptionFilter.SelectMessage | src/common/http-exception.filter.ts:16-22 | an object response gives its `.message`, any other response is the message itself; `null` (typeof 'object') throws |
| HttpExceptionFilter.ErrorBody | src/common/http-exception.filter.ts:24-27 | the body has exactly `statusCode` (the status) and `message` |
| HttpExceptionFilter.Catch | src/common/http-exception.filter.ts:10-28 | the status written equals the exception's status and equals the body's `statusCode`; the body carries the selected message; a null response writes nothing |
| HttpExceptionFilter.BuiltInExceptionMessage | src/common/http-exception.filter.ts:18-19 | for the framework's `{message, error, statusCode}` responses the message sent is the one the exception was built with |
| HttpExceptionFilter.Raised | src/common/http-exception.filter.ts:13-19 | an exception a service throws carries its status's code (400 to 599) as `getStatus()`, and the filter selects exactly the message it was thrown with |
| HttpExceptionFilter.CatchServiceException | src/common/http-exception.filter.ts:10-28 | a service exception is answered with its status's code and the body `{ statusCode: code, message }` |
| Auths.FindOrCreate | src/auths/auths.service.ts:9-29 | an unknown email adds exactly one row (email, name, image, no refresh token) under a fresh key with the sign-up message; a known email changes nothing and gives the "already registered" message; emails stay unique |
| Auths.FindOrCreateIdempotent | src/auths/auths.service.ts:10-28 | a second sign-up with the same email changes nothing |
| Auths.FindOrCreateAll | src/auths/auths.service.ts:9-29 | after any run of sign-ups, emails are still unique, no key is lost, and every email signed up is registered |
| Auths.FindOrCreateEachKeepsRows | src/auths/auths.service.ts:16-23 | sign-ups never change or remove an existing row |
| Auths.AuthsService.Create | src/auths/auths.service.ts:9-29 | the user table and message become those of `FindOrCreate` |
| Users.UpdateByEmail | src/users/users.service.ts:10-31 | success message iff the email exists; that row gets the given name/image (an omitted one is kept, a `null` one cleared), every other row and every email is unchanged, no key is added or removed |
| Users.RemoveById | src/users/users.service.ts:47-64 | success message iff the id exists; exactly that key is removed and every other row is unchanged |
| Users.RemoveAfterUpdate | src/users/users.service.ts:10-64 | removing a user and updating by email commute, for any id and any update |
| Users.UsersService.Update | src/users/users.service.ts:10-31 | table and message become those of `UpdateByEmail` |
| Users.UsersService.FindOne | src/users/users.service.ts:33-45 | data is present iff the email exists, and is then a stored row with that email and the success message; otherwise a message alone |
| Users.UsersService.Remove | src/users/users.service.ts:47-64 | table and message become those of `RemoveById` |
| Posts.AddPost | src/posts/posts.service.ts:14-28 | exactly one post added under a fresh key with the given title, content, author and community; others untouched |
| Posts.EditPost | src/posts/posts.service.ts:55-77 | unknown id: 400 and no change; otherwise only that post's title and content change and the updated row is returned |
| Posts.RemovePost | src/posts/posts.service.ts:79-97 | unknown id: 404 and no change; otherwise exactly that post is removed |
| Posts.CreateEditRemove | src/posts/posts.service.ts:14-97 | a created post can be edited (author and community kept) and removed, restoring the rows as before creation |
| Posts.PostsService.Create | src/posts/posts.service.ts:14-29 | always succeeds with the creation message; table becomes `AddPost` |
| Posts.PostsService.FindOne | src/posts/posts.service.ts:31-43 | 400 iff the id is unknown; otherwise that post with the found message |
| Posts.PostsService.FindAll | src/posts/posts.service.ts:45-53 | always the found message and data; the data holds every post exactly once (the "no posts" reply is unreachable) |
| Posts.PostsService.Update | src/posts/posts.service.ts:55-77 | table becomes `EditPost`'s; the reply carries the updated post |
| Posts.PostsService.Remove | src/posts/posts.service.ts:79-97 | table and result become `RemovePost`'s |
| Store.Select | src/comments/comments.service.ts:126-131 | the keys listed are exactly the rows matching the filter, each once, newest (highest key) first |
| Store.SelectCountsMatches | src/comments/comments.service.ts:109-135 | `count` with the filter equals the length of the unpaginated `findMany` |
| Comments.AddComment | src/comments/comments.service.ts:22-78 | 404 for a missing post first; for a truthy parent id, 404 if the parent is missing, then 404 if it belongs to another post; otherwise exactly one row with the text, post, author = user and the parent id |
| Comments.AddCommentKeepsThreads | src/comments/comments.service.ts:40-65 | creation keeps every reply under its parent's post and pointing at an older comment |
| Comments.EditComment | src/comments/comments.service.ts:221-265 | 404 if missing, then 403 if the user is not the author; otherwise only that comment's text changes |
| Comments.RemoveComment | src/comments/comments.service.ts:353-379 | 404 if missing, then 403 if not the author; otherwise exactly that comment is removed |
| Comments.OnlyAuthorChanges | src/comments/comments.service.ts:239-242 | any change by update or delete implies the comment exists and the caller is its author |
| Comments.EditAndRemoveKeepThreads | src/comments/comments.service.ts:244-247 | update and delete keep every reply under its parent's post |
| Comments.CeilDiv | src/comments/comments.service.ts:143 | `totalPages` is the least page count whose pages hold all items |
| Comments.Window | src/comments/comments.service.ts:129-130 | `skip`/`take`: the items from position `skip`, at most `take` of them, in order |
| Comments.Paged | src/comments/comments.service.ts:90-145 | the listing's `data`: `totalCount` is the full count, `page` and `limit` with their defaults 1 and 10, `totalPages` the least page count that holds every item, and the items are the consecutive run starting at `(page - 1) * limit`, at most `limit` of them |
| Comments.PageNonEmptyIff | src/comments/comments.service.ts:90-91 | a requested page is non-empty iff `page <= totalPages` |
| Comments.EveryItemOnItsPage | src/comments/comments.service.ts:90-143 | the i-th item appears on page `i / limit + 1`, which is at most `totalPages` |
| Comments.Matches | src/comments/comments.service.ts:104-134 | the listing holds exactly the matching comments, newest first, and its length is the `count` of the same filter |
| Comments.CommentsService.CreateComment | src/comments/comments.service.ts:22-78 | table and result become `AddComment`'s |
| Comments.CommentsService.GetCommentsByPostId | src/comments/comments.service.ts:86-146 | 404 iff the post is missing; otherwise the requested page of the post's top-level comments (defaults 1 and 10), each with its reply count, and `totalCount` = number of top-level comments of the post |
| Comments.CommentsService.GetRepliesByParentCommentId | src/comments/comments.service.ts:154-212 | 404 iff the parent is missing; otherwise the requested page of the comments whose parent is it, and their total count |
| Comments.CommentsService.GetCommentsAndRepliesByPostId | src/comments/comments.service.ts:273-346 | as the top-level listing, each item carrying all its replies and their count |
| Comments.CommentsService.UpdateComment | src/comments/comments.service.ts:221-265 | table becomes `EditComment`'s; the data is the updated comment with its reply count |
| Comments.CommentsService.DeleteComment | src/comments/comments.service.ts:353-379 | table and result become `RemoveComment`'s |
| Communities.FindRole | src/communities/communities.service.ts:52-54 | finds a role key iff a role has that name, and the role found has it |
| Communities.InsertRules | src/communities/communities.service.ts:66-68 | the given rules are added in order under consecutive fresh keys, bound to the community; existing rules untouched, and every new row belongs to that community |
| Communities.DeleteRulesOf | src/communities/communities.service.ts:119-121 | removes exactly the rules of that community |
| Communities.CreateCommunity | src/communities/communities.service.ts:21-95 | slug in use: 400; creator already has 3: 400; no admin role: 500; any failure changes no table; success adds one community (creator as only member), its rules (or none), and one (creator, admin) role grant; slugs stay unique |
| Communities.CreateKeepsCreatorLimit | src/communities/communities.service.ts:37-49 | if no user has created more than 3 communities, none has after a create |
| Communities.CreateTakesSlug | src/communities/communities.service.ts:25-35 | after a create, another create with the same slug is refused |
| Communities.UpdateCommunityAsWritten | src/communities/communities.service.ts:100-166 | unknown id: 404; `rules: null` throws a TypeError and changes nothing; otherwise as `UpdateCommunity` |
| Communities.UpdateCommunity | src/communities/communities.service.ts:100-166 | the corrected update. Unknown id: 404. Otherwise the description is patched (kept if omitted, NULL for `null`), role grants stay, omitted rules leave the rule table as it was, and given rules (or `null`, as `[]`) make the rule table exactly `InsertRules(DeleteRulesOf(rules, id), id, given)` |
| Communities.UpdateReplacesRules | src/communities/communities.service.ts:117-127 | an array of rules replaces the community's rules: afterwards it has exactly those, in order, under fresh keys, and no new rule row belongs to another community |
| Communities.NullRulesClear | src/communities/communities.service.ts:128-139 | with the correction, `rules: null` behaves as an empty array and leaves the community without rules |
| Communities.NullRulesThrowAsWritten | src/communities/communities.service.ts:118-127 | as written, `rules: null` on an existing community throws and changes nothing, where the corrected update succeeds |
| Communities.JoinCommunity | src/communities/communities.service.ts:219-249 | 400 for a missing community, then 400 if already a member; otherwise members become old members ∪ {user}, nothing else changes |
| Communities.JoinTwice | src/communities/communities.service.ts:229-235 | joining again is refused and changes nothing |
| Communities.CommunitiesService.Create | src/communities/communities.service.ts:21-95 | the three tables and the result become `CreateCommunity`'s, in one step |
| Communities.CommunitiesService.Update | src/communities/communities.service.ts:100-166 | community and rule tables become `UpdateCommunityAsWritten`'s, so `rules: null` throws and writes nothing; the reply carries the updated community |
| Communities.CommunitiesService.FindAll | src/communities/communities.service.ts:171-173 | every community exactly once |
| Communities.CommunitiesService.FindOne | src/communities/communities.service.ts:180-212 | 400 iff the id is unknown; otherwise the community (with its members) and exactly its role grants, each once |
| Communities.CommunitiesService.Join | src/communities/communities.service.ts:219-249 | table and result become `JoinCommunity`'s |

## Left out

- JWT signing, signature and expiry checks, and the secret lookup: verification is an input (`Verified(payload)` or `Rejected`).
- Token issuance, logout and password login: the controllers call them, but the services shown do not implement them.
- The Google OAuth handshake and client configuration: external I/O.
- Controllers, module wiring, bootstrap, Swagger, the skip-response metadata and logging (including the `console.log` calls in the refresh strategy): routing and output only.
- `src/users/dto/update-user.dto.ts` is not part of this model. `UpdateUserDto` is inferred from the fields the service reads (`email`, `name`, `image`).
- Comments.Paged: page ≥ 1 and limit ≥ 1 (the `QueryOk` precondition, also on the three listings) are the model's own restriction, not the program's. The controller declares the query as a plain type literal (src/comments/comments.controller.ts:47, 59, 71), so the validation pipe checks nothing. `QueryCommentDto`, which carries `@Min(1)`, `@Max(100)` and the number conversion, is not used anywhere. Outside that range the source (src/comments/comments.service.ts:90-91, 130, 141) behaves as follows:
  - page ≤ 0 gives a negative `skip`, which the store refuses;
  - limit 0 gives `take: 0`, and `totalPages` becomes `Infinity` or `NaN`;
  - a limit over 100 is not rejected;
  - the pipe runs without `transform` (src/main.ts:10), so a client-supplied `limit` reaches `take` as a string, and `page` is echoed back as a string; the model takes both as integers.
- Other DTO validators: only their effect on the modelled inputs is kept.
- ORM internals: foreign keys, cascades and uniqueness are enforced only where the service code checks them.
  - A reply may point at a deleted parent.
  - A join may name a user id with no row.
  - The schema's behaviour on deleting a comment that has replies is not modelled.
- `createdAt`: "newest first" is highest key first. Rows created at the same instant are not distinguished.
- `Math.ceil` on floating point: replaced by integer ceiling division, which agrees for every count below 2^53.
- The generic `Error` rethrown when the community update fails in the store.
- Async scheduling and concurrent requests, for example two refreshes racing.
- NaN and fractional numbers: JavaScript numbers are integers here.
- Comments.CommentsService.CreateComment: the `author { id, name, image }` include is not returned.
- Comments.CommentsService.GetCommentsByPostId: each listed comment is returned without its `author { id, name, image }` include.
- Comments.CommentsService.GetRepliesByParentCommentId: each reply is returned without its `author` include.
- Comments.CommentsService.GetCommentsAndRepliesByPostId: the comments and their nested replies are returned without their `author` includes.
- Comments.CommentsService.UpdateComment: the `author` include is not returned.
- Comments.CommentsService.GetCommentsAndRepliesByPostId: the source gives no order for the nested replies. The model lists them newest first and states only their contents and count.
- Communities.CommunitiesService.Update: the returned data leaves out the included `rules` list.
- Communities.UpdateCommunity: only `description` is modelled among the scalar fields. The source spreads the whole body, so other keys sent by a client would also be written.
- Communities.CommunitiesService.FindOne: role grants are returned as rows, without the included user name, role name and permissions.
- Communities.InsertRules: the optional `id` and `communityId` fields of a rule in the request are not modelled. Every rule is bound to the community being written.

## Findings

| source | as written | input that shows it | evidently intended | confidence | as-written member | corrected member |
|---|---|---|---|---|---|---|
| src/communities/communities.service.ts:118-139 | `dtoRules !== undefined` holds for `null`, so `dtoRules.map` runs on `null` and throws a TypeError (a 500). The branch meant for `null` (lines 131-138) is unreachable for it. | `update(id, { rules: null })` for an existing community `id` | `null` clears the community's rules, as an empty array does (comment at lines 129-130) | high; not executed | Communities.NullRulesThrowAsWritten | Communities.NullRulesClear |

`Communities.CommunitiesService.Update` runs the code as written, through
`Communities.UpdateCommunityAsWritten`. `Communities.UpdateCommunity` is the
corrected update: the as-written function delegates to it for every input
except `rules: null`.
