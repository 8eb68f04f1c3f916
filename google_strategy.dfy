/** The Google OAuth strategy's `validate`: the profile the provider returned
    becomes a user record handed to the `done` callback. The OAuth handshake
    is outside this model; nothing here reads or writes the user table. */
module GoogleStrategy {
  import opened Common

  /** The fields of the provider's profile that are read; `emails` and
      `photos` hold the `value` of each entry. */
  datatype Profile = Profile(id: string, displayName: string, emails: seq<string>, photos: seq<string>)

  datatype GoogleUser = GoogleUser(googleId: string, name: string, email: string, image: string)

  /** One invocation of the `done(error, user)` callback; `error` is null here. */
  datatype DoneCall = DoneCall(error: Option<string>, user: GoogleUser)

  /** What `validate` does: the callback invocations it makes, or the
      TypeError `emails[0].value` / `photos[0].value` throws on an empty list. */
  function Validate(profile: Profile): (r: Result<seq<DoneCall>>)
    ensures r.Ok? <==> |profile.emails| > 0 && |profile.photos| > 0
    ensures r.Err? ==> r.error == Exception(InternalServerError, TypeError)
    ensures r.Ok? ==> |r.value| == 1 && r.value[0].error.None?
    ensures r.Ok? ==> var u := r.value[0].user;
      && u.googleId == profile.id
      && u.name == profile.displayName
      && u.email == profile.emails[0]
      && u.image == profile.photos[0]
  {
    if |profile.emails| == 0 || |profile.photos| == 0 then
      Err(Exception(InternalServerError, TypeError))
    else
      var user := GoogleUser(profile.id, profile.displayName, profile.emails[0], profile.photos[0]);
      Ok([DoneCall(None, user)])
  }
}
