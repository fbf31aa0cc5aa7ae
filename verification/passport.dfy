/**
 * config/passport.js: the verify callback of the Google strategy (find the
 * user by the profile's first email, or create one from the profile) and the
 * redirect the callback route sends with the issued token. The username
 * `generateFromEmail` draws is a parameter, as are the id the database assigns
 * and the clock.
 */
module Passport {
  import opened Base
  import Text
  import opened Tokens
  import opened UserModel
  import Gates

  const SuccessPath: string := "/login/success?token="

  /** `profile.name`: both parts may be missing. */
  datatype ProfileName = ProfileName(givenName: Option<string>, familyName: Option<string>)

  /**
   * The Google profile passport hands to the callback. A missing `emails` or
   * `photos` list is the empty list; a missing `name` is `None`.
   */
  datatype GoogleProfile = GoogleProfile(id: string, emails: seq<string>, name: Option<ProfileName>, photos: seq<string>)

  /** `done(err, false)` or `done(null, { user, token })`, with the user's id. */
  datatype Done = Failed | Authenticated(id: Id, user: User, token: string)

  datatype Outcome = Outcome(done: Done, users: Users)

  /**
   * `new User({...})` from a profile: None when building it throws, which is
   * when the profile has no name object or no photo.
   */
  function ProfileUser(p: GoogleProfile, username: string): (r: Option<User>)
    requires |p.emails| > 0
    ensures r.Some? <==> p.name.Some? && |p.photos| > 0
    ensures r.Some? ==>
      && Normalized(r.value)
      && r.value.googleId == Some(p.id)
      && r.value.email == NormalizeEmail(p.emails[0])
      && r.value.username == NormalizeUsername(username)
      && r.value.firstName == p.name.value.givenName.GetOr("")
      && r.value.lastName == p.name.value.familyName
      && r.value.profilePicture == p.photos[0]
      && r.value.isVerified
      && r.value.password.None?
  {
    if p.name.None? || |p.photos| == 0 then None
    else
      var u := NewUser(p.name.value.givenName, p.name.value.familyName, Some(username), Some(p.emails[0]));
      Some(u.(googleId := Some(p.id), profilePicture := p.photos[0], isVerified := true))
  }

  /** `jwt.sign({ id: user._id }, JWT_SECRET, { expiresIn: "1h" })`, printed. */
  function SessionToken(c: Codec, keys: Secrets, id: Id, now: Time): string
  {
    c.encode(Sign(keys.access, IdPayload(Some(id)), now, OneHour))
  }

  /**
   * The verify callback: a known first email yields the stored user untouched
   * and no write; an unknown one creates and saves the profile's user. Either
   * way the result carries a one-hour token for the user's id. A profile with
   * no email, a construction that throws and a save that fails all end in
   * `done(err, false)` with nothing written.
   */
  function GoogleVerify(c: Codec, keys: Secrets, users: Users, p: GoogleProfile, username: string,
                        newId: Id, now: Time): (r: Outcome)
    requires UniqueKeys(users) && newId !in users
    ensures |p.emails| == 0 ==> r == Outcome(Failed, users)
    ensures r.done.Failed? ==> r.users == users
    ensures |p.emails| > 0 && FindByEmail(users, p.emails[0]).Some? ==>
      var id := FindByEmail(users, p.emails[0]).value;
      r == Outcome(Authenticated(id, users[id], SessionToken(c, keys, id, now)), users)
    ensures |p.emails| > 0 && FindByEmail(users, p.emails[0]).None? ==>
      && (r.done.Authenticated? <==>
            ProfileUser(p, username).Some? && Save(users, newId, ProfileUser(p, username).value).Ok?)
      && (r.done.Authenticated? ==>
            && r.done.id == newId
            && r.done.user == ProfileUser(p, username).value
            && r.users == users[newId := r.done.user]
            && r.done.token == SessionToken(c, keys, newId, now))
    ensures r.done.Authenticated? ==> r.done.id in r.users && r.users[r.done.id] == r.done.user
    ensures r.done.Authenticated? ==> r.done.token == SessionToken(c, keys, r.done.id, now)
  {
    if |p.emails| == 0 then Outcome(Failed, users)
    else match FindByEmail(users, p.emails[0])
      case Some(id) => Outcome(Authenticated(id, users[id], SessionToken(c, keys, id, now)), users)
      case None =>
        match ProfileUser(p, username)
        case None => Outcome(Failed, users)
        case Some(u) =>
          match Save(users, newId, u)
          case Err(_) => Outcome(Failed, users)
          case Ok(m) => Outcome(Authenticated(newId, u, SessionToken(c, keys, newId, now)), m)
  }

  /** A successful callback leaves a consistent collection consistent, and its user is found by the email. */
  lemma GoogleVerifyKeepsConsistency(c: Codec, keys: Secrets, users: Users, p: GoogleProfile, username: string,
                                     newId: Id, now: Time)
    requires Consistent(users) && newId !in users
    requires GoogleVerify(c, keys, users, p, username, newId, now).done.Authenticated?
    ensures var r := GoogleVerify(c, keys, users, p, username, newId, now);
      && Consistent(r.users)
      && FindByEmail(r.users, p.emails[0]) == Some(r.done.id)
  {
    var r := GoogleVerify(c, keys, users, p, username, newId, now);
    if FindByEmail(users, p.emails[0]).None? {
      var u := ProfileUser(p, username).value;
      SavePreservesConsistency(users, newId, u);
      SavedUserFoundByEmail(users, newId, u, p.emails[0]);
    }
  }

  /**
   * The callback is idempotent on the email: a second sign-in with the same
   * profile finds the user the first one created, writes nothing and names the
   * same user.
   */
  lemma GoogleVerifyIdempotent(c: Codec, keys: Secrets, users: Users, p: GoogleProfile,
                               username1: string, username2: string, newId1: Id, newId2: Id, now1: Time, now2: Time)
    requires Consistent(users) && newId1 !in users
    requires GoogleVerify(c, keys, users, p, username1, newId1, now1).done.Authenticated?
    requires newId2 !in GoogleVerify(c, keys, users, p, username1, newId1, now1).users
    ensures var first := GoogleVerify(c, keys, users, p, username1, newId1, now1);
      && UniqueKeys(first.users)
      && var second := GoogleVerify(c, keys, first.users, p, username2, newId2, now2);
      && second.users == first.users
      && second.done == Authenticated(first.done.id, first.done.user, SessionToken(c, keys, first.done.id, now2))
  {
    GoogleVerifyKeepsConsistency(c, keys, users, p, username1, newId1, now1);
  }

  /**
   * The token a successful callback issues admits its user at
   * `authenticateToken` for one hour, and is refused with 403 afterwards.
   */
  lemma SessionTokenAdmitted(c: Codec, keys: Secrets, users: Users, p: GoogleProfile, username: string,
                             newId: Id, now: Time, later: Time)
    requires Faithful(c) && UniqueKeys(users) && newId !in users
    requires GoogleVerify(c, keys, users, p, username, newId, now).done.Authenticated?
    ensures var r := GoogleVerify(c, keys, users, p, username, newId, now);
      var header := Some(Gates.Header(Gates.BearerWord, r.done.token));
      && (later < now + OneHour ==> Gates.AuthenticateToken(c, keys, r.users, header, later) == Gates.Next(r.done.user))
      && (later >= now + OneHour ==> Gates.AuthenticateToken(c, keys, r.users, header, later) == Gates.Answer(403, Gates.InvalidToken))
  {
    var r := GoogleVerify(c, keys, users, p, username, newId, now);
    SessionTokenOfStored(c, keys, r.users, r.done.id, now, later);
  }

  /** A session token for a stored user, presented with "Bearer", is admitted for its hour. */
  lemma SessionTokenOfStored(c: Codec, keys: Secrets, users: Users, id: Id, now: Time, later: Time)
    requires Faithful(c) && id in users
    ensures var header := Some(Gates.Header(Gates.BearerWord, SessionToken(c, keys, id, now)));
      && (later < now + OneHour ==> Gates.AuthenticateToken(c, keys, users, header, later) == Gates.Next(users[id]))
      && (later >= now + OneHour ==> Gates.AuthenticateToken(c, keys, users, header, later) == Gates.Answer(403, Gates.InvalidToken))
  {
    var t := Sign(keys.access, IdPayload(Some(id)), now, OneHour);
    Gates.AccessTokenAdmitted(c, keys, users, t, Gates.BearerWord, later);
  }

  // ---------------------------------------------------------------------------
  // The callback route

  /** `${FRONTEND_URL}/login/success?token=${token}`; an unset variable prints as "undefined". */
  function RedirectUrl(frontend: Option<string>, token: string): string
  {
    Show(frontend) + SuccessPath + token
  }

  /** What the frontend reads back: the text after its own success path, when the URL has it. */
  function TokenOfRedirect(frontend: Option<string>, url: string): (r: Option<string>)
    ensures r.Some? <==> Text.StartsWith(url, Show(frontend) + SuccessPath)
    ensures r.Some? ==> url == Show(frontend) + SuccessPath + r.value
  {
    var prefix := Show(frontend) + SuccessPath;
    if Text.StartsWith(url, prefix) then
      assert url == url[..|prefix|] + url[|prefix|..];
      Some(url[|prefix|..])
    else None
  }

  /** The redirect delivers the token unchanged. */
  lemma RedirectCarriesToken(frontend: Option<string>, token: string)
    ensures TokenOfRedirect(frontend, RedirectUrl(frontend, token)) == Some(token)
  {
    var prefix := Show(frontend) + SuccessPath;
    var url := RedirectUrl(frontend, token);
    assert url[..|prefix|] == prefix;
    assert url[|prefix|..] == token;
  }
}
