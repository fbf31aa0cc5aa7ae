/**
 * controllers/userController.js: Google sign-in, sign-up, login, refresh and
 * profile update over the user collection. Each handler maps the collection
 * and the request to the reply and the new collection. Signing goes through
 * the token `Codec`, hashing through the `Hasher`; the random username suffix,
 * the bcrypt salt, the id the database assigns and the clock are parameters.
 */
module UserController {
  import opened Base
  import Text
  import opened Tokens
  import opened UserModel
  import opened Hashing

  const GoogleTokenRequired: string := "Google token is required"
  const InvalidGoogleToken: string := "Invalid Google token"
  const InternalError: string := "Internal server error"
  const InvalidCredentials: string := "Invalid email or password"
  const RefreshTokenRequired: string := "Refresh token required"
  const InvalidRefreshToken: string := "Invalid refresh token"
  const UserNotFound: string := "User not found"

  /** Why a handler's catch block answered 500 with the thrown error's message. */
  datatype Cause = NoPassword | Invalid | Duplicate | NoCaller

  /** The reply bodies of the user handlers. */
  datatype Body =
    | Msg(message: string)
    | Failed(cause: Cause)
    | TokenGrant(accessToken: string, refreshToken: string)
    | Created(id: Id, profile: User, token: string)
    | LoginGrant(id: Id, firstName: string, lastName: Option<string>, email: string,
                 accessToken: string, refreshToken: string)
    | AccessGrant(accessToken: string)
    | Profile(id: Id, profile: User)

  /** A handler's reply and the collection after it. */
  datatype Outcome = Outcome(reply: Reply<Body>, users: Users)

  /** A record as it may be shown: no password hash, refresh token or one-time code. */
  function PublicView(u: User): (r: User)
    ensures r.password.None? && r.refreshToken.None? && r.otp.None?
    ensures r.(password := u.password, refreshToken := u.refreshToken, otp := u.otp) == u
  {
    u.(password := None, refreshToken := None, otp := None)
  }

  /** A save error as the 500 reply's cause. */
  function SaveCause(e: SaveError): Cause
  {
    if e.ValidationError? then Invalid else Duplicate
  }

  // ---------------------------------------------------------------------------
  // generateUsername

  /**
   * `generateUsername(name)`: the name lower-cased with everything outside
   * `[a-zA-Z0-9]` deleted, followed by the decimal random suffix below 1000.
   */
  function GenerateUsername(name: string, suffix: nat): (r: string)
    requires suffix < 1000
    ensures forall i :: 0 <= i < |r| ==> Text.IsLowerAlnum(r[i])
    ensures |Text.Decimal(suffix)| <= |r| <= |name| + 3
    ensures r[|r| - |Text.Decimal(suffix)|..] == Text.Decimal(suffix)
    ensures r[..|r| - |Text.Decimal(suffix)|] == Text.KeepAsciiAlnum(Text.Lower(name))
  {
    var lowered := Text.Lower(name);
    var base := Text.KeepAsciiAlnum(lowered);
    Text.KeepAsciiAlnumKeepsNoUpper(lowered);
    Text.DecimalAtMost(suffix, 3);
    base + Text.Decimal(suffix)
  }

  /** A name already made of `[a-z0-9]` is kept whole in front of the suffix. */
  lemma GenerateUsernameKeepsCleanName(name: string, suffix: nat)
    requires suffix < 1000
    requires forall i :: 0 <= i < |name| ==> Text.IsLowerAlnum(name[i])
    ensures GenerateUsername(name, suffix) == name + Text.Decimal(suffix)
  {
    Text.LowerFixesLowered(name);
    Text.KeepAsciiAlnumFixesAlnum(name);
  }

  // ---------------------------------------------------------------------------
  // googleAuth

  /** The fields of Google's tokeninfo answer the handler reads. */
  datatype GoogleInfo = GoogleInfo(sub: string, email: string, name: Option<string>, picture: Option<string>)

  /** A tokeninfo response that axios resolved with. */
  datatype GoogleReply = GoogleReply(status: int, data: GoogleInfo)

  /** The record `googleAuth` creates for an unknown email. */
  function GoogleUser(info: GoogleInfo, firstName: string, lastName: Option<string>, username: string): (u: User)
    ensures Normalized(u)
    ensures u.googleId == Some(info.sub) && u.email == NormalizeEmail(info.email)
    ensures u.firstName == firstName && u.lastName == lastName
    ensures u.profilePicture == if Truthy(info.picture) then info.picture.value else DefaultProfilePicture
    ensures u.password.None? && u.refreshToken.None? && !u.isVerified
  {
    NewUser(Some(firstName), lastName, Some(username), Some(info.email))
      .(googleId := Some(info.sub),
        profilePicture := MergeRequired(info.picture, DefaultProfilePicture))
  }

  /** The branch of `googleAuth` for a known email: issue both tokens and store the refresh token. */
  function GoogleLink(c: Codec, keys: Secrets, users: Users, id: Id, now: Time): (r: Outcome)
    requires id in users
    ensures r.reply.status == 200 || r.reply.status == 500
    ensures r.reply.status == 500 ==> r == Outcome(Reply(500, Msg(InternalError)), users)
    ensures r.reply.status == 200 ==>
      && r.reply.body.TokenGrant?
      && r.reply.body.accessToken == c.encode(GenerateToken(keys, id, now))
      && r.reply.body.refreshToken == c.encode(GenerateRefreshToken(keys, Some(id), now))
      && r.users == users[id := users[id].(refreshToken := Some(r.reply.body.refreshToken))]
    ensures r.reply.status == 200 <==>
      Save(users, id, users[id].(refreshToken := Some(c.encode(GenerateRefreshToken(keys, Some(id), now))))).Ok?
  {
    var access := c.encode(GenerateToken(keys, id, now));
    var refresh := c.encode(GenerateRefreshToken(keys, Some(id), now));
    var v := users[id].(refreshToken := Some(refresh));
    match Save(users, id, v)
    case Ok(m) => Outcome(Reply(200, TokenGrant(access, refresh)), m)
    case Err(_) => Outcome(Reply(500, Msg(InternalError)), users)
  }

  /**
   * The branch of `googleAuth` for an unknown email: save the new record, then
   * issue both tokens and save it again with the refresh token.
   */
  function GoogleCreate(c: Codec, keys: Secrets, users: Users, u: User, newId: Id, now: Time): (r: Outcome)
    requires newId !in users
    ensures r.reply.status == 201 || r.reply.status == 500
    ensures r.reply.status == 500 ==> r == Outcome(Reply(500, Msg(InternalError)), users)
    ensures r.reply.status == 201 <==> Save(users, newId, u).Ok?
    ensures r.reply.status == 201 ==>
      && r.reply.body.TokenGrant?
      && r.reply.body.accessToken == c.encode(GenerateToken(keys, newId, now))
      && r.reply.body.refreshToken == c.encode(GenerateRefreshToken(keys, Some(newId), now))
      && r.users == users[newId := u.(refreshToken := Some(r.reply.body.refreshToken))]
      && Save(users, newId, r.users[newId]).Ok?
  {
    match Save(users, newId, u)
    case Err(_) => Outcome(Reply(500, Msg(InternalError)), users)
    case Ok(created) =>
      var access := c.encode(GenerateToken(keys, newId, now));
      var refresh := c.encode(GenerateRefreshToken(keys, Some(newId), now));
      ResaveSucceeds(users, newId, u, u.(refreshToken := Some(refresh)));
      match Save(created, newId, u.(refreshToken := Some(refresh)))
      case Ok(m) => Outcome(Reply(201, TokenGrant(access, refresh)), m)
      case Err(_) => Outcome(Reply(500, Msg(InternalError)), created)
  }

  /** The first word of the name and the second, as `name.split(" ")` destructures them. */
  function NameParts(name: string): (r: (string, Option<string>))
    ensures ' ' !in r.0
    ensures r.1.Some? <==> ' ' in name
  {
    Text.SecondFieldIffSpace(name);
    (Text.Split(name)[0], Text.Field(name, 1))
  }

  /**
   * `googleAuth`. `google` is what the tokeninfo request resolved with; None
   * when axios threw (network failure or a non-2xx status). An existing email
   * is linked, an unknown one gets a new record; either way a 15-minute access
   * token and a 7-day refresh token are issued and the refresh token stored.
   */
  function GoogleAuth(c: Codec, keys: Secrets, users: Users, googleToken: Option<string>,
                      google: Option<GoogleReply>, suffix: nat, newId: Id, now: Time): (r: Outcome)
    requires UniqueKeys(users) && newId !in users && suffix < 1000
    ensures !Truthy(googleToken) ==> r == Outcome(Reply(400, Msg(GoogleTokenRequired)), users)
    ensures Truthy(googleToken) && google.None? ==> r == Outcome(Reply(500, Msg(InternalError)), users)
    ensures Truthy(googleToken) && google.Some? && google.value.status != 200 ==>
              r == Outcome(Reply(400, Msg(InvalidGoogleToken)), users)
    ensures r.reply.status != 200 && r.reply.status != 201 ==> r.users == users
    ensures r.reply.status == 200 || r.reply.status == 201 ==>
      && Truthy(googleToken) && google.Some? && google.value.status == 200 && google.value.data.name.Some?
    ensures r.reply.status == 200 ==>
      && google.Some? && r.reply.body.TokenGrant?
      && var found := FindByEmail(users, google.value.data.email);
      && found.Some?
      && r.users == users[found.value := users[found.value].(refreshToken := Some(r.reply.body.refreshToken))]
    ensures r.reply.status == 201 ==>
      && google.Some? && r.reply.body.TokenGrant?
      && var info := google.value.data;
      && FindByEmail(users, info.email).None?
      && newId in r.users && r.users == users[newId := r.users[newId]]
      && r.users[newId].googleId == Some(info.sub)
      && r.users[newId].email == NormalizeEmail(info.email)
      && r.users[newId].refreshToken == Some(r.reply.body.refreshToken)
      && Normalized(r.users[newId]) && Save(users, newId, r.users[newId]).Ok?
  {
    if !Truthy(googleToken) then Outcome(Reply(400, Msg(GoogleTokenRequired)), users)
    else if google.None? then Outcome(Reply(500, Msg(InternalError)), users)
    else if google.value.status != 200 then Outcome(Reply(400, Msg(InvalidGoogleToken)), users)
    else
      var info := google.value.data;
      if info.name.None? then Outcome(Reply(500, Msg(InternalError)), users)
      else
        var (firstName, lastName) := NameParts(info.name.value);
        match FindByEmail(users, info.email)
        case Some(id) => GoogleLink(c, keys, users, id, now)
        case None => GoogleCreate(c, keys, users, GoogleUser(info, firstName, lastName, GenerateUsername(firstName, suffix)), newId, now)
  }

  // ---------------------------------------------------------------------------
  // createUser

  /** The request's `preferences`, `subscription` and `paymentInfo` objects, as far as their enum paths go. */
  datatype Preferences = Preferences(theme: Option<string>)
  datatype Subscription = Subscription(plan: Option<string>, status: Option<string>)
  datatype PaymentInfo = PaymentInfo(paymentMethod: Option<string>)

  /** The request fields `createUser` copies into the new record. */
  datatype Signup = Signup(
    firstName: Option<string>, lastName: Option<string>, username: Option<string>,
    email: Option<string>, password: Option<string>, profilePicture: Option<string>,
    bio: Option<string>, skills: Option<seq<string>>, address: Option<Address>,
    phone: Option<string>, website: Option<string>, dateOfBirth: Option<Time>,
    gender: Option<string>, isAdmin: Option<bool>, isVerified: Option<bool>,
    isDeleted: Option<bool>, roles: Option<seq<string>>, loginAttempts: Option<int>,
    isDeactivated: Option<bool>, accountSource: Option<string>, preferences: Option<Preferences>,
    subscription: Option<Subscription>, paymentInfo: Option<PaymentInfo>)

  /**
   * The settings paths of the new record: each one the request gave, and its
   * schema default where the request left it, or its whole object, out.
   */
  function SignupSettings(req: Signup): (s: Settings)
    ensures s.accountSource == req.accountSource.GetOr(DefaultSettings.accountSource)
    ensures req.preferences.None? ==> s.theme == DefaultSettings.theme
    ensures req.subscription.None? ==> s.plan == DefaultSettings.plan && s.subscriptionStatus == DefaultSettings.subscriptionStatus
    ensures req.paymentInfo.None? ==> s.paymentMethod == DefaultSettings.paymentMethod
    ensures ValidSettings(s) <==>
      && (req.accountSource.Some? ==> req.accountSource.value in AccountSources)
      && (req.preferences.Some? && req.preferences.value.theme.Some? ==> req.preferences.value.theme.value in Themes)
      && (req.subscription.Some? && req.subscription.value.plan.Some? ==> req.subscription.value.plan.value in Plans)
      && (req.subscription.Some? && req.subscription.value.status.Some? ==>
            req.subscription.value.status.value in SubscriptionStatuses)
      && (req.paymentInfo.Some? && req.paymentInfo.value.paymentMethod.Some? ==>
            req.paymentInfo.value.paymentMethod.value in PaymentMethods)
  {
    var d := DefaultSettings;
    Settings(req.accountSource.GetOr(d.accountSource),
             if req.preferences.Some? then req.preferences.value.theme.GetOr(d.theme) else d.theme,
             if req.subscription.Some? then req.subscription.value.plan.GetOr(d.plan) else d.plan,
             if req.subscription.Some? then req.subscription.value.status.GetOr(d.subscriptionStatus) else d.subscriptionStatus,
             if req.paymentInfo.Some? then req.paymentInfo.value.paymentMethod.GetOr(d.paymentMethod) else d.paymentMethod)
  }

  /** `new User({ ...fields, password: hashed })`: request values, schema defaults for the rest. */
  function SignupUser(req: Signup, hashed: string): (u: User)
    ensures Normalized(u)
    ensures u.password == Some(hashed)
    ensures u.email == NormalizeEmail(req.email.GetOr(""))
    ensures u.username == NormalizeUsername(req.username.GetOr(""))
    ensures u.firstName == req.firstName.GetOr("")
    ensures u.isAdmin == req.isAdmin.GetOr(false) && u.isVerified == req.isVerified.GetOr(false)
    ensures u.refreshToken.None? && u.otp.None? && u.googleId.None?
    ensures u.settings == SignupSettings(req)
  {
    NewUser(req.firstName, req.lastName, req.username, req.email)
      .(password := Some(hashed),
        profilePicture := req.profilePicture.GetOr(DefaultProfilePicture),
        bio := req.bio, skills := req.skills.GetOr([]), address := req.address,
        phone := req.phone, website := req.website, dateOfBirth := req.dateOfBirth,
        gender := req.gender, isAdmin := req.isAdmin.GetOr(false),
        isVerified := req.isVerified.GetOr(false), isDeleted := req.isDeleted.GetOr(false),
        roles := req.roles.GetOr([]), loginAttempts := req.loginAttempts.GetOr(0),
        isDeactivated := req.isDeactivated.GetOr(false), settings := SignupSettings(req))
  }

  /**
   * `createUser`: hash the password, save the record, answer 201 with the
   * record minus its password and a one-hour `{ id }` token. Any failure is 500.
   */
  function CreateUser(c: Codec, keys: Secrets, h: Hasher, users: Users, req: Signup,
                      salt: string, newId: Id, now: Time): (r: Outcome)
    requires newId !in users
    ensures r.reply.status == 201 || r.reply.status == 500
    ensures r.reply.status == 500 ==> r.users == users
    ensures req.password.None? ==> r == Outcome(Reply(500, Failed(NoPassword)), users)
    ensures r.reply.status == 201 ==>
      && req.password.Some? && r.reply.body.Created?
      && var u := SignupUser(req, h.hash(req.password.value, salt));
      && r.users == users[newId := u]
      && r.users[newId].password == Some(h.hash(req.password.value, salt))
      && r.reply.body.id == newId
      && r.reply.body.profile == PublicView(u)
      && r.reply.body.token == c.encode(Sign(keys.access, IdPayload(Some(newId)), now, OneHour))
    ensures req.password.Some? ==>
      (r.reply.status == 201 <==> Save(users, newId, SignupUser(req, h.hash(req.password.value, salt))).Ok?)
  {
    match Hash(h, req.password, salt)
    case None => Outcome(Reply(500, Failed(NoPassword)), users)
    case Some(hashed) =>
      var u := SignupUser(req, hashed);
      match Save(users, newId, u)
      case Err(e) => Outcome(Reply(500, Failed(SaveCause(e))), users)
      case Ok(m) =>
        var token := c.encode(Sign(keys.access, IdPayload(Some(newId)), now, OneHour));
        Outcome(Reply(201, Created(newId, PublicView(u), token)), m)
  }

  /**
   * A sign-up whose `accountSource` is outside its enum fails validation: the
   * handler answers 500 and stores nothing, whatever else the request holds.
   */
  lemma SignupOutsideEnumRefused(c: Codec, keys: Secrets, h: Hasher, users: Users, req: Signup,
                                 salt: string, newId: Id, now: Time)
    requires newId !in users
    requires req.accountSource.Some? && req.accountSource.value !in AccountSources
    ensures var r := CreateUser(c, keys, h, users, req, salt, newId, now);
      && r.reply.status == 500 && r.users == users
      && (req.password.Some? ==> r.reply.body == Failed(Invalid))
  {
    if req.password.Some? {
      var u := SignupUser(req, h.hash(req.password.value, salt));
      assert !ValidSettings(u.settings);
    }
  }

  // ---------------------------------------------------------------------------
  // loginUser

  /**
   * `loginUser`: an unknown email and a wrong password get the same 401; a
   * missing password on either side makes bcrypt throw (500). Success issues
   * both tokens and stores the refresh token on the record.
   */
  function LoginUser(c: Codec, keys: Secrets, h: Hasher, users: Users, email: string,
                     password: Option<string>, now: Time): (r: Outcome)
    requires UniqueKeys(users)
    ensures r.reply.status != 200 ==> r.users == users
    ensures r.reply.status == 401 ==> r.reply.body == Msg(InvalidCredentials)
    ensures FindByEmail(users, email).None? ==> r == Outcome(Reply(401, Msg(InvalidCredentials)), users)
    ensures r.reply.status == 401 <==>
      || FindByEmail(users, email).None?
      || Compare(h, password, users[FindByEmail(users, email).value].password) == Some(false)
    ensures FindByEmail(users, email).Some? ==>
      var id := FindByEmail(users, email).value;
      Compare(h, password, users[id].password) == Some(true) ==>
        (r.reply.status == 200 <==>
           Save(users, id, users[id].(refreshToken := Some(c.encode(GenerateRefreshToken(keys, Some(id), now))))).Ok?)
    ensures r.reply.status == 200 ==>
      && r.reply.body.LoginGrant?
      && var id := FindByEmail(users, email).value;
      && Compare(h, password, users[id].password) == Some(true)
      && r.reply.body.id == id
      && r.users == users[id := users[id].(refreshToken := Some(r.reply.body.refreshToken))]
      && r.reply.body.accessToken == c.encode(GenerateToken(keys, id, now))
      && r.reply.body.refreshToken == c.encode(GenerateRefreshToken(keys, Some(id), now))
  {
    match FindByEmail(users, email)
    case None => Outcome(Reply(401, Msg(InvalidCredentials)), users)
    case Some(id) =>
      var u := users[id];
      match Compare(h, password, u.password)
      case None => Outcome(Reply(500, Msg(InternalError)), users)
      case Some(false) => Outcome(Reply(401, Msg(InvalidCredentials)), users)
      case Some(true) =>
        var access := c.encode(GenerateToken(keys, id, now));
        var refresh := c.encode(GenerateRefreshToken(keys, Some(id), now));
        match Save(users, id, u.(refreshToken := Some(refresh)))
        case Err(_) => Outcome(Reply(500, Msg(InternalError)), users)
        case Ok(m) => Outcome(Reply(200, LoginGrant(id, u.firstName, u.lastName, u.email, access, refresh)), m)
  }

  /** On a consistent collection a correct password always logs in. */
  lemma LoginSucceedsOnMatch(c: Codec, keys: Secrets, h: Hasher, users: Users, email: string,
                             password: Option<string>, now: Time)
    requires Consistent(users)
    requires FindByEmail(users, email).Some?
    requires Compare(h, password, users[FindByEmail(users, email).value].password) == Some(true)
    ensures LoginUser(c, keys, h, users, email, password, now).reply.status == 200
  {
    var id := FindByEmail(users, email).value;
    RestampSucceeds(users, id, users[id].(refreshToken := Some(c.encode(GenerateRefreshToken(keys, Some(id), now)))));
  }

  // ---------------------------------------------------------------------------
  // refreshToken

  /**
   * `refreshToken`: the presented token must verify against the refresh
   * secret, name an existing user, and equal the token stored on that user.
   * A new access token is issued; nothing is written.
   */
  function RefreshToken(c: Codec, keys: Secrets, users: Users, presented: Option<string>, now: Time): (r: Outcome)
    ensures r.users == users
    ensures !Truthy(presented) ==> r.reply == Reply(401, Msg(RefreshTokenRequired))
    ensures r.reply.status == 200 || r.reply.status == 401
    ensures Truthy(presented) && r.reply.status == 401 ==> r.reply.body == Msg(InvalidRefreshToken)
    ensures r.reply.status == 200 <==>
      && VerifyRefreshToken(c, keys, presented, now).Ok?
      && var id := IdClaim(VerifyRefreshToken(c, keys, presented, now).value);
      && id.Some? && id.value in users && users[id.value].refreshToken == presented
    ensures r.reply.status == 200 ==>
      var id := IdClaim(VerifyRefreshToken(c, keys, presented, now).value).value;
      r.reply.body == AccessGrant(c.encode(GenerateToken(keys, id, now)))
  {
    if !Truthy(presented) then Outcome(Reply(401, Msg(RefreshTokenRequired)), users)
    else match VerifyRefreshToken(c, keys, presented, now)
      case Err(_) => Outcome(Reply(401, Msg(InvalidRefreshToken)), users)
      case Ok(payload) =>
        match FindById(users, IdClaim(payload))
        case None => Outcome(Reply(401, Msg(InvalidRefreshToken)), users)
        case Some(u) =>
          if u.refreshToken != presented then Outcome(Reply(401, Msg(InvalidRefreshToken)), users)
          else Outcome(Reply(200, AccessGrant(c.encode(GenerateToken(keys, IdClaim(payload).value, now)))), users)
  }

  /** The refresh token a login hands out is accepted by `refreshToken` for the next 7 days. */
  lemma LoginThenRefresh(c: Codec, keys: Secrets, h: Hasher, users: Users, email: string,
                         password: Option<string>, issued: Time, now: Time)
    requires Faithful(c) && UniqueKeys(users)
    requires LoginUser(c, keys, h, users, email, password, issued).reply.status == 200
    requires now < issued + SevenDays
    ensures var login := LoginUser(c, keys, h, users, email, password, issued);
      RefreshToken(c, keys, login.users, Some(login.reply.body.refreshToken), now).reply.status == 200
  {
    var login := LoginUser(c, keys, h, users, email, password, issued);
    var id := FindByEmail(users, email).value;
    RefreshTokenLifetime(c, keys, id, issued, now);
  }

  /**
   * A later login replaces the stored refresh token, so the token of an
   * earlier login (issued at a different time) is refused afterwards.
   */
  lemma LaterLoginRevokesEarlierRefresh(c: Codec, keys: Secrets, h: Hasher, users: Users, email: string,
                                        password: Option<string>, first: Time, second: Time, now: Time)
    requires Faithful(c) && UniqueKeys(users)
    requires first != second
    requires LoginUser(c, keys, h, users, email, password, first).reply.status == 200
    requires LoginUser(c, keys, h, users, email, password, second).reply.status == 200
    ensures var early := LoginUser(c, keys, h, users, email, password, first).reply.body.refreshToken;
      var late := LoginUser(c, keys, h, users, email, password, second).users;
      RefreshToken(c, keys, late, Some(early), now).reply.status == 401
  {
    var id := FindByEmail(users, email).value;
    var t1 := GenerateRefreshToken(keys, Some(id), first);
    var t2 := GenerateRefreshToken(keys, Some(id), second);
    assert c.decode(c.encode(t1)) == Some(t1);
    assert c.decode(c.encode(t2)) == Some(t2);
    assert c.encode(t1) != c.encode(t2);
  }

  // ---------------------------------------------------------------------------
  // updateUserProfile

  /** The request fields `updateUserProfile` reads. */
  datatype ProfileUpdate = ProfileUpdate(
    firstName: Option<string>, lastName: Option<string>, username: Option<string>,
    email: Option<string>, profilePicture: Option<string>, bio: Option<string>,
    skills: Option<seq<string>>, address: Option<Address>, phone: Option<string>,
    website: Option<string>, dateOfBirth: Option<Time>, gender: Option<string>,
    password: Option<string>)

  /** An update that supplies nothing. */
  const NoUpdate: ProfileUpdate :=
    ProfileUpdate(None, None, None, None, None, None, None, None, None, None, None, None, None)

  /**
   * `user.x = req.body.x || user.x` for each listed field, through the setters;
   * arrays, objects and dates are truthy whenever present. The password is
   * re-hashed only when a truthy one is supplied.
   */
  function ApplyUpdate(h: Hasher, u: User, upd: ProfileUpdate, salt: string): (v: User)
    ensures v.firstName == MergeRequired(upd.firstName, u.firstName)
    ensures v.lastName == MergeText(upd.lastName, u.lastName)
    ensures Truthy(upd.username) ==> v.username == NormalizeUsername(upd.username.value)
    ensures Truthy(upd.email) ==> v.email == NormalizeEmail(upd.email.value)
    ensures !Truthy(upd.username) ==> v.username == u.username
    ensures !Truthy(upd.email) ==> v.email == u.email
    ensures v.bio == MergeText(upd.bio, u.bio) && v.gender == MergeText(upd.gender, u.gender)
    ensures v.skills == upd.skills.GetOr(u.skills) && v.address == Merge(upd.address, u.address)
    ensures v.profilePicture == MergeRequired(upd.profilePicture, u.profilePicture)
    ensures v.phone == MergeText(upd.phone, u.phone) && v.website == MergeText(upd.website, u.website)
    ensures v.dateOfBirth == Merge(upd.dateOfBirth, u.dateOfBirth)
    ensures Truthy(upd.password) ==> v.password == Some(h.hash(upd.password.value, salt))
    ensures !Truthy(upd.password) ==> v.password == u.password
    ensures v.googleId == u.googleId && v.isAdmin == u.isAdmin && v.isVerified == u.isVerified
    ensures v.roles == u.roles && v.ratings == u.ratings && v.refreshToken == u.refreshToken && v.otp == u.otp
    ensures v.settings == u.settings
  {
    var username := if Truthy(upd.username) then NormalizeUsername(upd.username.value) else u.username;
    var email := if Truthy(upd.email) then NormalizeEmail(upd.email.value) else u.email;
    var password := if Truthy(upd.password) then Some(h.hash(upd.password.value, salt)) else u.password;
    User(MergeRequired(upd.firstName, u.firstName), MergeText(upd.lastName, u.lastName), username, email,
         u.googleId, password, MergeRequired(upd.profilePicture, u.profilePicture), MergeText(upd.bio, u.bio),
         upd.skills.GetOr(u.skills), Merge(upd.address, u.address), MergeText(upd.phone, u.phone),
         MergeText(upd.website, u.website), Merge(upd.dateOfBirth, u.dateOfBirth), MergeText(upd.gender, u.gender),
         u.isAdmin, u.isVerified, u.isDeleted, u.isDeactivated, u.loginAttempts, u.roles, u.ratings,
         u.refreshToken, u.otp, u.settings)
  }

  /** The setters keep an updated record normalised. */
  lemma ApplyUpdateKeepsNormalized(h: Hasher, u: User, upd: ProfileUpdate, salt: string)
    requires Normalized(u)
    ensures Normalized(ApplyUpdate(h, u, upd, salt))
  {
    if Truthy(upd.email) {
      NormalizeEmailIdempotent(upd.email.value);
    }
    if Truthy(upd.username) {
      Text.TrimIdempotent(upd.username.value);
    }
  }

  /** Applying the same update twice (same salt) is the same as applying it once. */
  lemma ApplyUpdateIdempotent(h: Hasher, u: User, upd: ProfileUpdate, salt: string)
    ensures ApplyUpdate(h, ApplyUpdate(h, u, upd, salt), upd, salt) == ApplyUpdate(h, u, upd, salt)
  {
  }

  /** An update that supplies nothing leaves the record as it was. */
  lemma EmptyUpdateKeepsUser(h: Hasher, u: User, salt: string)
    ensures ApplyUpdate(h, u, NoUpdate, salt) == u
  {
  }

  /**
   * `updateUserProfile` for the authenticated caller: 404 when the record is
   * gone, 500 when there is no caller or the save fails, else 200 with the
   * merged record minus its password.
   */
  function UpdateUserProfile(h: Hasher, users: Users, caller: Option<Id>, upd: ProfileUpdate, salt: string): (r: Outcome)
    ensures r.reply.status != 200 ==> r.users == users
    ensures caller.None? ==> r == Outcome(Reply(500, Failed(NoCaller)), users)
    ensures caller.Some? && caller.value !in users ==> r == Outcome(Reply(404, Msg(UserNotFound)), users)
    ensures r.reply.status == 200 ==>
      && caller.Some? && caller.value in users
      && var v := ApplyUpdate(h, users[caller.value], upd, salt);
      && r.users == users[caller.value := v]
      && r.reply.body == Profile(caller.value, PublicView(v))
    ensures caller.Some? && caller.value in users ==>
      (r.reply.status == 200 <==> Save(users, caller.value, ApplyUpdate(h, users[caller.value], upd, salt)).Ok?)
  {
    if caller.None? then Outcome(Reply(500, Failed(NoCaller)), users)
    else match FindById(users, caller)
      case None => Outcome(Reply(404, Msg(UserNotFound)), users)
      case Some(u) =>
        var v := ApplyUpdate(h, u, upd, salt);
        match Save(users, caller.value, v)
        case Err(e) => Outcome(Reply(500, Failed(SaveCause(e))), users)
        case Ok(m) => Outcome(Reply(200, Profile(caller.value, PublicView(v))), m)
  }

  /** On a consistent collection, an update that supplies nothing succeeds and changes nothing. */
  lemma EmptyProfileUpdateIsNoOp(h: Hasher, users: Users, id: Id, salt: string)
    requires Consistent(users) && id in users
    ensures UpdateUserProfile(h, users, Some(id), NoUpdate, salt) == Outcome(Reply(200, Profile(id, PublicView(users[id]))), users)
  {
    EmptyUpdateKeepsUser(h, users[id], salt);
    assert users[id := users[id]] == users;
  }

  /** A successful profile update keeps the collection consistent. */
  lemma UpdateKeepsConsistency(h: Hasher, users: Users, caller: Option<Id>, upd: ProfileUpdate, salt: string)
    requires Consistent(users)
    requires UpdateUserProfile(h, users, caller, upd, salt).reply.status == 200
    ensures Consistent(UpdateUserProfile(h, users, caller, upd, salt).users)
  {
    var u := users[caller.value];
    ApplyUpdateKeepsNormalized(h, u, upd, salt);
    SavePreservesConsistency(users, caller.value, ApplyUpdate(h, u, upd, salt));
  }

  // ---------------------------------------------------------------------------
  // Cross-handler properties

  /** Signing up and then logging in with the same email and password succeeds. */
  lemma SignupThenLogin(c: Codec, keys: Secrets, h: Hasher, users: Users, req: Signup,
                        salt: string, newId: Id, now: Time, later: Time)
    requires Sound(h) && Consistent(users) && newId !in users
    requires CreateUser(c, keys, h, users, req, salt, newId, now).reply.status == 201
    ensures var created := CreateUser(c, keys, h, users, req, salt, newId, now).users;
      && Consistent(created)
      && LoginUser(c, keys, h, created, req.email.GetOr(""), req.password, later).reply.status == 200
  {
    var u := SignupUser(req, h.hash(req.password.value, salt));
    SavePreservesConsistency(users, newId, u);
    var created := users[newId := u];
    SavedUserFoundByEmail(users, newId, u, req.email.GetOr(""));
    assert h.compare(req.password.value, h.hash(req.password.value, salt));
    LoginSucceedsOnMatch(c, keys, h, created, req.email.GetOr(""), req.password, later);
  }

  /** Google sign-in for an email already on file takes the linking branch. */
  lemma GoogleAuthKnownEmail(c: Codec, keys: Secrets, users: Users, googleToken: Option<string>,
                             google: Option<GoogleReply>, suffix: nat, newId: Id, now: Time, id: Id)
    requires UniqueKeys(users) && newId !in users && suffix < 1000
    requires Truthy(googleToken) && google.Some? && google.value.status == 200 && google.value.data.name.Some?
    requires FindByEmail(users, google.value.data.email) == Some(id)
    ensures GoogleAuth(c, keys, users, googleToken, google, suffix, newId, now) == GoogleLink(c, keys, users, id, now)
  {
  }

  /** Google sign-in keeps the collection consistent. */
  lemma GoogleAuthKeepsConsistency(c: Codec, keys: Secrets, users: Users, googleToken: Option<string>,
                                   google: Option<GoogleReply>, suffix: nat, newId: Id, now: Time)
    requires Consistent(users) && newId !in users && suffix < 1000
    ensures Consistent(GoogleAuth(c, keys, users, googleToken, google, suffix, newId, now).users)
  {
    var r := GoogleAuth(c, keys, users, googleToken, google, suffix, newId, now);
    if r.reply.status == 200 {
      var id := FindByEmail(users, google.value.data.email).value;
      SavePreservesConsistency(users, id, r.users[id]);
    } else if r.reply.status == 201 {
      SavePreservesConsistency(users, newId, r.users[newId]);
    }
  }

  /** Google sign-in with the email of a stored record links that record. */
  lemma GoogleSignInLinksStored(c: Codec, keys: Secrets, users: Users, googleToken: Option<string>,
                                google: Option<GoogleReply>, suffix: nat, newId: Id, now: Time, id: Id)
    requires Consistent(users) && newId !in users && suffix < 1000
    requires Truthy(googleToken) && google.Some? && google.value.status == 200 && google.value.data.name.Some?
    requires id in users && users[id].email == NormalizeEmail(google.value.data.email)
    ensures var r := GoogleAuth(c, keys, users, googleToken, google, suffix, newId, now);
      r.reply.status == 200 && r.users.Keys == users.Keys
  {
    FindByEmailOfStored(users, id, google.value.data.email);
    GoogleAuthKnownEmail(c, keys, users, googleToken, google, suffix, newId, now, id);
    RestampSucceeds(users, id, users[id].(refreshToken := Some(c.encode(GenerateRefreshToken(keys, Some(id), now)))));
  }

  /**
   * Google sign-in is idempotent on the email: once it created a record, a
   * second sign-in with the same answer links that record and creates none.
   */
  lemma GoogleSignInTwice(c: Codec, keys: Secrets, users: Users, googleToken: Option<string>,
                          google: Option<GoogleReply>, suffix: nat, suffix2: nat,
                          newId: Id, newId2: Id, now: Time, later: Time)
    requires Consistent(users) && newId !in users && suffix < 1000 && suffix2 < 1000
    requires GoogleAuth(c, keys, users, googleToken, google, suffix, newId, now).reply.status == 201
    requires newId2 !in GoogleAuth(c, keys, users, googleToken, google, suffix, newId, now).users
    ensures var first := GoogleAuth(c, keys, users, googleToken, google, suffix, newId, now).users;
      && Consistent(first)
      && var second := GoogleAuth(c, keys, first, googleToken, google, suffix2, newId2, later);
      && second.reply.status == 200
      && second.users.Keys == first.Keys
  {
    var first := GoogleAuth(c, keys, users, googleToken, google, suffix, newId, now).users;
    GoogleAuthKeepsConsistency(c, keys, users, googleToken, google, suffix, newId, now);
    GoogleSignInLinksStored(c, keys, first, googleToken, google, suffix2, newId2, later, newId);
  }
}
