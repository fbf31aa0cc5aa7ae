/**
 * The two request gates: middlewares/authenticateToken.js and
 * middlewares/authMiddleware.js (`protect`). Each reads the Authorization
 * header, takes the second space-separated field as the token, verifies it
 * with `verifyToken` and looks the user up by the token's `id` claim. A gate
 * either answers (status and message) or passes the request on with the user
 * it attached.
 */
module Gates {
  import opened Base
  import Text
  import opened Tokens
  import opened UserModel

  const HeaderMissing: string := "Authorization header is missing"
  const TokenMissing: string := "Token is missing"
  const InvalidToken: string := "Invalid token"
  const UserNotFound: string := "User not found"
  const NoToken: string := "Not authorized, no token"
  const TokenFailed: string := "Not authorized, token failed"
  const BearerWord: string := "Bearer"

  /** A gate's decision: answer now, or call `next()` with `req.user` set to `user`. */
  datatype Gate<+U> = Answer(status: int, message: string) | Next(user: U)

  /** `authHeader.split(" ")[1]`. */
  function TokenField(header: string): Option<string>
  {
    Text.Field(header, 1)
  }

  /**
   * `authenticateToken`: 401 without a header, 401 without a second field
   * (the scheme word is never looked at), 403 when verification fails, 401
   * when no user has the token's `id`, and otherwise `next()` with that user.
   */
  function AuthenticateToken(c: Codec, keys: Secrets, users: Users, header: Option<string>, now: Time): (r: Gate<User>)
    ensures !Truthy(header) <==> r == Answer(401, HeaderMissing)
    ensures Truthy(header) && !Truthy(TokenField(header.value)) <==> r == Answer(401, TokenMissing)
    ensures r == Answer(403, InvalidToken) <==>
      Truthy(header) && Truthy(TokenField(header.value)) && VerifyToken(c, keys, TokenField(header.value), now).Err?
    ensures r.Next? <==>
      && Truthy(header) && VerifyToken(c, keys, TokenField(header.value), now).Ok?
      && FindById(users, IdClaim(VerifyToken(c, keys, TokenField(header.value), now).value)).Some?
    ensures r.Next? ==> r.user == users[IdClaim(VerifyToken(c, keys, TokenField(header.value), now).value).value]
    ensures r.Answer? ==> r.status == 401 || r == Answer(403, InvalidToken)
  {
    if !Truthy(header) then Answer(401, HeaderMissing)
    else
      var token := TokenField(header.value);
      if !Truthy(token) then Answer(401, TokenMissing)
      else match VerifyToken(c, keys, token, now)
        case Err(_) => Answer(403, InvalidToken)
        case Ok(decoded) =>
          match FindById(users, IdClaim(decoded))
          case None => Answer(401, UserNotFound)
          case Some(u) => Next(u)
  }

  /**
   * `protect`: 401 unless the header is present and starts with "Bearer"; 401
   * when verification of the second field fails, a missing field included;
   * otherwise `next()` with the user found by the token's `id`, its password
   * deselected, or with no user at all when none is found.
   */
  function Protect(c: Codec, keys: Secrets, users: Users, header: Option<string>, now: Time): (r: Gate<Option<User>>)
    ensures r == Answer(401, NoToken) <==> !(Truthy(header) && Text.StartsWith(header.value, BearerWord))
    ensures r == Answer(401, TokenFailed) <==>
      Truthy(header) && Text.StartsWith(header.value, BearerWord) && VerifyToken(c, keys, TokenField(header.value), now).Err?
    ensures r.Next? <==>
      Truthy(header) && Text.StartsWith(header.value, BearerWord) && VerifyToken(c, keys, TokenField(header.value), now).Ok?
    ensures r.Next? ==>
      var id := IdClaim(VerifyToken(c, keys, TokenField(header.value), now).value);
      && (r.user.Some? <==> FindById(users, id).Some?)
      && (r.user.Some? ==> r.user.value == users[id.value].(password := None))
    ensures r.Answer? ==> r.status == 401
  {
    if !(Truthy(header) && Text.StartsWith(header.value, BearerWord)) then Answer(401, NoToken)
    else match VerifyToken(c, keys, TokenField(header.value), now)
      case Err(_) => Answer(401, TokenFailed)
      case Ok(decoded) =>
        match FindById(users, IdClaim(decoded))
        case None => Next(None)
        case Some(u) => Next(Some(WithoutPassword(u)))
  }

  // ---------------------------------------------------------------------------
  // Properties

  /** The header a client sends: a scheme word, one space, the printed token. */
  function Header(scheme: string, wire: string): string
  {
    scheme + " " + wire
  }

  /** The second field of a well-formed header is the printed token. */
  lemma TokenFieldOfHeader(c: Codec, scheme: string, t: Token)
    requires Faithful(c) && ' ' !in scheme
    ensures TokenField(Header(scheme, c.encode(t))) == Some(c.encode(t))
  {
    Text.SecondFieldOf(scheme, c.encode(t));
  }

  /**
   * Any printed token signed with the access secret whose `id` names a stored
   * user admits that user at `authenticateToken` until it expires, and is
   * refused with 403 from then on.
   */
  lemma AccessTokenAdmitted(c: Codec, keys: Secrets, users: Users, t: Token, scheme: string, now: Time)
    requires Faithful(c) && ' ' !in scheme
    requires t.signedWith == keys.access && IdClaim(t).Some? && IdClaim(t).value in users
    ensures now < t.exp ==> AuthenticateToken(c, keys, users, Some(Header(scheme, c.encode(t))), now) == Next(users[IdClaim(t).value])
    ensures now >= t.exp ==> AuthenticateToken(c, keys, users, Some(Header(scheme, c.encode(t))), now) == Answer(403, InvalidToken)
  {
    TokenFieldOfHeader(c, scheme, t);
    assert c.decode(c.encode(t)) == Some(t);
  }

  /**
   * A login token from `generateToken` admits its user at `authenticateToken`
   * for 15 minutes under any scheme word, and is refused with 403 afterwards.
   */
  lemma LoginTokenAdmitted(c: Codec, keys: Secrets, users: Users, id: Id, scheme: string, issued: Time, now: Time)
    requires Faithful(c) && ' ' !in scheme && id in users
    ensures var header := Some(Header(scheme, c.encode(GenerateToken(keys, id, issued))));
      && (now < issued + FifteenMinutes ==> AuthenticateToken(c, keys, users, header, now) == Next(users[id]))
      && (now >= issued + FifteenMinutes ==> AuthenticateToken(c, keys, users, header, now) == Answer(403, InvalidToken))
  {
    var t := GenerateToken(keys, id, issued);
    TokenFieldOfHeader(c, scheme, t);
    AccessTokenLifetime(c, keys, id, issued, now);
  }

  /** The same token behind "Bearer" admits the user at `protect`, without the password. */
  lemma LoginTokenProtected(c: Codec, keys: Secrets, users: Users, id: Id, issued: Time, now: Time)
    requires Faithful(c) && id in users && now < issued + FifteenMinutes
    ensures var header := Some(Header(BearerWord, c.encode(GenerateToken(keys, id, issued))));
      Protect(c, keys, users, header, now) == Next(Some(WithoutPassword(users[id])))
  {
    var t := GenerateToken(keys, id, issued);
    TokenFieldOfHeader(c, BearerWord, t);
    AccessTokenLifetime(c, keys, id, issued, now);
  }

  /**
   * The access tokens of config/jwt.js carry `userId`, not `id`: a fresh one
   * gets 401 "User not found" from `authenticateToken`, and `protect` lets it
   * through with no user attached.
   */
  lemma UserIdTokenFindsNobody(c: Codec, keys: Secrets, users: Users, userId: Id, issued: Time, now: Time)
    requires Faithful(c) && now < issued + FifteenMinutes
    ensures var t := GenerateTokens(keys, userId, issued).accessToken;
      && AuthenticateToken(c, keys, users, Some(Header(BearerWord, c.encode(t))), now) == Answer(401, UserNotFound)
      && Protect(c, keys, users, Some(Header(BearerWord, c.encode(t))), now) == Next(None)
  {
    var t := GenerateTokens(keys, userId, issued).accessToken;
    TokenFieldOfHeader(c, BearerWord, t);
    assert c.decode(c.encode(t)) == Some(t);
  }

  /** `protect` does not check that the user still exists: a valid token for a removed user passes with none. */
  lemma RemovedUserPassesProtect(c: Codec, keys: Secrets, users: Users, id: Id, issued: Time, now: Time)
    requires Faithful(c) && id !in users && now < issued + FifteenMinutes
    ensures var header := Some(Header(BearerWord, c.encode(GenerateToken(keys, id, issued))));
      && Protect(c, keys, users, header, now) == Next(None)
      && AuthenticateToken(c, keys, users, header, now) == Answer(401, UserNotFound)
  {
    var t := GenerateToken(keys, id, issued);
    TokenFieldOfHeader(c, BearerWord, t);
    AccessTokenLifetime(c, keys, id, issued, now);
  }

  /** "Bearer" alone has no token: `authenticateToken` says the token is missing, `protect` that it failed. */
  lemma BareSchemeRefused(c: Codec, keys: Secrets, users: Users, now: Time)
    ensures AuthenticateToken(c, keys, users, Some(BearerWord), now) == Answer(401, TokenMissing)
    ensures Protect(c, keys, users, Some(BearerWord), now) == Answer(401, TokenFailed)
  {
    Text.SecondFieldIffSpace(BearerWord);
  }

  /** `authenticateToken` ignores the scheme word: any two single words decide alike. */
  lemma SchemeIgnored(c: Codec, keys: Secrets, users: Users, s1: string, s2: string, wire: string, now: Time)
    requires ' ' !in s1 && ' ' !in s2 && ' ' !in wire
    ensures AuthenticateToken(c, keys, users, Some(Header(s1, wire)), now)
            == AuthenticateToken(c, keys, users, Some(Header(s2, wire)), now)
  {
    Text.SecondFieldOf(s1, wire);
    Text.SecondFieldOf(s2, wire);
  }

  /**
   * The gates agree on a "Bearer" header whose user exists: when
   * `authenticateToken` passes, `protect` passes the same user without its
   * password; when `protect` refuses, `authenticateToken` does too.
   */
  lemma GatesAgree(c: Codec, keys: Secrets, users: Users, header: string, now: Time)
    requires Text.StartsWith(header, BearerWord)
    ensures AuthenticateToken(c, keys, users, Some(header), now).Next? ==>
      Protect(c, keys, users, Some(header), now) == Next(Some(WithoutPassword(AuthenticateToken(c, keys, users, Some(header), now).user)))
    ensures Protect(c, keys, users, Some(header), now).Answer? ==> AuthenticateToken(c, keys, users, Some(header), now).Answer?
  {
  }
}
