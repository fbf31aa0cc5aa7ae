/**
 * JSON Web Tokens as the backend issues and checks them (utils/jwtUtils.js and
 * config/jwt.js). A token is an abstract signed value: the secret it was signed
 * with, its payload claims, and its `iat`/`exp` times. Its compact string form
 * is produced and parsed by a `Codec` supplied by the caller, standing in for
 * the jsonwebtoken library.
 */
module Tokens {
  import opened Base

  // Lifetimes given to `expiresIn`, in seconds.
  const FifteenMinutes: int := 15 * 60
  const OneHour: int := 60 * 60
  const SevenDays: int := 7 * 24 * 60 * 60
  const NineDays: int := 9 * 24 * 60 * 60

  // Payload keys: jwtUtils signs `{ id }`, config/jwt.js signs `{ userId }`.
  const IdKey: string := "id"
  const UserIdKey: string := "userId"

  /** The two secrets read from the environment: JWT_SECRET and REFRESH_TOKEN_SECRET. */
  datatype Secrets = Secrets(access: string, refresh: string)

  /** A signed token: signing secret, payload claims, issue time and expiry time. */
  datatype Token = Token(signedWith: string, claims: map<string, Id>, iat: Time, exp: Time)

  /** The compact serialisation of tokens and its parser. */
  datatype Codec = Codec(encode: Token -> string, decode: string -> Option<Token>)

  /**
   * A codec that parses back what it prints, and whose output is a single
   * non-empty word (base64url segments and dots never contain a space).
   */
  ghost predicate Faithful(c: Codec) {
    forall t :: c.decode(c.encode(t)) == Some(t) && c.encode(t) != "" && ' ' !in c.encode(t)
  }

  /** Verification failures. jwtUtils collapses both into one error message. */
  datatype TokenError = Malformed | BadSignature | Expired

  /** `jwt.sign(claims, secret, { expiresIn: lifetime })` at time `now`. */
  function Sign(secret: string, claims: map<string, Id>, now: Time, lifetime: int): (t: Token)
    ensures t.signedWith == secret && t.claims == claims
    ensures t.exp - t.iat == lifetime && t.iat == now
  {
    Token(secret, claims, now, now + lifetime)
  }

  /** The payload `{ id: x }`; an undefined `x` disappears from the JSON payload. */
  function IdPayload(id: Option<Id>): map<string, Id>
  {
    if id.Some? then map[IdKey := id.value] else map[]
  }

  /** `decoded.id`: defined only when the payload carries an `id` claim. */
  function IdClaim(t: Token): Option<Id>
  {
    if IdKey in t.claims then Some(t.claims[IdKey]) else None
  }

  /**
   * `jwt.verify(wire, secret)` at time `now`: an empty or absent string is
   * rejected, the string must parse, the signature must be by `secret`, and
   * `now` must be strictly before `exp` (section 4.1.4 of RFC 7519).
   */
  function Verify(c: Codec, wire: Option<string>, secret: string, now: Time): (r: Result<Token, TokenError>)
    ensures r.Ok? <==> Truthy(wire) && c.decode(wire.value).Some?
                        && c.decode(wire.value).value.signedWith == secret
                        && now < c.decode(wire.value).value.exp
    ensures r.Ok? ==> Some(r.value) == c.decode(wire.value)
  {
    if !Truthy(wire) then Err(Malformed)
    else match c.decode(wire.value)
      case None => Err(Malformed)
      case Some(t) =>
        if t.signedWith != secret then Err(BadSignature)
        else if now >= t.exp then Err(Expired)
        else Ok(t)
  }

  // ---------------------------------------------------------------------------
  // utils/jwtUtils.js

  /** `generateToken(userId)`: `{ id }` signed with the access secret for 15 minutes. */
  function GenerateToken(keys: Secrets, id: Id, now: Time): Token
  {
    Sign(keys.access, IdPayload(Some(id)), now, FifteenMinutes)
  }

  /** `generateRefreshToken(userId)`: `{ id }` signed with the refresh secret for 7 days. */
  function GenerateRefreshToken(keys: Secrets, id: Option<Id>, now: Time): Token
  {
    Sign(keys.refresh, IdPayload(id), now, SevenDays)
  }

  const InvalidTokenMessage: string := "Invalid or expired token"
  const InvalidRefreshTokenMessage: string := "Invalid or expired refresh token"

  /** `verifyToken(token)`: any failure is rethrown as one error. */
  function VerifyToken(c: Codec, keys: Secrets, wire: Option<string>, now: Time): (r: Result<Token, string>)
    ensures r.Err? ==> r.error == InvalidTokenMessage
    ensures r.Ok? <==> Verify(c, wire, keys.access, now).Ok?
    ensures r.Ok? ==> r.value.signedWith == keys.access && now < r.value.exp
  {
    match Verify(c, wire, keys.access, now)
    case Ok(t) => Ok(t)
    case Err(_) => Err(InvalidTokenMessage)
  }

  /** `verifyRefreshToken(token)`: the same check against the refresh secret. */
  function VerifyRefreshToken(c: Codec, keys: Secrets, wire: Option<string>, now: Time): (r: Result<Token, string>)
    ensures r.Err? ==> r.error == InvalidRefreshTokenMessage
    ensures r.Ok? <==> Verify(c, wire, keys.refresh, now).Ok?
    ensures r.Ok? ==> r.value.signedWith == keys.refresh && now < r.value.exp
  {
    match Verify(c, wire, keys.refresh, now)
    case Ok(t) => Ok(t)
    case Err(_) => Err(InvalidRefreshTokenMessage)
  }

  /** The object `rotateRefreshToken` returns: `{ valid, newRefreshToken }`. */
  datatype Rotation = Rotation(valid: bool, newRefreshToken: Option<Token>)

  /**
   * `rotateRefreshToken(old)`: a fresh 7-day refresh token for the old token's
   * `id`, or `{ valid: false }`. Nothing is stored and nothing is revoked.
   */
  function RotateRefreshToken(c: Codec, keys: Secrets, wire: Option<string>, now: Time): (r: Rotation)
    ensures r.valid <==> VerifyRefreshToken(c, keys, wire, now).Ok?
    ensures r.valid <==> r.newRefreshToken.Some?
    ensures r.valid ==>
      var prior := VerifyRefreshToken(c, keys, wire, now).value;
      var renewed := r.newRefreshToken.value;
      && IdClaim(renewed) == IdClaim(prior)
      && renewed.signedWith == keys.refresh
      && renewed.iat == now && renewed.exp == now + SevenDays
  {
    match VerifyRefreshToken(c, keys, wire, now)
    case Ok(decoded) => Rotation(true, Some(GenerateRefreshToken(keys, IdClaim(decoded), now)))
    case Err(_) => Rotation(false, None)
  }

  // ---------------------------------------------------------------------------
  // config/jwt.js

  datatype TokenPair = TokenPair(accessToken: Token, refreshToken: Token)

  /** `generateTokens(user)`: `{ userId }` for 15 minutes and for 9 days, under the two secrets. */
  function GenerateTokens(keys: Secrets, userId: Id, now: Time): (r: TokenPair)
    ensures r.accessToken.claims == r.refreshToken.claims == map[UserIdKey := userId]
    ensures r.accessToken.signedWith == keys.access && r.refreshToken.signedWith == keys.refresh
    ensures r.accessToken.iat == r.refreshToken.iat == now
    ensures r.accessToken.exp == now + FifteenMinutes && r.refreshToken.exp == now + NineDays
    ensures IdClaim(r.accessToken) == None && IdClaim(r.refreshToken) == None
  {
    var claims := map[UserIdKey := userId];
    TokenPair(Sign(keys.access, claims, now, FifteenMinutes), Sign(keys.refresh, claims, now, NineDays))
  }

  // ---------------------------------------------------------------------------
  // Properties

  /**
   * An access token from `generateToken`, sent in its printed form, passes
   * `verifyToken` exactly while the clock is before issue time plus 15 minutes,
   * and what it decodes to names the user it was issued for.
   */
  lemma AccessTokenLifetime(c: Codec, keys: Secrets, id: Id, issued: Time, now: Time)
    requires Faithful(c)
    ensures var t := GenerateToken(keys, id, issued);
      var r := VerifyToken(c, keys, Some(c.encode(t)), now);
      && (r.Ok? <==> now < issued + FifteenMinutes)
      && (r.Ok? ==> IdClaim(r.value) == Some(id))
  {
    var t := GenerateToken(keys, id, issued);
    assert c.decode(c.encode(t)) == Some(t);
  }

  /** A refresh token passes `verifyRefreshToken` exactly for its 7 days and names its user. */
  lemma RefreshTokenLifetime(c: Codec, keys: Secrets, id: Id, issued: Time, now: Time)
    requires Faithful(c)
    ensures var t := GenerateRefreshToken(keys, Some(id), issued);
      var r := VerifyRefreshToken(c, keys, Some(c.encode(t)), now);
      && (r.Ok? <==> now < issued + SevenDays)
      && (r.Ok? ==> IdClaim(r.value) == Some(id))
  {
    var t := GenerateRefreshToken(keys, Some(id), issued);
    assert c.decode(c.encode(t)) == Some(t);
  }

  /** With distinct secrets, an access token is never accepted as a refresh token, nor the reverse. */
  lemma KindsDoNotCross(c: Codec, keys: Secrets, id: Id, issued: Time, now: Time)
    requires Faithful(c)
    requires keys.access != keys.refresh
    ensures VerifyRefreshToken(c, keys, Some(c.encode(GenerateToken(keys, id, issued))), now).Err?
    ensures VerifyToken(c, keys, Some(c.encode(GenerateRefreshToken(keys, Some(id), issued))), now).Err?
  {
    assert c.decode(c.encode(GenerateToken(keys, id, issued))) == Some(GenerateToken(keys, id, issued));
    var rt := GenerateRefreshToken(keys, Some(id), issued);
    assert c.decode(c.encode(rt)) == Some(rt);
  }

  /**
   * Rotation does not revoke: after a successful rotation the old refresh token
   * still verifies, so both the old and the new token are usable.
   */
  lemma RotationLeavesOldTokenValid(c: Codec, keys: Secrets, wire: Option<string>, now: Time)
    requires Faithful(c)
    requires RotateRefreshToken(c, keys, wire, now).valid
    ensures VerifyRefreshToken(c, keys, wire, now).Ok?
    ensures var renewed := RotateRefreshToken(c, keys, wire, now).newRefreshToken.value;
      VerifyRefreshToken(c, keys, Some(c.encode(renewed)), now).Ok?
  {
    var renewed := RotateRefreshToken(c, keys, wire, now).newRefreshToken.value;
    assert c.decode(c.encode(renewed)) == Some(renewed);
  }
}
