/**
 * One-time codes: utils/otpUtils.js (generate, store, compare) and
 * controllers/otpController.js (send a code to a known email; verify a code
 * and mark the account verified). The random draw is a parameter, and the
 * mail transport is reduced to the message handed to it and whether it
 * rejected.
 */
module Otp {
  import opened Base
  import Text
  import opened Tokens
  import opened UserModel

  const OtpLow: int := 100000
  const OtpHigh: int := 999999
  const UserNotFound: string := "User not found"
  const InvalidOtp: string := "Invalid OTP"
  const MailSubject: string := "Your OTP Code"
  const MailPrefix: string := "Your OTP code is "

  /** A JSON request value, as strict equality sees it. */
  datatype Json = Undefined | Null | Str(s: string) | Num(n: int) | Bool(b: bool)

  /** The stored code as a JavaScript value: `undefined` when there is none. */
  function StoredValue(code: Option<string>): Json
  {
    if code.Some? then Str(code.value) else Undefined
  }

  // ---------------------------------------------------------------------------
  // utils/otpUtils.js

  /**
   * `crypto.randomInt(100000, 999999).toString()` for the drawn integer `n`:
   * six digits with no leading zero, which read back as `n`.
   */
  function GenerateOtp(n: int): (r: string)
    requires OtpLow <= n < OtpHigh
    ensures |r| == 6
    ensures forall i :: 0 <= i < |r| ==> Text.IsDigit(r[i])
    ensures r[0] != '0'
    ensures Text.ParseDecimal(r) == n
  {
    Text.SixDigitBounds();
    Text.DecimalLength(n, 6);
    Text.ParseDecimalOfDecimal(n);
    Text.Decimal(n)
  }

  /** `saveOtp(user, otp)`: overwrite the stored code and save. */
  function SaveOtp(users: Users, id: Id, code: string): (r: Result<Users, SaveError>)
    requires id in users
    ensures r.Ok? ==> r.value == users[id := users[id].(otp := Some(code))]
    ensures Consistent(users) ==> r.Ok?
  {
    RestampIfConsistent(users, id, users[id].(otp := Some(code)));
    Save(users, id, users[id].(otp := Some(code)))
  }

  /** A re-save that changes no indexed or validated field succeeds on a consistent collection. */
  lemma RestampIfConsistent(users: Users, id: Id, v: User)
    requires id in users && SameKeys(users[id], v)
    ensures Consistent(users) ==> Save(users, id, v) == Ok(users[id := v])
  {
    if Consistent(users) {
      RestampSucceeds(users, id, v);
    }
  }

  /** `verifyOtp(user, otp)`: `user.otp === otp`, with no coercion and no expiry. */
  function VerifyOtp(u: User, otp: Json): (r: bool)
    ensures r <==> (u.otp.None? && otp == Undefined) || (u.otp.Some? && otp == Str(u.otp.value))
  {
    StoredValue(u.otp) == otp
  }

  /** A number never equals a stored code, even one with the same digits. */
  lemma NumberNeverMatches(u: User, n: int)
    ensures !VerifyOtp(u, Num(n))
  {
  }

  // ---------------------------------------------------------------------------
  // generateAndSendOtp

  datatype Mail = Mail(to: string, subject: string, text: string)

  /** What `generateAndSendOtp` throws: its own error, the save's, or the transport's. */
  datatype Thrown = Thrown(message: string) | SaveRejected(cause: SaveError) | MailRejected(reason: string)

  /**
   * What `generateAndSendOtp` leaves behind: the collection, the message handed
   * to the transport (if it got that far), and the error it throws, if any.
   */
  datatype Dispatch = Dispatch(users: Users, mail: Option<Mail>, error: Option<Thrown>)

  /**
   * `generateAndSendOtp(email)` with drawn integer `n`. An unknown email throws
   * "User not found" and sends nothing; a known one stores the code first and
   * then hands the mail to the transport, whose rejection `mailError` is
   * rethrown with the code already stored.
   */
  function GenerateAndSendOtp(users: Users, email: string, n: int, mailError: Option<string>): (r: Dispatch)
    requires UniqueKeys(users) && OtpLow <= n < OtpHigh
    ensures FindByEmail(users, email).None? ==> r == Dispatch(users, None, Some(Thrown(UserNotFound)))
    ensures FindByEmail(users, email).Some? && r.mail.Some? ==>
      && var id := FindByEmail(users, email).value;
      && r.users == users[id := users[id].(otp := Some(GenerateOtp(n)))]
      && r.mail == Some(Mail(email, MailSubject, MailPrefix + GenerateOtp(n)))
      && r.error == if mailError.Some? then Some(MailRejected(mailError.value)) else None
    ensures Consistent(users) && FindByEmail(users, email).Some? ==> r.mail.Some?
    ensures r.mail.None? ==> r.users == users && r.error.Some?
  {
    var code := GenerateOtp(n);
    match FindByEmail(users, email)
    case None => Dispatch(users, None, Some(Thrown(UserNotFound)))
    case Some(id) =>
      match SaveOtp(users, id, code)
      case Err(e) => Dispatch(users, None, Some(SaveRejected(e)))
      case Ok(m) =>
        var thrown := if mailError.Some? then Some(MailRejected(mailError.value)) else None;
        Dispatch(m, Some(Mail(email, MailSubject, MailPrefix + code)), thrown)
  }

  // ---------------------------------------------------------------------------
  // verifyOtpController

  /** The reply bodies: the two tokens and a view of the account, or the one error. */
  datatype Body =
    | Verified(accessToken: string, refreshToken: string, id: Id, isVerified: bool, email: string, username: string)
    | Rejected(status: string, message: string)

  const InvalidOtpReply: Reply<Body> := Reply(400, Rejected("error", InvalidOtp))

  /** The reply (None when the save rejects and the handler never answers) and the collection after it. */
  datatype Outcome = Outcome(reply: Option<Reply<Body>>, users: Users)

  /**
   * `verifyOtpController`: a matching code marks the account verified, clears
   * the code and answers with a `{ userId }` token pair; an unknown email and
   * a wrong code get the same 400.
   */
  function VerifyOtpController(c: Codec, keys: Secrets, users: Users, email: string, otp: Json, now: Time): (r: Outcome)
    requires UniqueKeys(users)
    ensures r.reply == Some(InvalidOtpReply) <==>
      FindByEmail(users, email).None? || !VerifyOtp(users[FindByEmail(users, email).value], otp)
    ensures r.reply == Some(InvalidOtpReply) ==> r.users == users
    ensures r.reply.Some? && r.reply.value.status == 200 ==>
      && var id := FindByEmail(users, email).value;
      && var u := users[id].(isVerified := true, otp := None);
      && var pair := GenerateTokens(keys, id, now);
      && r.users == users[id := u]
      && r.reply.value.body == Verified(c.encode(pair.accessToken), c.encode(pair.refreshToken), id, true, u.email, u.username)
    ensures Consistent(users) ==> r.reply.Some?
    ensures r.reply.None? ==> r.users == users
    ensures r.reply.Some? ==> r.reply.value.status == 200 || r.reply == Some(InvalidOtpReply)
  {
    match FindByEmail(users, email)
    case None => Outcome(Some(InvalidOtpReply), users)
    case Some(id) =>
      var u := users[id];
      if !VerifyOtp(u, otp) then Outcome(Some(InvalidOtpReply), users)
      else
        var v := u.(isVerified := true, otp := None);
        RestampIfConsistent(users, id, v);
        match Save(users, id, v)
        case Err(_) => Outcome(None, users)
        case Ok(m) =>
          var pair := GenerateTokens(keys, id, now);
          Outcome(Some(Reply(200, Verified(c.encode(pair.accessToken), c.encode(pair.refreshToken), id, true, v.email, v.username))), m)
  }

  // ---------------------------------------------------------------------------
  // Properties

  /** On a consistent collection, a request carrying the stored code is accepted. */
  lemma StoredCodeVerifies(c: Codec, keys: Secrets, users: Users, email: string, otp: Json, now: Time)
    requires Consistent(users) && FindByEmail(users, email).Some?
    requires VerifyOtp(users[FindByEmail(users, email).value], otp)
    ensures VerifyOtpController(c, keys, users, email, otp, now).reply.value.status == 200
  {
  }

  /** The collection after a successful send, with the code stored on the record. */
  lemma SendStoresCode(users: Users, email: string, n: int, mailError: Option<string>)
    requires Consistent(users) && OtpLow <= n < OtpHigh
    requires FindByEmail(users, email).Some?
    ensures var id := FindByEmail(users, email).value;
      var sent := GenerateAndSendOtp(users, email, n, mailError).users;
      && Consistent(sent)
      && id in sent && sent[id].otp == Some(GenerateOtp(n))
      && FindByEmail(sent, email) == Some(id)
  {
    var id := FindByEmail(users, email).value;
    var v := users[id].(otp := Some(GenerateOtp(n)));
    var sent := GenerateAndSendOtp(users, email, n, mailError).users;
    assert sent == users[id := v];
    RestampSucceeds(users, id, v);
    SavePreservesConsistency(users, id, v);
    FindByEmailOfStored(sent, id, email);
  }

  /** The code that was mailed verifies the account. */
  lemma SentCodeVerifies(c: Codec, keys: Secrets, users: Users, email: string, n: int,
                         mailError: Option<string>, now: Time)
    requires Consistent(users) && OtpLow <= n < OtpHigh
    requires FindByEmail(users, email).Some?
    ensures var sent := GenerateAndSendOtp(users, email, n, mailError);
      && Consistent(sent.users)
      && VerifyOtpController(c, keys, sent.users, email, Str(GenerateOtp(n)), now).reply.value.status == 200
  {
    SendStoresCode(users, email, n, mailError);
    var sent := GenerateAndSendOtp(users, email, n, mailError);
    StoredCodeVerifies(c, keys, sent.users, email, Str(GenerateOtp(n)), now);
  }

  /** A code works once: after a successful verification the same code is refused. */
  lemma OtpSingleUse(c: Codec, keys: Secrets, users: Users, email: string, code: string, now: Time, later: Time)
    requires Consistent(users)
    requires VerifyOtpController(c, keys, users, email, Str(code), now).reply.value.status == 200
    ensures var after := VerifyOtpController(c, keys, users, email, Str(code), now).users;
      && UniqueKeys(after)
      && VerifyOtpController(c, keys, after, email, Str(code), later).reply == Some(InvalidOtpReply)
  {
    var id := FindByEmail(users, email).value;
    var v := users[id].(isVerified := true, otp := None);
    RestampSucceeds(users, id, v);
    SavePreservesConsistency(users, id, v);
    var after := users[id := v];
    FindByEmailOfStored(after, id, email);
  }

  /**
   * A request without a code passes for an account that has no stored code,
   * since `undefined === undefined`.
   */
  lemma OmittedOtpPasses(c: Codec, keys: Secrets, users: Users, email: string, now: Time)
    requires Consistent(users)
    requires FindByEmail(users, email).Some? && users[FindByEmail(users, email).value].otp.None?
    ensures VerifyOtpController(c, keys, users, email, Undefined, now).reply.value.status == 200
  {
  }

  /** Only the latest code counts: a second send makes the first code fail. */
  lemma LatestCodeWins(c: Codec, keys: Secrets, users: Users, email: string, n1: int, n2: int,
                       mailError: Option<string>, now: Time)
    requires Consistent(users) && OtpLow <= n1 < OtpHigh && OtpLow <= n2 < OtpHigh && n1 != n2
    requires FindByEmail(users, email).Some?
    ensures var first := GenerateAndSendOtp(users, email, n1, mailError).users;
      && Consistent(first)
      && var second := GenerateAndSendOtp(first, email, n2, mailError).users;
      && Consistent(second)
      && VerifyOtpController(c, keys, second, email, Str(GenerateOtp(n1)), now).reply == Some(InvalidOtpReply)
  {
    SendStoresCode(users, email, n1, mailError);
    var first := GenerateAndSendOtp(users, email, n1, mailError).users;
    SendStoresCode(first, email, n2, mailError);
    assert GenerateOtp(n1) != GenerateOtp(n2) by {
      assert Text.ParseDecimal(GenerateOtp(n1)) != Text.ParseDecimal(GenerateOtp(n2));
    }
  }
}
