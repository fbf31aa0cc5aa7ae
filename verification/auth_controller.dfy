/**
 * controllers/authController.js: registration with a generated password and
 * username, and password login. The random bytes and the random number are
 * parameters; so are the bcrypt salt, the id the database assigns and the clock.
 */
module AuthController {
  import opened Base
  import Text
  import opened Tokens
  import opened UserModel
  import opened Hashing

  const UserExists: string := "User already exists"
  const Registered: string := "User registered successfully"
  const InvalidCredentials: string := "Invalid email or password"
  const LoginSuccessful: string := "Login successful"
  const PasswordBytes: nat := 8
  const UsernameBytes: nat := 4
  const UsernameNumberBound: nat := 10000

  /** The reply bodies of the two handlers. */
  datatype Body =
    | Msg(message: string)
    | Failed(error: SaveError)   // save() threw
    | IllegalArguments          // bcrypt.compare threw on an undefined argument
    | Welcome(message: string, username: string, password: string, token: string)
    | Granted(message: string, token: string)

  datatype Outcome = Outcome(reply: Reply<Body>, users: Users)

  /** `crypto.randomBytes(8).toString("hex")`. */
  function GenerateRandomPassword(bytes: seq<Text.Byte>): (r: string)
    requires |bytes| == PasswordBytes
    ensures |r| == 16
    ensures forall i :: 0 <= i < |r| ==> Text.IsLowerHex(r[i])
  {
    Text.Hex(bytes)
  }

  /** The generated password carries exactly the random bytes it was made from. */
  lemma RandomPasswordEncodesBytes(bytes: seq<Text.Byte>)
    requires |bytes| == PasswordBytes
    ensures Text.Unhex(GenerateRandomPassword(bytes)) == bytes
  {
    Text.UnhexOfHex(bytes);
  }

  /**
   * `generateRandomUsername(name)`: the name lower-cased with all white space
   * deleted, then the random number below 10000 in decimal, then 4 random
   * bytes in hex.
   */
  function GenerateRandomUsername(name: string, number: nat, bytes: seq<Text.Byte>): (r: string)
    requires number < UsernameNumberBound && |bytes| == UsernameBytes
    ensures forall i :: 0 <= i < |r| ==> !Text.IsJsSpace(r[i]) && !Text.IsAsciiUpper(r[i])
    ensures 9 <= |r| - |Text.RemoveJsSpaces(Text.Lower(name))| <= 12
    ensures r[|r| - 8..] == Text.Hex(bytes)
    ensures r[..|Text.RemoveJsSpaces(Text.Lower(name))|] == Text.RemoveJsSpaces(Text.Lower(name))
    ensures r[|Text.RemoveJsSpaces(Text.Lower(name))|..|r| - 8] == Text.Decimal(number)
  {
    var lowered := Text.Lower(name);
    Text.RemoveJsSpacesKeepsNoUpper(lowered);
    Text.DecimalAtMost(number, 4);
    Text.RemoveJsSpaces(lowered) + Text.Decimal(number) + Text.Hex(bytes)
  }

  /** The generated username is stored exactly as returned: the trim setter has nothing to remove. */
  lemma RandomUsernameIsTrimmed(name: string, number: nat, bytes: seq<Text.Byte>)
    requires number < UsernameNumberBound && |bytes| == UsernameBytes
    ensures NormalizeUsername(GenerateRandomUsername(name, number, bytes)) == GenerateRandomUsername(name, number, bytes)
  {
    Text.TrimFixesSpaceless(GenerateRandomUsername(name, number, bytes));
  }

  /** A two-word lower-case name loses the space between its words and nothing else. */
  lemma RandomUsernameJoinsWords(first: string, last: string, number: nat, bytes: seq<Text.Byte>)
    requires number < UsernameNumberBound && |bytes| == UsernameBytes
    requires forall i :: 0 <= i < |first| ==> !Text.IsJsSpace(first[i]) && !Text.IsAsciiUpper(first[i])
    requires forall i :: 0 <= i < |last| ==> !Text.IsJsSpace(last[i]) && !Text.IsAsciiUpper(last[i])
    ensures GenerateRandomUsername(first + " " + last, number, bytes) == first + last + Text.Decimal(number) + Text.Hex(bytes)
  {
    var name := first + " " + last;
    assert Text.Lower(name) == name by {
      forall i | 0 <= i < |name|
        ensures !Text.IsAsciiUpper(name[i])
      {
        if i > |first| {
          assert name[i] == last[i - |first| - 1];
        }
      }
      Text.LowerFixesLowered(name);
    }
    assert Text.RemoveJsSpaces(name) == first + last by {
      Text.RemoveJsSpacesOfWords(first, last);
    }
  }

  /** The record `register` creates. */
  function RegisteredUser(email: string, firstName: Option<string>, lastName: Option<string>,
                          username: string, hashed: string): (u: User)
    ensures Normalized(u) && u.password == Some(hashed)
    ensures u.email == NormalizeEmail(email) && u.username == NormalizeUsername(username)
    ensures u.firstName == firstName.GetOr("") && u.lastName == lastName
  {
    NewUser(firstName, lastName, Some(username), Some(email)).(password := Some(hashed))
  }

  /**
   * `register`: refuse a known email; otherwise store the record with the
   * hash of a generated password and answer 201 with the plain password, the
   * generated username and a 15-minute access token.
   */
  function Register(c: Codec, keys: Secrets, h: Hasher, users: Users, email: string,
                    firstName: Option<string>, lastName: Option<string>,
                    passwordBytes: seq<Text.Byte>, number: nat, usernameBytes: seq<Text.Byte>,
                    salt: string, newId: Id, now: Time): (r: Outcome)
    requires UniqueKeys(users) && newId !in users
    requires |passwordBytes| == PasswordBytes
    requires number < UsernameNumberBound && |usernameBytes| == UsernameBytes
    ensures r.reply.status == 201 || r.reply.status == 400 || r.reply.status == 500
    ensures r.reply.status != 201 ==> r.users == users
    ensures r.reply.status == 400 <==> FindByEmail(users, email).Some?
    ensures r.reply.status == 400 ==> r.reply.body == Msg(UserExists)
    ensures r.reply.status == 201 ==>
      && var password := GenerateRandomPassword(passwordBytes);
      && var username := GenerateRandomUsername(Show(firstName) + " " + Show(lastName), number, usernameBytes);
      && r.users == users[newId := RegisteredUser(email, firstName, lastName, username, h.hash(password, salt))]
      && r.reply.body == Welcome(Registered, username, password, c.encode(GenerateToken(keys, newId, now)))
    ensures r.reply.status == 201 <==>
      && FindByEmail(users, email).None?
      && var password := GenerateRandomPassword(passwordBytes);
      && var username := GenerateRandomUsername(Show(firstName) + " " + Show(lastName), number, usernameBytes);
      && Save(users, newId, RegisteredUser(email, firstName, lastName, username, h.hash(password, salt))).Ok?
  {
    var password := GenerateRandomPassword(passwordBytes);
    var username := GenerateRandomUsername(Show(firstName) + " " + Show(lastName), number, usernameBytes);
    if FindByEmail(users, email).Some? then Outcome(Reply(400, Msg(UserExists)), users)
    else
      var u := RegisteredUser(email, firstName, lastName, username, h.hash(password, salt));
      match Save(users, newId, u)
      case Err(e) => Outcome(Reply(500, Failed(e)), users)
      case Ok(m) => Outcome(Reply(201, Welcome(Registered, username, password, c.encode(GenerateToken(keys, newId, now)))), m)
  }

  /**
   * `login`: one 401 for an unknown email and a wrong password; bcrypt throws
   * (500) when either password is missing. Nothing is written.
   */
  function Login(c: Codec, keys: Secrets, h: Hasher, users: Users, email: string,
                 password: Option<string>, now: Time): (r: Outcome)
    requires UniqueKeys(users)
    ensures r.users == users
    ensures r.reply.status == 200 || r.reply.status == 401 || r.reply.status == 500
    ensures r.reply.status == 401 ==> r.reply.body == Msg(InvalidCredentials)
    ensures r.reply.status == 200 <==>
      FindByEmail(users, email).Some? && Compare(h, password, users[FindByEmail(users, email).value].password) == Some(true)
    ensures r.reply.status == 500 <==>
      FindByEmail(users, email).Some? && Compare(h, password, users[FindByEmail(users, email).value].password).None?
    ensures r.reply.status == 200 ==>
      r.reply.body == Granted(LoginSuccessful, c.encode(GenerateToken(keys, FindByEmail(users, email).value, now)))
  {
    match FindByEmail(users, email)
    case None => Outcome(Reply(401, Msg(InvalidCredentials)), users)
    case Some(id) =>
      match Compare(h, password, users[id].password)
      case None => Outcome(Reply(500, IllegalArguments), users)
      case Some(false) => Outcome(Reply(401, Msg(InvalidCredentials)), users)
      case Some(true) => Outcome(Reply(200, Granted(LoginSuccessful, c.encode(GenerateToken(keys, id, now)))), users)
  }

  /** An unknown email and a wrong password are indistinguishable to the client. */
  lemma LoginFailsUniformly(c: Codec, keys: Secrets, h: Hasher, users: Users,
                            unknown: string, known: string, wrong: string, now: Time)
    requires UniqueKeys(users)
    requires FindByEmail(users, unknown).None?
    requires FindByEmail(users, known).Some?
    requires Compare(h, Some(wrong), users[FindByEmail(users, known).value].password) == Some(false)
    ensures Login(c, keys, h, users, unknown, Some(wrong), now) == Login(c, keys, h, users, known, Some(wrong), now)
  {
  }

  /**
   * The password a registration returns logs the new user in, and the token
   * that login issues names the new record.
   */
  lemma RegisterThenLogin(c: Codec, keys: Secrets, h: Hasher, users: Users, email: string,
                          firstName: Option<string>, lastName: Option<string>,
                          passwordBytes: seq<Text.Byte>, number: nat, usernameBytes: seq<Text.Byte>,
                          salt: string, newId: Id, now: Time, later: Time)
    requires Sound(h) && Consistent(users) && newId !in users
    requires |passwordBytes| == PasswordBytes
    requires number < UsernameNumberBound && |usernameBytes| == UsernameBytes
    requires Register(c, keys, h, users, email, firstName, lastName, passwordBytes, number, usernameBytes,
                      salt, newId, now).reply.status == 201
    ensures var reg := Register(c, keys, h, users, email, firstName, lastName, passwordBytes, number,
                                usernameBytes, salt, newId, now);
      && UniqueKeys(reg.users)
      && var login := Login(c, keys, h, reg.users, email, Some(reg.reply.body.password), later);
      && login.reply.status == 200
      && login.reply.body.token == c.encode(GenerateToken(keys, newId, later))
  {
    var password := GenerateRandomPassword(passwordBytes);
    var username := GenerateRandomUsername(Show(firstName) + " " + Show(lastName), number, usernameBytes);
    var u := RegisteredUser(email, firstName, lastName, username, h.hash(password, salt));
    CompareOwnHash(h, password, salt);
    SaveThenLogin(c, keys, h, users, newId, u, email, password, later);
  }

  /** A record saved with a password hash can log in with its email and that password. */
  lemma SaveThenLogin(c: Codec, keys: Secrets, h: Hasher, users: Users, newId: Id, u: User,
                      email: string, password: string, now: Time)
    requires Consistent(users) && Normalized(u) && u.email == NormalizeEmail(email)
    requires Save(users, newId, u).Ok?
    requires Compare(h, Some(password), u.password) == Some(true)
    ensures UniqueKeys(users[newId := u])
    ensures Login(c, keys, h, users[newId := u], email, Some(password), now)
            == Outcome(Reply(200, Granted(LoginSuccessful, c.encode(GenerateToken(keys, newId, now)))), users[newId := u])
  {
    SavedUserFoundByEmail(users, newId, u, email);
    LoginOfStored(c, keys, h, users[newId := u], email, password, now, newId);
  }

  /** Login with the stored email and a password the stored hash accepts succeeds. */
  lemma LoginOfStored(c: Codec, keys: Secrets, h: Hasher, users: Users, email: string,
                      password: string, now: Time, id: Id)
    requires UniqueKeys(users) && FindByEmail(users, email) == Some(id)
    requires Compare(h, Some(password), users[id].password) == Some(true)
    ensures Login(c, keys, h, users, email, Some(password), now)
            == Outcome(Reply(200, Granted(LoginSuccessful, c.encode(GenerateToken(keys, id, now)))), users)
  {
  }
}
