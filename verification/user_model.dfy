/**
 * The user record of models/User.js and the user collection it is stored in.
 * The schema's declarations become three things: `Validates` (the validators
 * `save()` runs: required, maxlength, enum, min/max), `Normalized` (what the
 * lowercase/trim setters guarantee of every stored value) and `NewUser` (the
 * defaults). The collection is a map from id to record whose unique indexes
 * (email, username, googleId) are the invariant `UniqueKeys`.
 */
module UserModel {
  import opened Base
  import Text

  const DefaultProfilePicture: string := "default-profile.png"
  const BioMaxLength: int := 500
  const Genders: set<string> := {"Male", "Female", "Other"}
  const Roles: set<string> := {"user", "moderator", "admin"}
  const MinRating: int := 1
  const MaxRating: int := 5
  const AccountSources: set<string> := {"web", "mobile", "referral", "other"}
  const Themes: set<string> := {"light", "dark"}
  const Plans: set<string> := {"free", "basic", "premium"}
  const SubscriptionStatuses: set<string> := {"active", "inactive", "suspended"}
  const PaymentMethods: set<string> := {"credit_card", "upi", "bank_transfer"}

  datatype Address = Address(
    street: Option<string>, city: Option<string>, state: Option<string>,
    country: Option<string>, zipCode: Option<string>)

  datatype Rating = Rating(rating: Option<int>, review: Option<string>, ratedBy: Option<Id>)

  /**
   * The enum-checked string paths outside the profile: `accountSource`,
   * `preferences.theme`, `subscription.plan`, `subscription.status` and
   * `paymentInfo.paymentMethod`.
   */
  datatype Settings = Settings(accountSource: string, theme: string, plan: string,
                               subscriptionStatus: string, paymentMethod: string)

  /** The schema defaults of those paths. */
  const DefaultSettings: Settings := Settings("web", "light", "free", "inactive", "credit_card")

  /** Each of them holds one of its enum values. */
  predicate ValidSettings(s: Settings) {
    && s.accountSource in AccountSources && s.theme in Themes && s.plan in Plans
    && s.subscriptionStatus in SubscriptionStatuses && s.paymentMethod in PaymentMethods
  }

  /**
   * A stored user. Required strings that a request left out are held as "",
   * which the required validator rejects exactly as it rejects `undefined`.
   * `refreshToken` and `otp` are written by the controllers though the schema
   * does not declare them; they are modelled as plain fields.
   */
  datatype User = User(
    firstName: string,
    lastName: Option<string>,
    username: string,
    email: string,
    googleId: Option<string>,
    password: Option<string>,
    profilePicture: string,
    bio: Option<string>,
    skills: seq<string>,
    address: Option<Address>,
    phone: Option<string>,
    website: Option<string>,
    dateOfBirth: Option<Time>,
    gender: Option<string>,
    isAdmin: bool,
    isVerified: bool,
    isDeleted: bool,
    isDeactivated: bool,
    loginAttempts: int,
    roles: seq<string>,
    ratings: seq<Rating>,
    refreshToken: Option<string>,
    otp: Option<string>,
    settings: Settings)

  // ---------------------------------------------------------------------------
  // Setters

  /** The email setters, `lowercase` then `trim`. Queries on email go through them too. */
  function NormalizeEmail(e: string): string
  {
    Text.Trim(Text.Lower(e))
  }

  /** The username setter, `trim`. */
  function NormalizeUsername(u: string): string
  {
    Text.Trim(u)
  }

  /** Setting an already stored email again stores the same string. */
  lemma NormalizeEmailIdempotent(e: string)
    ensures NormalizeEmail(NormalizeEmail(e)) == NormalizeEmail(e)
  {
    var l := Text.Lower(e);
    var t := Text.Trim(l);
    Text.TrimIsBareSlice(l);
    assert Text.HasNoUpper(t);
    Text.LowerFixesLowered(t);
    Text.TrimIdempotent(l);
  }

  /** What the setters guarantee of every value the model stores. */
  predicate Normalized(u: User) {
    u.email == NormalizeEmail(u.email) && u.username == NormalizeUsername(u.username)
  }

  // ---------------------------------------------------------------------------
  // Validators

  predicate ValidRating(x: Rating) {
    x.rating.Some? ==> MinRating <= x.rating.value <= MaxRating
  }

  /** The validators `save()` runs on a user document. */
  predicate Validates(u: User) {
    && u.firstName != ""
    && u.username != ""
    && u.email != ""
    && (u.bio.Some? ==> Text.Utf16Length(u.bio.value) <= BioMaxLength)
    && (u.gender.Some? ==> u.gender.value in Genders)
    && (forall k :: 0 <= k < |u.roles| ==> u.roles[k] in Roles)
    && (forall k :: 0 <= k < |u.ratings| ==> ValidRating(u.ratings[k]))
    && ValidSettings(u.settings)
  }

  // ---------------------------------------------------------------------------
  // Construction

  /**
   * `new User({ firstName, lastName, username, email })`: the setters run on
   * the given values and every other path takes its schema default.
   */
  function NewUser(firstName: Option<string>, lastName: Option<string>,
                   username: Option<string>, email: Option<string>): (u: User)
    ensures Normalized(u)
    ensures u.firstName == firstName.GetOr("") && u.lastName == lastName
    ensures u.username == NormalizeUsername(username.GetOr(""))
    ensures u.email == NormalizeEmail(email.GetOr(""))
    ensures u.profilePicture == DefaultProfilePicture
    ensures !u.isAdmin && !u.isVerified && !u.isDeleted && !u.isDeactivated
    ensures u.loginAttempts == 0 && u.roles == [] && u.skills == [] && u.ratings == []
    ensures u.password.None? && u.googleId.None? && u.bio.None? && u.gender.None?
    ensures u.refreshToken.None? && u.otp.None? && u.settings == DefaultSettings
  {
    var e := NormalizeEmail(email.GetOr(""));
    var n := NormalizeUsername(username.GetOr(""));
    NormalizeEmailIdempotent(email.GetOr(""));
    Text.TrimIdempotent(username.GetOr(""));
    User(firstName.GetOr(""), lastName, n, e, None, None, DefaultProfilePicture, None, [],
         None, None, None, None, None, false, false, false, false, 0, [], [], None, None, DefaultSettings)
  }

  /** The record with its password path deselected (`.select("-password")`). */
  function WithoutPassword(u: User): User
  {
    u.(password := None)
  }

  // ---------------------------------------------------------------------------
  // The collection

  type Users = map<Id, User>

  /** Two records collide on a unique index: email, username, or a present googleId. */
  predicate Clash(a: User, b: User) {
    a.email == b.email || a.username == b.username || (a.googleId.Some? && a.googleId == b.googleId)
  }

  lemma ClashSymmetric(a: User, b: User)
    ensures Clash(a, b) <==> Clash(b, a)
  {
  }

  /** The unique indexes hold across the collection. */
  predicate UniqueKeys(users: Users) {
    forall a, b :: a in users && b in users && a != b ==> !Clash(users[a], users[b])
  }

  /** Every stored record passed validation, went through the setters, and the unique indexes hold. */
  predicate Consistent(users: Users) {
    && (forall id :: id in users ==> Validates(users[id]) && Normalized(users[id]))
    && UniqueKeys(users)
  }

  datatype SaveError = ValidationError | DuplicateKey

  /**
   * `doc.save()` for the document with id `id`: validation first, then the
   * write, which the unique indexes refuse when another record collides.
   */
  function Save(users: Users, id: Id, u: User): (r: Result<Users, SaveError>)
    ensures r.Ok? <==> Validates(u) && forall other :: other in users && other != id ==> !Clash(u, users[other])
    ensures r.Ok? ==> r.value == users[id := u]
    ensures r.Err? && !Validates(u) ==> r.error == ValidationError
  {
    if !Validates(u) then Err(ValidationError)
    else if exists other :: other in users && other != id && Clash(u, users[other]) then Err(DuplicateKey)
    else Ok(users[id := u])
  }

  /** A successful save keeps the collection consistent when the record went through the setters. */
  lemma SavePreservesConsistency(users: Users, id: Id, u: User)
    requires Consistent(users) && Normalized(u)
    requires Save(users, id, u).Ok?
    ensures Consistent(Save(users, id, u).value)
  {
    var m := users[id := u];
    forall a | a in m
      ensures Validates(m[a]) && Normalized(m[a])
    {
      if a != id {
        assert m[a] == users[a];
      }
    }
    assert forall other :: other in users && other != id ==> !Clash(u, users[other]);
    forall a, b | a in m && b in m && a != b
      ensures !Clash(m[a], m[b])
    {
      if a == id {
        assert m[a] == u && m[b] == users[b];
        assert !Clash(u, users[b]);
      } else if b == id {
        assert m[b] == u && m[a] == users[a];
        assert !Clash(u, users[a]);
        ClashSymmetric(u, users[a]);
      } else {
        assert m[a] == users[a] && m[b] == users[b];
      }
    }
  }

  /** Two versions of a record that agree on everything the validators and the unique indexes look at. */
  predicate SameKeys(u: User, v: User) {
    && u.email == v.email && u.username == v.username && u.googleId == v.googleId
    && (Validates(u) <==> Validates(v))
  }

  /** Saving a record again with a change the indexes do not see cannot fail. */
  lemma ResaveSucceeds(users: Users, id: Id, u: User, v: User)
    requires Save(users, id, u).Ok? && SameKeys(u, v)
    ensures Save(users, id, v) == Ok(users[id := v])
    ensures Save(users[id := u], id, v) == Ok(users[id := v])
  {
    assert forall other :: other in users && other != id ==> !Clash(u, users[other]);
    forall other | other in users && other != id
      ensures !Clash(v, users[other])
    {
      assert !Clash(u, users[other]);
    }
    var m := users[id := u];
    forall other | other in m && other != id
      ensures !Clash(v, m[other])
    {
      assert m[other] == users[other];
    }
    assert m[id := v] == users[id := v];
  }

  /** In a consistent collection, re-saving a stored record with such a change succeeds. */
  lemma RestampSucceeds(users: Users, id: Id, v: User)
    requires Consistent(users) && id in users && SameKeys(users[id], v)
    ensures Save(users, id, v) == Ok(users[id := v])
  {
    assert Validates(users[id]);
    forall other | other in users && other != id
      ensures !Clash(v, users[other])
    {
      assert !Clash(users[id], users[other]);
    }
  }

  /** `User.findOne({ email })`, with the query value passed through the email setters. */
  function FindByEmail(users: Users, email: string): (r: Option<Id>)
    requires UniqueKeys(users)
    ensures r.Some? ==> r.value in users && users[r.value].email == NormalizeEmail(email)
    ensures r.None? ==> forall id :: id in users ==> users[id].email != NormalizeEmail(email)
  {
    var key := NormalizeEmail(email);
    if exists id :: id in users && users[id].email == key then
      var id :| id in users && users[id].email == key;
      Some(id)
    else
      None
  }

  /** `User.findById(id)`; an undefined id finds nothing. */
  function FindById(users: Users, id: Option<Id>): (r: Option<User>)
    ensures r.Some? <==> id.Some? && id.value in users
    ensures r.Some? ==> r.value == users[id.value]
  {
    if id.Some? && id.value in users then Some(users[id.value]) else None
  }

  /** A stored record is what a lookup by its email finds. */
  lemma FindByEmailOfStored(users: Users, id: Id, email: string)
    requires UniqueKeys(users) && id in users && users[id].email == NormalizeEmail(email)
    ensures FindByEmail(users, email) == Some(id)
  {
    var r := FindByEmail(users, email);
    if r.value != id {
      assert Clash(users[r.value], users[id]);
    }
  }

  /** Lookup by email is case- and surrounding-space-insensitive: any spelling that normalises alike finds the same user. */
  lemma FindByEmailNormalizes(users: Users, e1: string, e2: string)
    requires UniqueKeys(users)
    requires NormalizeEmail(e1) == NormalizeEmail(e2)
    ensures FindByEmail(users, e1) == FindByEmail(users, e2)
  {
  }

  /** A record created from an email can be found again by that email once it is saved. */
  lemma SavedUserFoundByEmail(users: Users, id: Id, u: User, email: string)
    requires Consistent(users) && Normalized(u)
    requires u.email == NormalizeEmail(email)
    requires Save(users, id, u).Ok?
    ensures UniqueKeys(Save(users, id, u).value)
    ensures FindByEmail(Save(users, id, u).value, email) == Some(id)
  {
    SavePreservesConsistency(users, id, u);
    var m := Save(users, id, u).value;
    assert id in m && m[id].email == NormalizeEmail(email);
    var r := FindByEmail(m, email);
    if r.value != id {
      assert Clash(m[r.value], m[id]);
    }
  }
}
