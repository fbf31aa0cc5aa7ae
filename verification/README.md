# cariur-backend in Dafny

This project models the decision and update rules of the cariur backend, an
Express/Mongoose REST service for a project-sharing platform. Users sign up
with a password, with a generated password, with Google, or by e-mail
one-time code. They then create projects and like, comment on and review them.

The model is functional:
- The database is a map from id to record: `UserModel.Users` and
  `ProjectController.Projects`. Queries run over the sequence of projects in
  stored order.
- Every handler is a pure function from the collection and the request to the
  reply (status and body) and the new collection.
- `save()` is `UserModel.Save`: the schema validators first, then the unique
  indexes on email, username and googleId. Records are also trimmed and
  lower-cased by the schema setters (`UserModel.Normalized`).
- `UserModel.Consistent` is the collection invariant: every record validates,
  has been through the setters, and the unique indexes hold.

JSON Web Tokens are an abstract `Tokens.Token`: the signing secret, the payload
claims, `iat` and `exp`.
- Expiry follows the `exp` claim of section 4.1.4 of RFC 7519: a token is
  accepted strictly before `exp`.
- The printed form goes through a caller-supplied `Tokens.Codec`. Lemmas that
  need it assume only that the codec parses back what it prints (`Faithful`).
- The two request gates read the `Authorization: Bearer <token>` header of
  section 2.1 of RFC 6750 loosely, as the code does. `authenticateToken` takes
  the second space-separated field whatever the first word is. `protect` only
  checks that the header starts with `Bearer`.

bcrypt is a caller-supplied `Hashing.Hasher`; lemmas assume only that a
password matches its own hash (`Sound`). Random numbers and bytes, the id the
database assigns and the clock are parameters.

Two behaviours of the code are stated as proved lemmas rather than corrected:
- The OTP flow issues token pairs through config/jwt.js, whose payload key is
  `userId`. Both gates read `id`, so `authenticateToken` answers 401 "User not
  found" for such a token and `protect` passes it on with no user
  (`Gates.UserIdTokenFindsNobody`).
- `protect` passes a valid token for a removed user on with no user
  (`Gates.RemovedUserPassesProtect`).

## Model

| member | source | states |
|---|---|---|
| Text.TrimIsBareSlice | models/User.js:10-16 | the trim setter keeps one contiguous slice of its input, starting after the leading white space, with no white space left at either end |
| Text.TrimIdempotent | models/User.js:10-16 | running the `trim` setter on a stored value changes nothing |
| Text.Utf16LengthOfBmp | models/Project.js:24 | the length `maxlength` checks equals the number of characters when none lies outside the Basic Multilingual Plane |
| Text.Utf16LengthOfAstral | models/Project.js:24 | the length `maxlength` checks is twice the number of characters when every one lies outside the Basic Multilingual Plane |
| Text.JoinOfSplit | middlewares/authenticateToken.js:11 | `split(" ")` loses nothing: joining the fields with single spaces gives the header back |
| Text.SplitOfJoin | middlewares/authenticateToken.js:11 | splitting single-space-joined words without spaces gives the words back |
| Text.SecondFieldIffSpace | middlewares/authenticateToken.js:11-13 | `header.split(" ")[1]` is defined exactly when the header holds a space |
| Text.SecondFieldOf | middlewares/authMiddleware.js:13 | the second field of `word + " " + token` is the token, whatever the word |
| Text.KeepAsciiAlnum | controllers/userController.js:11 | `replace(/[^a-zA-Z0-9]/g, "")` keeps exactly the ASCII letters and digits of its input |
| Text.KeepAsciiAlnumAppend | controllers/userController.js:11 | the deletion distributes over concatenation, so it acts on each character alone and keeps their order |
| Text.RemoveJsSpaces | controllers/authController.js:13 | `replace(/\s+/g, "")` keeps exactly the characters of its input that are not ECMAScript white space |
| Text.RemoveJsSpacesAppend | controllers/authController.js:13 | the deletion distributes over concatenation, so it acts on each character alone and keeps their order |
| Text.ParseDecimalOfDecimal | utils/otpUtils.js:5 | `toString()` of a number reads back as that number |
| Text.UnhexOfHex | controllers/authController.js:7 | `toString("hex")` of bytes decodes back to the same bytes |
| Hashing.Hash | controllers/userController.js:130 | bcrypt hashing yields a hash exactly when a password is given, and it throws on a missing one |
| Hashing.Compare | controllers/userController.js:249 | bcrypt comparison answers exactly when both the password and the stored hash are present |
| Hashing.CompareOwnHash | controllers/authController.js:30-39 | under a sound hasher a password matches the hash stored for it |
| UserModel.NormalizeEmailIdempotent | models/User.js:11-17 | the lowercase-then-trim setters are idempotent, so re-saving an email changes nothing |
| UserModel.NewUser | models/User.js:8-214 | a new record holds the given names with the setters applied, the default picture, false flags, zero login attempts, empty lists and the default account source, theme, plan, subscription status and payment method |
| UserModel.Save | models/User.js:8-270 | save succeeds exactly when the validators pass (required names and email, a bio of at most 500 UTF-16 code units, the gender, role, rating, account-source, theme, plan, subscription-status and payment-method enums) and no other record shares the email, username or present googleId; it then stores the record under its id |
| UserModel.SavePreservesConsistency | models/User.js:10-18 | a successful save of a set-through record keeps every record valid and the unique indexes intact |
| UserModel.ResaveSucceeds | models/User.js:10-18 | a record that saved once saves again after changes the indexes and validators do not see |
| UserModel.RestampSucceeds | models/User.js:10-18 | in a consistent collection such a re-save of a stored record cannot fail |
| UserModel.FindByEmail | models/User.js:11-17 | `findOne({ email })` finds the record whose email is the lower-cased and trimmed query, and finds nothing when no record has it |
| UserModel.FindByEmailOfStored | models/User.js:11-17 | with unique emails, the lookup by a stored record's email returns that record |
| UserModel.FindByEmailNormalizes | models/User.js:15-16 | spellings of an email that differ only in case or surrounding spaces find the same user |
| UserModel.SavedUserFoundByEmail | models/User.js:11-17 | a record saved from an email is found again by that email |
| ProjectModel.NewProject | models/Project.js:19-147 | a new project takes every value the request body gives, counters, like, feedback and comment lists and dates included, and the schema default for each one it leaves out: status "In Progress", version "v1.0", license "MIT", public, zero counters, empty lists, created now; the owner and collaborators given by the handler win over the body |
| ProjectModel.NewProjectValidatesIff | models/Project.js:3-131 | a new project passes validation exactly when the title (at most 100 UTF-16 code units) and description (at most 1000) are non-empty, the status and difficulty are absent or in their enums, and every feedback and comment entry the body carries has its text |
| ProjectModel.AstralTitleTooLong | models/Project.js:21-25 | a title of 60 characters from outside the Basic Multilingual Plane is refused, since it is 120 code units long |
| ProjectController.CreateProject | controllers/projectController.js:5-24 | 201 exactly when there is a caller and the request validates; the owner is the caller, the collaborators are the caller followed by the supplied list, the likes and creation time are the body's or the defaults, and only the new id changes |
| ProjectController.LikeProject | controllers/projectController.js:88-117 | 404 for a missing project, 401 without a caller, 400 when already liked, each with no change; 200 exactly when a caller who has not liked a valid project likes it, and then exactly one like by the caller is appended |
| ProjectController.LikesByPositiveIffLiked | controllers/projectController.js:101-104 | the "already liked" test holds exactly when the caller has at least one like entry |
| ProjectController.LikeKeepsOneLikePerUser | controllers/projectController.js:101-111 | a successful like keeps every user at one like at most |
| ProjectController.FindLike | controllers/projectController.js:133-136 | `findIndex` gives the first like by the user; it throws only on an entry with no user that comes before every like by the user, and never when every entry has a user |
| ProjectController.UnlikeProject | controllers/projectController.js:120-150 | 404, 401, or 400 "Project not liked yet" with no change; 200 exactly when the search finds a like by the caller on a valid project, and so always when the caller has liked and every like has a user; success removes exactly the first like by the caller and keeps the rest in order |
| ProjectController.UnlikeRemovesOneLike | controllers/projectController.js:133-144 | a successful unlike takes the caller's like count down by one and leaves every other user's count alone |
| ProjectController.LikeThenUnlikeRestores | controllers/projectController.js:88-150 | liking and then unliking gives back the original like list |
| ProjectController.AddFeedback | controllers/projectController.js:153-176 | a missing or empty text is 400 before any lookup; success appends exactly one entry by the caller and changes nothing else |
| ProjectController.AddComment | controllers/projectController.js:179-198 | no up-front check; an empty comment is refused by the validator on save; success appends exactly one entry |
| ProjectController.AddFeedbackKeeps | controllers/projectController.js:153-176 | a feedback request keeps every project valid with one like per user; a successful one adds exactly one entry with the request's text and leaves likes, comments and collaborators alone |
| ProjectController.AddCommentKeeps | controllers/projectController.js:179-198 | a comment request keeps every project valid with one like per user; a successful one adds exactly one entry with the request's text and leaves likes, feedback and collaborators alone |
| ProjectController.CreateProjectKeeps | controllers/projectController.js:5-24 | creation keeps every project valid with one like per user, provided the body's own like list names nobody twice |
| ProjectController.Without | controllers/projectController.js:279-281 | the filter removes every occurrence of the member and keeps everything else |
| ProjectController.WithoutCounts | controllers/projectController.js:279-281 | the filter leaves no occurrence of the member and keeps every other id with its multiplicity |
| ProjectController.AddTeamMember | controllers/projectController.js:250-268 | 400 with no change when already a member; 200 exactly when the id is new to a valid project, and then it is appended once |
| ProjectController.RemoveTeamMember | controllers/projectController.js:271-291 | 400 with no change when not a member; 200 exactly when the id is a collaborator of a valid project, and then every occurrence is removed |
| ProjectController.AddThenRemoveTeamMember | controllers/projectController.js:250-291 | adding a member and then removing them gives back the original list |
| ProjectQueries.SortNewest | controllers/projectController.js:353 | `sort({ createdAt: -1 })` is a newest-first permutation of the collection |
| ProjectQueries.Feed | controllers/projectController.js:351-358 | the feed holds min(total, 20) projects, newest first, each as often at most as it is stored |
| ProjectQueries.FeedIsNewest | controllers/projectController.js:353 | no project left out of the feed is newer than one shown |
| ProjectQueries.Matching | controllers/projectController.js:373-379 | a query filter keeps exactly the projects it accepts |
| ProjectQueries.FindSorted | controllers/projectController.js:379 | `find(filter).sort({ createdAt: -1 })` is a newest-first permutation of the matching projects |
| ProjectQueries.ByDateRange | controllers/projectController.js:371-384 | the result is a newest-first permutation of the projects inside both inclusive bounds, each as often as it is stored |
| ProjectQueries.UnboundedRangeIsEverything | controllers/projectController.js:373-378 | with no bounds the range query returns the whole collection |
| ProjectQueries.CeilDiv | controllers/projectController.js:397 | totalPages is ⌈total/limit⌉: (totalPages−1)·limit < total ≤ totalPages·limit when total > 0 |
| ProjectQueries.Window | controllers/projectController.js:392-394 | `skip(s).limit(n)` holds at most n entries, the slice from s when it fits, the rest of the collection on a partial last page, and nothing past the end |
| ProjectQueries.Paginate | controllers/projectController.js:386-411 | page defaults to 1 and limit to 10; the reply is window (page−1)·limit of the newest-first list with its totals, and a page below 1 is 400 |
| ProjectQueries.PagesCoverCollection | controllers/projectController.js:386-411 | reading pages 1 to totalPages in turn yields every project exactly once, newest first |
| ProjectQueries.PaginatePageIsWindow | controllers/projectController.js:392-394 | page p of the reply is the p-th window of the sorted collection |
| ProjectQueries.SearchProjects | controllers/projectController.js:201-224 | 400 for a missing or empty query; 404 exactly when no project matches; otherwise 200 with a newest-first permutation of the matching projects |
| ProjectQueries.FilterProjects | controllers/projectController.js:228-247 | 400 for a missing or empty criterion; otherwise 200 with a newest-first permutation of the matching projects, even when there are none |
| ProjectQueries.FilterByCategory | controllers/projectController.js:237-241 | the `{ category: criteria }` filter names no schema path, so a non-empty criterion answers the whole collection newest first when `strictQuery` strips the path, and no project otherwise |
| UserController.PublicView | controllers/userController.js:183-230 | the record shown in a reply holds no password hash, refresh token or one-time code, and otherwise equals the stored record |
| UserController.GenerateUsername | controllers/userController.js:10-14 | the ASCII letters and digits of the lower-cased name, followed by the decimal suffix below 1000; only `[a-z0-9]`, at most three characters longer than the name |
| UserController.GenerateUsernameKeepsCleanName | controllers/userController.js:11 | a name already in `[a-z0-9]` is kept whole in front of the suffix |
| UserController.GoogleUser | controllers/userController.js:56-63 | the created record carries the googleId, the lower-cased email, the name parts and the picture or the default one |
| UserController.NameParts | controllers/userController.js:34 | the first name has no space, and a last name exists exactly when the name holds a space |
| UserController.GoogleLink | controllers/userController.js:42-53 | 200 exactly when storing the new refresh token succeeds; the stored token is the one returned |
| UserController.GoogleCreate | controllers/userController.js:55-77 | 201 exactly when the new record saves; the record then holds the returned refresh token |
| UserController.GoogleAuth | controllers/userController.js:16-82 | 400 without a Google token; 500, with no write, when the tokeninfo request throws, which axios does for every status outside 2xx and so for a token Google refuses; 400 only for another 2xx status; a known email is linked (200), an unknown one creates one record (201) with the googleId; the stored refresh token is the returned one |
| UserController.GoogleAuthKnownEmail | controllers/userController.js:39-53 | once the token checks out, an email that is already stored always takes the linking branch |
| UserController.GoogleAuthKeepsConsistency | controllers/userController.js:16-82 | Google sign-in keeps the collection consistent |
| UserController.GoogleSignInLinksStored | controllers/userController.js:40-53 | with the email of a stored record the sign-in answers 200 and creates no record |
| UserController.GoogleSignInTwice | controllers/userController.js:40-77 | a second sign-in after a creating one links that record and creates none |
| UserController.SignupUser | controllers/userController.js:132-173 | the new record stores the hash, never the plain password, and copies the request fields, isAdmin and the settings paths included |
| UserController.SignupSettings | controllers/userController.js:152-167 | the account source, theme, plan, subscription status and payment method are the request's or their defaults, and they pass their enums exactly when every one the request gives is in its enum |
| UserController.CreateUser | controllers/userController.js:84-234 | a missing password is 500 with no write; 201 exactly when the record saves, so an out-of-enum setting is 500; on 201 it stores the hash and answers with the record minus the password and a one-hour `{ id }` token |
| UserController.SignupOutsideEnumRefused | controllers/userController.js:132-233 | an `accountSource` outside its enum makes sign-up answer 500 and store nothing |
| UserController.LoginUser | controllers/userController.js:237-282 | one 401 for an unknown email and for a wrong password; success stores the returned refresh token on the record and nothing else changes |
| UserController.LoginSucceedsOnMatch | controllers/userController.js:247-269 | on a consistent collection a matching password always logs in |
| UserController.RefreshToken | controllers/userController.js:284-310 | 401 without a token; 200 exactly when the token verifies, names a stored user and equals the stored token; never writes |
| UserController.LoginThenRefresh | controllers/userController.js:253-306 | the refresh token a login returns is accepted for the next 7 days |
| UserController.LaterLoginRevokesEarlierRefresh | controllers/userController.js:257-300 | a later login overwrites the stored token, so an earlier login's token is refused |
| UserController.ApplyUpdate | controllers/userController.js:340-357 | each listed field is replaced only by a truthy value; the password is re-hashed only when one is given; every other field is kept |
| UserController.ApplyUpdateKeepsNormalized | controllers/userController.js:342-344 | the setters keep an updated record normalised |
| UserController.ApplyUpdateIdempotent | controllers/userController.js:340-357 | applying the same update twice equals applying it once |
| UserController.EmptyUpdateKeepsUser | controllers/userController.js:340-357 | an update that supplies nothing leaves the record as it was |
| UserController.UpdateUserProfile | controllers/userController.js:335-385 | 404 for a missing record; 200 exactly when the merged record saves, answering without the password |
| UserController.EmptyProfileUpdateIsNoOp | controllers/userController.js:335-385 | an empty update on a consistent collection succeeds and writes nothing new |
| UserController.UpdateKeepsConsistency | controllers/userController.js:335-385 | a successful update keeps the collection consistent |
| UserController.SignupThenLogin | controllers/userController.js:84-282 | signing up and then logging in with the same email and password succeeds |
| AuthController.GenerateRandomPassword | controllers/authController.js:6-8 | exactly 16 lower-case hex characters |
| AuthController.RandomPasswordEncodesBytes | controllers/authController.js:6-8 | the password carries exactly the 8 random bytes |
| AuthController.GenerateRandomUsername | controllers/authController.js:10-16 | the lower-cased name with its white space deleted, then the number in decimal, then the 8 hex digits of the random bytes; 9 to 12 characters longer than the stripped name, with no space and no upper case |
| AuthController.RandomUsernameIsTrimmed | controllers/authController.js:10-16 | the trim setter leaves the generated username unchanged |
| AuthController.RandomUsernameJoinsWords | controllers/authController.js:10-16 | for a two-word lower-case name the username is the two words run together, then the number and the hex digits |
| AuthController.RegisteredUser | controllers/authController.js:31-37 | the new record holds the hash, the normalised email and the generated username |
| AuthController.Register | controllers/authController.js:18-49 | 400 "User already exists" exactly when the email is known, with no write; 201 exactly when the record saves, returning the plain password, the username and a 15-minute token |
| AuthController.Login | controllers/authController.js:51-66 | never writes; 200 exactly when the email is known and the password matches; 401 for an unknown email or a wrong password; 500 when bcrypt throws |
| AuthController.LoginFailsUniformly | controllers/authController.js:55-56 | an unknown email and a wrong password get the identical reply |
| AuthController.RegisterThenLogin | controllers/authController.js:18-66 | the password a registration returns logs the new user in, with a token for the new record |
| AuthController.SaveThenLogin | controllers/authController.js:39-61 | a saved record logs in with its email and a matching password |
| AuthController.LoginOfStored | controllers/authController.js:51-66 | a stored email with a password its hash accepts gets 200 and a 15-minute token for that record, with no write |
| Otp.GenerateOtp | utils/otpUtils.js:4-6 | six digits, no leading zero, reading back as the drawn number |
| Otp.SaveOtp | utils/otpUtils.js:8-11 | the code overwrites any earlier one, and on a consistent collection the save cannot fail |
| Otp.RestampIfConsistent | utils/otpUtils.js:8-11 | on a consistent collection, re-saving a record that keeps its email, username, googleId and validation verdict stores exactly the new record |
| Otp.VerifyOtp | utils/otpUtils.js:13-15 | strict equality: a stored code matches only the same string, and no stored code matches only an omitted one |
| Otp.NumberNeverMatches | utils/otpUtils.js:14 | a number never matches, even with the same digits |
| Otp.GenerateAndSendOtp | controllers/otpController.js:14-29 | an unknown email throws "User not found" with no write and no mail; a known one stores the code before the mail is handed over |
| Otp.VerifyOtpController | controllers/otpController.js:31-66 | the same 400 for an unknown email and a wrong code with no write; success marks the record verified, clears the code and returns a `{ userId }` token pair |
| Otp.StoredCodeVerifies | controllers/otpController.js:31-58 | on a consistent collection a request carrying the stored code is accepted with 200 |
| Otp.SendStoresCode | controllers/otpController.js:14-23 | after a send the collection is consistent and the record holds the new code |
| Otp.SentCodeVerifies | controllers/otpController.js:14-43 | the code that was mailed verifies the account |
| Otp.OtpSingleUse | controllers/otpController.js:36-43 | after a success the same code is refused |
| Otp.OmittedOtpPasses | controllers/otpController.js:32-40 | for a record with no stored code, a request without a code passes |
| Otp.LatestCodeWins | utils/otpUtils.js:8-11 | after a second send the first code is refused |
| Tokens.Verify | utils/jwtUtils.js:15-22 | verification accepts exactly a parsing token signed with the secret, strictly before its expiry |
| Tokens.VerifyToken | utils/jwtUtils.js:15-22 | every access-token failure gives the one error "Invalid or expired token" |
| Tokens.VerifyRefreshToken | utils/jwtUtils.js:24-31 | the same check against the refresh secret, with its own single error |
| Tokens.RotateRefreshToken | utils/jwtUtils.js:33-41 | valid exactly when the old token verifies; then a 7-day refresh token for the same id, else no token |
| Tokens.GenerateTokens | config/jwt.js:3-13 | both tokens carry `{ userId }` for the same user, 15 minutes under JWT_SECRET and 9 days under REFRESH_TOKEN_SECRET, and no `id` claim |
| Tokens.AccessTokenLifetime | utils/jwtUtils.js:7-22 | a `generateToken` token verifies exactly during its 15 minutes and names its user |
| Tokens.RefreshTokenLifetime | utils/jwtUtils.js:11-31 | a `generateRefreshToken` token verifies exactly during its 7 days and names its user |
| Tokens.KindsDoNotCross | utils/jwtUtils.js:4-31 | with distinct secrets neither kind of token passes the other kind's check |
| Tokens.RotationLeavesOldTokenValid | utils/jwtUtils.js:33-41 | rotation revokes nothing: the old and the new refresh token both verify |
| Gates.AuthenticateToken | middlewares/authenticateToken.js:5-25 | 401 without a header, 401 without a second field, 403 when verification fails, 401 when no user has the `id`; otherwise next with that user |
| Gates.Protect | middlewares/authMiddleware.js:5-24 | 401 unless the header starts with "Bearer", 401 when verification fails; otherwise next with the user minus its password, or with none |
| Gates.TokenFieldOfHeader | middlewares/authenticateToken.js:11 | the second field of a scheme word, a space and a printed token is the token |
| Gates.AccessTokenAdmitted | middlewares/authenticateToken.js:15-21 | a token signed with the access secret whose `id` is a stored user admits that user until expiry, then 403 |
| Gates.LoginTokenAdmitted | middlewares/authenticateToken.js:5-25 | a login token admits its user for 15 minutes under any scheme word, then 403 |
| Gates.LoginTokenProtected | middlewares/authMiddleware.js:5-24 | the same token behind "Bearer" passes `protect` with the user minus its password |
| Gates.UserIdTokenFindsNobody | config/jwt.js:4 | a `{ userId }` access token gets 401 "User not found" from one gate and next with no user from the other |
| Gates.RemovedUserPassesProtect | middlewares/authMiddleware.js:16-17 | a valid token for a removed user passes `protect` with no user, while `authenticateToken` answers 401 |
| Gates.BareSchemeRefused | middlewares/authMiddleware.js:13-20 | "Bearer" alone: token missing at one gate, token failed at the other |
| Gates.SchemeIgnored | middlewares/authenticateToken.js:11 | `authenticateToken` decides alike whatever the scheme word |
| Gates.GatesAgree | middlewares/authMiddleware.js:5-24 | on a "Bearer" header the gates agree: one passing implies the other passes the same user minus its password, and a refusal by `protect` is a refusal by both |
| Passport.ProfileUser | config/passport.js:20-29 | the new record carries the googleId, the first email, the name parts, the first photo and isVerified; building it throws without a name or a photo |
| Passport.GoogleVerify | config/passport.js:16-43 | a known first email yields the stored user unchanged with no write; an unknown one saves exactly the profile's record; no email, a throw or a failed save yield the error with no write; the token is a one-hour `{ id }` token |
| Passport.GoogleVerifyKeepsConsistency | config/passport.js:18-31 | a successful callback keeps the collection consistent, and its user is found by the email |
| Passport.GoogleVerifyIdempotent | config/passport.js:18-31 | a second callback with the same profile finds the first one's user and writes nothing |
| Passport.SessionTokenOfStored | config/passport.js:34-36 | the callback's token admits a stored user at `authenticateToken` for one hour, then 403 |
| Passport.SessionTokenAdmitted | config/passport.js:34-39 | the token of a successful callback admits its user for one hour, then 403 |
| Passport.TokenOfRedirect | routes/auth.js:17-20 | reading the redirect back finds a token exactly behind the frontend's success path |
| Passport.RedirectCarriesToken | routes/auth.js:17-20 | the redirect URL delivers the token unchanged |

## Left out

- The database: `$text` search, `populate`, `countDocuments`, update validators of `findByIdAndUpdate`, and the timing of unique-index builds. The store is a map with lookup by email and by id only. The text search is a parameter of the search handler; the filter handler's match is a parameter too, instantiated by ProjectQueries.FilterByCategory.
- The project handlers outside the social operations and queries (get, update, delete, assign status, by user, by tag, trending), and the user handlers outside the core (get and delete profile), which are plain lookups and writes.
- Schema paths without a validator, default or index that the model relies on: notifications, social media, two-factor settings, tokens and codes, relations and the like in models/User.js (createUser copies them from the request and stores them unchecked); milestones, funding and the like in models/Project.js. The enum-checked user settings and the project counters, lists and dates a request body can set are modelled.
- ProjectController.CreateProject: feedback, comment and like entries given in the request body are taken whole; the default date and id Mongoose would give an entry that lacks them are not modelled.
- UserController.SignupSettings: a JSON `null` for a settings path, which fails its enum where an absent value takes the default, is not modelled; request values are either absent or strings.
- ProjectController.AddTeamMember: the body's `userId` is taken as a present, well-formed id. A request without it, which the source pushes as `undefined` and saves, and a malformed id, whose cast error the source answers with 400, are not modelled; the same holds for ProjectController.RemoveTeamMember.
- ProjectQueries.FilterProjects: `filterProjects` matches `category`, a path models/Project.js does not declare (it has `categories`), so no real category match exists. Whether Mongoose strips the unknown path depends on its `strictQuery` setting, which is not part of this model and is a parameter of ProjectQueries.FilterByCategory.
- ProjectQueries.Paginate: `page` and `limit` are taken as integers. The code reads them as query strings: skip and totalPages use numeric coercion, the window uses `parseInt(limit)`, and the reply echoes the strings. Non-integer or non-numeric values, for which the pages would not line up, are not modelled.
- Cryptography: bcrypt, JWT signing and the random sources are parameters.
- Mail and network I/O: the nodemailer transport is reduced to the message handed to it and the error it may throw; the Google tokeninfo request to its answer, or none when axios throws; passport's library wiring and sessions to the verify callback and the redirect.
- `generateFromEmail` from unique-username-generator is not part of this model; the username it draws is a parameter.
- Date parsing and the clock: times are integers. `Math.ceil` on floating point is integer ceiling division.
- Non-ASCII case mapping: `toLowerCase` is modelled on ASCII letters only.
- The e-mail a request gives is modelled as a string. A missing request e-mail, which Mongoose drops from the query filter, is not modelled.
- ProjectQueries.Paginate: requires a positive limit; a zero or negative `limit` query value, which MongoDB treats specially, is not modelled.
- ProjectQueries.Paginate: a negative skip is answered as 400 with a fixed message, standing in for the error MongoDB raises.
- Ties in `createdAt` are kept in stored order; MongoDB leaves their order unspecified.
- Concurrency: read-modify-write races between simultaneous like and unlike requests.
- `refreshToken` and `otp` are not declared in models/User.js, and Mongoose never saves a key the schema does not declare, whatever its `strict` option. As written, `user.refreshToken = …` (controllers/userController.js:46, 70, 257) and `user.otp = otp` (utils/otpUtils.js:9) are therefore lost on save, so `refreshToken` answers 401 for every token and `verifyOtpController` accepts only an omitted code, never a mailed one. The model departs from this on purpose: both are plain fields that persist, which is what the handlers evidently intend and what UserController.LoginThenRefresh, Otp.StoredCodeVerifies, Otp.SentCodeVerifies, Otp.OtpSingleUse and Otp.LatestCodeWins speak about.
- The googleId index in models/User.js is unique but not sparse; the model treats an absent googleId as never colliding.
- Response bodies keep only the fields the properties speak about. The user views shown in replies are the record minus its secrets (`UserController.PublicView`).
- Router wiring (routes/*.js) apart from the Google callback redirect of routes/auth.js, including the import of a name the auth middleware does not export, and bootstrap files (app.js, server.js, swagger.js, config, error middleware, the upload path and update.js).
- Otp.VerifyOtpController: when the save after a matching code fails, the handler never answers; the model returns no reply and leaves the collection unchanged.
