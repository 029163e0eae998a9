# Authentication core of the portfolio backend, in Dafny

This project models the backend's authentication and authorization logic:

- the `signup`, `signin` and `signout` handlers;
- the User schema: its setters, validators, password-hashing pre-save hook and `comparePassword`;
- the `x-auth-token` gate middleware;
- the `/auth` router, including `/protected` and the `/admin-only` role check.

Each handler is a pure function from the user collection (a `seq<User>`, in insertion order) and a request to a `Response` and the collection afterwards. The cryptographic collaborators are abstract:

- bcrypt is an injective hash (`Crypto.Hash`);
- a JSON Web Token (RFC 7519) is a claims set bound to the key that signed it;
- verification checks the key and the `exp` claim (section 4.1.4 of RFC 7519) against a clock value `now` passed in with the secret (`Http.Env`).

Modules follow the source files:

| module | models |
|---|---|
| `Wrappers` | `Option` |
| `Text` | JavaScript `trim`, the `lowercase` setter, the UTF-16 `length` that `minlength` measures, the shape the email regular expression `/.+@.+\..+/` accepts |
| `Crypto` | bcrypt and JWT as abstract values |
| `Http` | responses, the secret and the clock |
| `UserModel` | `models/User.js` |
| `AuthController` | `controllers/authController.js` |
| `AuthMiddleware` | `middleware/authMiddleware.js` |
| `AuthRoutes` | `routes/authRoutes.js` |

Mongoose facts the model relies on:

- The `trim` and `lowercase` setters run on the values assigned to a document. They also run on query filter values for those paths, `$or` included. So signup's `findOne({email})` and `findOne({username})`, and signin's `$or` lookup, compare cast values (`UserModel.CastEmail`, `UserModel.CastUsername`).
- `save` runs the schema validators before the pre-save hook. A body that fails validation makes `save` reject. The controller's `catch` turns that into 500 "Server error during signup", with nothing stored.
- `isModified('password')` holds exactly for a password assigned since the last save. The model marks it `Plain`; a stored record always holds a `Hashed` digest.

## Model

| member | source | states |
|---|---|---|
| Text.Trim | portfolio-backend/models/User.js:11 | the stored value has no whitespace at either end and is no longer than the input |
| Text.TrimRemovesOnlyWhitespace | portfolio-backend/models/User.js:11 | trim returns exactly the middle of the input; everything removed before and after it is whitespace |
| Text.TrimKeepsTrimmed | portfolio-backend/models/User.js:11 | a value with no whitespace at either end is stored unchanged |
| Text.TrimIdempotent | portfolio-backend/models/User.js:11 | trimming a stored username again changes nothing |
| Text.LowerPointwise | portfolio-backend/models/User.js:19 | lower-casing maps each character to its lower-case form and keeps its position |
| Text.LowerKeepsLower | portfolio-backend/models/User.js:19 | a value with no upper-case letter is stored unchanged |
| Text.Lower | portfolio-backend/models/User.js:19 | the stored email has the length of its input and no upper-case letter |
| Text.LowerKeepsTrimmed | portfolio-backend/models/User.js:18-19 | lower-casing after trimming leaves no whitespace at either end |
| Text.LowerCharKeepsClass | portfolio-backend/models/User.js:18-20 | lower-casing never turns a character into or out of whitespace or a line terminator |
| Text.Utf16Length | portfolio-backend/models/User.js:12-25 | the length `minlength` measures lies between the number of characters and twice that |
| Text.Utf16LengthAppend | portfolio-backend/models/User.js:12-25 | the measured length of a concatenation is the sum of the parts' lengths |
| Text.Utf16LengthCountsPairs | portfolio-backend/models/User.js:12-25 | the measured length equals the number of characters exactly when every character lies in the Basic Multilingual Plane |
| UserModel.CastUsername | portfolio-backend/models/User.js:7-12 | the stored username has no surrounding whitespace |
| UserModel.CastEmail | portfolio-backend/models/User.js:14-19 | the stored email has no surrounding whitespace and no upper-case letter |
| UserModel.UsernameCastKeepsStored | portfolio-backend/models/User.js:7-12 | a query with a stored username compares that same username |
| UserModel.EmailCastKeepsStored | portfolio-backend/models/User.js:14-19 | a query with a stored email compares that same email |
| UserModel.NewUser | portfolio-backend/controllers/authController.js:28-33 | the new document holds the plaintext as a modified password, the role and id given, the username and email as their setters cast them, and the current time as `createdAt` |
| UserModel.NewUserStable | portfolio-backend/models/User.js:7-19 | building a document again from the values a document stores gives the same document |
| UserModel.Validates | portfolio-backend/models/User.js:6-31 | a document that passes `minlength`, `match` and `enum` also passes `required` on every path |
| UserModel.PreSave | portfolio-backend/models/User.js:39-51 | after the hook the password is a digest, and no other field changes |
| UserModel.ComparePassword | portfolio-backend/models/User.js:54-56 | a candidate matches exactly when the record stores the digest of that candidate; a stored plaintext matches nothing |
| UserModel.PreSaveHashesModified | portfolio-backend/models/User.js:39-47 | a modified password is replaced by the digest of that plaintext |
| UserModel.PreSaveIdempotent | portfolio-backend/models/User.js:39-43 | an unmodified password is left as it is, so saving twice never hashes twice |
| UserModel.PasswordRoundTrip | portfolio-backend/models/User.js:39-56 | after saving plaintext p, comparePassword accepts q exactly when q is p |
| Crypto.HashInjective | portfolio-backend/models/User.js:45-46 | two passwords have the same digest exactly when they are equal |
| Crypto.Verify | portfolio-backend/middleware/authMiddleware.js:19 | verification yields claims only from a token signed with the secret that has not expired, and yields them for every such token |
| Crypto.Issue | portfolio-backend/controllers/authController.js:40-51 | an issued token is signed, carries the given principal and expires one hour after it is issued |
| Crypto.SignVerifyRoundTrip | portfolio-backend/middleware/authMiddleware.js:19 | verifying a token signed with the secret gives back its claims until they expire |
| Crypto.OnlySignedTokensVerify | portfolio-backend/middleware/authMiddleware.js:19-28 | a token signed with another key, or any other header text, never verifies |
| Crypto.IssuedTokenLifetime | portfolio-backend/controllers/authController.js:48-51 | an issued token verifies exactly during the hour after it is issued |
| AuthController.Signup | portfolio-backend/controllers/authController.js:12-62 | a taken email gives 400 with the email message; a free email with a taken username gives 400 with the username message; with both free, a document that fails validation gives 500 with nothing stored; 201 exactly when both are free and the document validates; on 201 exactly one hashed record is appended and the token carries its id and role; on any other outcome nothing is stored and no token is issued |
| AuthController.ChosenRole | portfolio-backend/controllers/authController.js:32 | the role is never empty; it is the supplied role when one is given and not empty, and "user" otherwise |
| AuthController.FindByIdentifier | portfolio-backend/controllers/authController.js:72-74 | the lookup returns the first record whose email or username equals the cast identifier, or none when no record does |
| AuthController.Signin | portfolio-backend/controllers/authController.js:67-103 | never changes the collection; 200 exactly when a password is given and the first matching record's password matches, with a token carrying that record's id and role; 500 exactly when a record matches and no password is given; every other outcome is the single Invalid Credentials response |
| AuthController.Signout | portfolio-backend/controllers/authController.js:114-121 | answers 200 with no token and leaves the collection unchanged |
| AuthController.SignupRole | portfolio-backend/controllers/authController.js:28-46 | the stored role is "user" when none is given, "admin" when "admin" is asked for, always one of the enum's values, and the token carries it |
| AuthController.SignupRejectsUnknownRole | portfolio-backend/models/User.js:27-31 | a role outside the enum is never stored |
| AuthController.AcceptedDraftIsSaved | portfolio-backend/controllers/authController.js:17-38 | an accepted signup stores a valid hashed record with the next id and with an email and a username no earlier record holds |
| AuthController.SignupKeepsWellFormed | portfolio-backend/controllers/authController.js:17-38 | signup keeps ids in order, every record saved with a digest, and emails and usernames unique |
| AuthController.SecondRegistrationFails | portfolio-backend/controllers/authController.js:17-25 | after a successful signup, another with the same cast email or username gets 400 and stores nothing |
| AuthController.SigninSoleRecord | portfolio-backend/controllers/authController.js:72-101 | with one matching record, signin logs it in exactly when the password is its own, answers 500 when there is no password, and otherwise answers Invalid Credentials |
| AuthController.SigninUniformFailure | portfolio-backend/controllers/authController.js:76-85 | an unknown identifier, with or without a password, and a given but wrong password give the identical 400 response with no token |
| AuthController.SigninRevealsKnownIdentifier | portfolio-backend/controllers/authController.js:72-108 | with no password, an identifier some record answers to gets 500 and one no record answers to gets 400 |
| AuthController.SigninUniform | portfolio-backend/controllers/authController.js:67-103 | the corrected signin: 200 exactly when the given password matches the first matching record, Invalid Credentials otherwise, and the same as signin whenever a password is given |
| AuthController.SigninUniformHidesIdentifiers | portfolio-backend/controllers/authController.js:76-85 | a failed corrected signin gets the same response whatever the collection holds |
| AuthController.SignedUpRecordSignsIn | portfolio-backend/controllers/authController.js:38-101 | a new record that is the first to answer to its email or username is logged in as itself with that password |
| AuthController.RegisterThenSignin | portfolio-backend/controllers/authController.js:17-101 | register then sign in succeeds, with a token for the new record, unless an earlier record holds the identifier in the other field |
| AuthController.SignupStoresFreshBody | portfolio-backend/controllers/authController.js:17-54 | a valid body already in stored form, with no clash, is stored as given with role "user", and the token names the new record |
| AuthController.SigninAnswersEarlierRecord | portfolio-backend/controllers/authController.js:17-74 | when any earlier record's username equals the new email, signin with that email never logs the new record in; it succeeds only when the first record answering to that email is that one or an earlier one and the password is that record's, and its token is then for that record |
| AuthController.XavierRegisters | portfolio-backend/controllers/authController.js:12-54 | the first record of the collision example is stored exactly as written |
| AuthController.CollisionRefusesNewRecord | portfolio-backend/controllers/authController.js:17-85 | a body whose email is the first record's username is accepted at signup but refused at signin with its own password |
| AuthController.CollisionExample | portfolio-backend/controllers/authController.js:17-85 | concrete case: "x@y.com" is Xavier's username and Carol's email; Carol's signup gets 201, then her signin with that email gets Invalid Credentials |
| AuthController.SignupGuarded | portfolio-backend/controllers/authController.js:17-25 | refuses an email or username that any record answers to at signin, with the message for that field; a body no record answers to is handled exactly as signup handles it |
| AuthController.GuardedRegisterThenSignin | portfolio-backend/controllers/authController.js:17-101 | with the guard, register then sign in by email or username always logs the new record in |
| AuthController.SignupGuardedKeepsWellFormed | portfolio-backend/controllers/authController.js:17-38 | the guarded signup keeps the collection well formed |
| AuthController.GuardedRefusesCollision | portfolio-backend/controllers/authController.js:17-20 | the guarded signup refuses Carol's email in the collision example |
| AuthMiddleware.Gate | portfolio-backend/middleware/authMiddleware.js:7-29 | a missing or empty header gives 401 "No token"; a header that fails to verify gives 401 "Token is not valid" whatever the reason; it continues exactly when the token verifies, with `req.user` the decoded user claim |
| AuthMiddleware.GateAcceptsIssuedToken | portfolio-backend/middleware/authMiddleware.js:17-28 | a token the server issued passes with its principal until it expires, and is refused as invalid from then on |
| AuthMiddleware.GateRejectsForeignTokens | portfolio-backend/middleware/authMiddleware.js:25-28 | a token signed with another key and a non-token string get the same 401 |
| AuthRoutes.ProtectedHandler | portfolio-backend/routes/authRoutes.js:26-31 | /protected, past the gate, answers 200 with the decoded user and no token |
| AuthRoutes.AdminOnlyHandler | portfolio-backend/routes/authRoutes.js:34-43 | /admin-only, past the gate, answers 403 exactly for a role other than "admin" and 200 with the user exactly for "admin" |
| AuthRoutes.Dispatch | portfolio-backend/routes/authRoutes.js:12-43 | only signup can change the collection; /protected answers 200 exactly when the gate passes; /admin-only answers 403 exactly when the gate passes with a role other than "admin" |
| AuthRoutes.PublicRoutesIgnoreToken | portfolio-backend/routes/authRoutes.js:12-22 | signup, signin and signout give the same result whatever the header holds, the same as the bare handlers |
| AuthRoutes.GatedRoutesIgnoreUsers | portfolio-backend/routes/authRoutes.js:26-43 | the gated routes answer the same for any collection and leave it unchanged |
| AuthRoutes.ProtectedEchoesUser | portfolio-backend/routes/authRoutes.js:26-31 | /protected gives the gate's 401, or 200 echoing exactly the decoded user |
| AuthRoutes.AdminOnlyOutcomes | portfolio-backend/routes/authRoutes.js:34-43 | /admin-only gives the gate's 401, 403 for a non-admin, or the welcome with the user for an admin |
| AuthRoutes.ForbiddenOnlyAfterGate | portfolio-backend/routes/authRoutes.js:34-38 | 403 needs a verified token; a missing or invalid token always gets 401 |
| AuthRoutes.SelfAssignedAdmin | portfolio-backend/controllers/authController.js:28-33 | a caller who signs up asking for "admin" gets a token /admin-only accepts for the next hour |
| AuthRoutes.AliceRegisters | portfolio-backend/controllers/authController.js:12-54 | concrete case: alice's signup into an empty collection gets 201, one record and a "user" token for id 0 |
| AuthRoutes.AliceWrongPassword | portfolio-backend/controllers/authController.js:76-85 | concrete case: a wrong password with her username gets Invalid Credentials |
| AuthRoutes.AliceSignsIn | portfolio-backend/controllers/authController.js:88-103 | concrete case: her password with her email gets a token for record 0 with role "user" |
| AuthRoutes.AliceMissingPassword | portfolio-backend/controllers/authController.js:72-108 | concrete case: with no password, "alice" gets 500 and the unknown "bob" gets Invalid Credentials |
| AuthRoutes.AliceIsNoAdmin | portfolio-backend/routes/authRoutes.js:34-38 | concrete case: her "user" token gets 403 on /admin-only while valid, and no token gets 401 |

## Left out

- bcrypt's salt and cost factor (`genSalt(10)`): the hash is an injective function of the password. The same password therefore always has the same digest here; only comparison uses the digest.
- JWT encoding, signature algorithm and header: a token is its claims plus the key. Any header text that is not a token is `Malformed` and never verifies.
- An unset `JWT_SECRET`: the secret is always some string.
- The callback of `jwt.sign` and its `throw`: signing never fails here.
- Persistence and lookup failures, which also reach the 500 answers (`authController.js` lines 58-61 and 105-108). Only two causes of those answers are modelled: a failed validation at signup and bcrypt's refusal of a missing password at signin.
- The race between `findOne` and `save`: this is concurrency, and the database's unique indexes enforce it. The model applies one request at a time.
- MongoDB ObjectIds: a record's id is its position in the collection.
- `Date.now` and the one-hour expiry run on one clock in seconds. The clock is a parameter.
- Request bodies whose fields are present but not strings. A missing signup field or signin identifier is modelled as the empty string: no record holds it and the required validator rejects it. A missing signin password is modelled as `None`.
- AuthController.FindByIdentifier: returns the first match in insertion order. MongoDB promises no order for `findOne` without a sort; the model assumes natural order equals insertion order. The first match matters only when several records answer to one identifier, as in the collision finding.
- Crypto.HashInjective: bcrypt uses only the first 72 bytes of a password's UTF-8 encoding, so passwords that agree on those bytes share a digest. The model's hash distinguishes every two strings and does not promise that truncation.
- UserModel.PasswordRoundTrip: holds in the source only for passwords of at most 72 UTF-8 bytes. A longer candidate agreeing with the stored password on the first 72 bytes also matches there; the model does not promise that.
- Text.LowerChar: lower-cases ASCII letters only, because JavaScript's full Unicode case mapping is not modelled.
- The Express 404 for unknown paths and methods, `server.js`, the frontend and the test suites: none of them decides who is authenticated.
- No correction for the self-assigned admin role. Signup stores whatever enum role the body names, so any caller can obtain an admin token. Whether that is intended is an open question. Nothing in the code marks it as a mistake, so the model keeps the behaviour and exhibits it with `AuthRoutes.SelfAssignedAdmin` instead of correcting it.
- `AuthRoutes.Dispatch` uses the signup and signin as written (`AuthController.Signup`, `AuthController.Signin`), not the corrected ones, so that the router stays faithful to the source.

## Findings

| source | as written | input that shows it | evidently intended | confidence | as-written member | corrected member |
|---|---|---|---|---|---|---|
| portfolio-backend/controllers/authController.js:17-25 | signup checks the new email only against stored emails and the new username only against stored usernames, while signin's `$or` looks an identifier up in both fields and takes the first match | a stored record with username "x@y.com" and email "a@y.com"; a new signup with username "carol", email "x@y.com", password "secret2" gets 201; signin with "x@y.com" and "secret2" then finds the earlier record and answers Invalid Credentials (and with the earlier record's password it logs in as that record) | a user who registers can sign in with the email or username just registered, which needs signup to refuse an identifier any record already answers to | not executed | AuthController.CollisionExample | AuthController.GuardedRegisterThenSignin |
| portfolio-backend/controllers/authController.js:72-108 | signin looks the identifier up before it touches the password; with no password in the body, `comparePassword(undefined)` makes bcrypt reject, and the `catch` answers 500 | a collection holding alice; signin with identifier "alice" and no password gets 500 "Server error during signin", while "bob" with no password gets 400 Invalid Credentials | every failed signin gets the same 400 response, so that the response does not tell which identifiers exist | not executed | AuthRoutes.AliceMissingPassword | AuthController.SigninUniformHidesIdentifiers |
