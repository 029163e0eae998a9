/** The signup, signin and signout handlers. Each is a function from the user
    collection and a request body to a response and the collection afterwards. */
module AuthController {
  import opened Wrappers
  import opened Text
  import opened Crypto
  import opened Http
  import opened UserModel

  /** The signup body. An absent username, email or password behaves like "": no
      record matches it and the required validator rejects it. An absent role is
      `None`. */
  datatype SignupBody = SignupBody(username: string, email: string, password: string, role: Option<string>)

  /** The signin body. An absent identifier behaves like "", which no record holds;
      an absent password is `None`, which bcrypt refuses to compare. */
  datatype SigninBody = SigninBody(emailOrUsername: string, password: Option<string>)

  /** A handler's response together with the collection it leaves behind. */
  datatype Reply = Reply(response: Response, users: seq<User>)

  const EmailTakenMessage := "User with this email already exists"
  const UsernameTakenMessage := "User with this username already exists"
  const RegisteredMessage := "User registered successfully"
  const SignupErrorMessage := "Server error during signup"
  const InvalidCredentialsMessage := "Invalid Credentials"
  const LoggedInMessage := "Logged in successfully"
  const SigninErrorMessage := "Server error during signin"
  const SignedOutMessage := "User signed out successfully (token should be removed from client)"

  /** The one response both signin failures share. */
  const InvalidCredentials := Message(400, InvalidCredentialsMessage)

  /** `role || 'user'`: an absent or empty role becomes the default. */
  function ChosenRole(role: Option<string>): (r: string)
    ensures r != ""
    ensures r == DefaultRole || role == Some(r)
    ensures role.Some? && role.value != "" ==> r == role.value
  {
    if role.None? || role.value == "" then DefaultRole else role.value
  }

  /** The document signup builds for a body; it gets the next free id. */
  function Draft(users: seq<User>, body: SignupBody, now: int): User {
    NewUser(|users|, body.username, body.email, body.password, ChosenRole(body.role), now)
  }

  /** Signup stores the body: neither the cast email nor the cast username is
      taken, and the document passes validation. */
  predicate Accepted(users: seq<User>, body: SignupBody, now: int) {
    && !HasEmail(users, CastEmail(body.email))
    && !HasUsername(users, CastUsername(body.username))
    && Validates(Draft(users, body, now))
  }

  /** The token issued for a saved record: its id and role. */
  function TokenFor(u: User, env: Env): Token {
    Issue(Principal(u.id, u.role), env.secret, env.now)
  }

  /** POST /auth/signup. The email check runs first, then the username check, both
      on the values the setters would store; a document that fails validation is
      reported as a server error; otherwise the hashed record is appended and a
      token for it is returned. */
  function Signup(users: seq<User>, body: SignupBody, env: Env): (r: Reply)
    ensures HasEmail(users, CastEmail(body.email)) ==>
              r == Reply(Message(400, EmailTakenMessage), users)
    ensures !HasEmail(users, CastEmail(body.email)) && HasUsername(users, CastUsername(body.username)) ==>
              r == Reply(Message(400, UsernameTakenMessage), users)
    ensures !HasEmail(users, CastEmail(body.email)) && !HasUsername(users, CastUsername(body.username))
            && !Validates(Draft(users, body, env.now)) ==>
              r == Reply(Message(500, SignupErrorMessage), users)
    ensures r.response.status == 201 <==> Accepted(users, body, env.now)
    ensures r.response.status == 201 ==>
              var saved := PreSave(Draft(users, body, env.now));
              && r.users == users + [saved]
              && r.response == Response(201, RegisteredMessage, Some(TokenFor(saved, env)), None)
    ensures r.response.status != 201 ==> r.users == users && r.response.token.None?
  {
    var email := CastEmail(body.email);
    var username := CastUsername(body.username);
    if HasEmail(users, email) then
      Reply(Message(400, EmailTakenMessage), users)
    else if HasUsername(users, username) then
      Reply(Message(400, UsernameTakenMessage), users)
    else
      var draft := Draft(users, body, env.now);
      if !Validates(draft) then
        Reply(Message(500, SignupErrorMessage), users)
      else
        var saved := PreSave(draft);
        Reply(Response(201, RegisteredMessage, Some(TokenFor(saved, env)), None), users + [saved])
  }

  /** The `$or` filter of signin: the identifier, cast as an email, is the record's
      email, or, cast as a username, is its username. */
  predicate AnswersTo(u: User, identifier: string) {
    u.email == CastEmail(identifier) || u.username == CastUsername(identifier)
  }

  /** Record `i` is the one signin's `findOne` returns for the identifier. */
  predicate IsFirstMatch(users: seq<User>, identifier: string, i: int) {
    && 0 <= i < |users|
    && AnswersTo(users[i], identifier)
    && forall j | 0 <= j < i :: !AnswersTo(users[j], identifier)
  }

  /** Signin's `findOne` with the `$or` filter: the first record, in insertion
      order, answering to the identifier. */
  function FindByIdentifier(users: seq<User>, identifier: string): (r: Option<nat>)
    ensures r.Some? ==> IsFirstMatch(users, identifier, r.value)
    ensures r.None? ==> forall j | 0 <= j < |users| :: !AnswersTo(users[j], identifier)
  {
    ScanFrom(users, identifier, 0)
  }

  /** The scan behind `FindByIdentifier`, from record `k` on, the records before `k`
      being known not to answer. */
  function ScanFrom(users: seq<User>, identifier: string, k: nat): (r: Option<nat>)
    requires k <= |users|
    requires forall j | 0 <= j < k :: !AnswersTo(users[j], identifier)
    ensures r.Some? ==> IsFirstMatch(users, identifier, r.value)
    ensures r.None? ==> forall j | 0 <= j < |users| :: !AnswersTo(users[j], identifier)
    decreases |users| - k
  {
    if k == |users| then None
    else if AnswersTo(users[k], identifier) then Some(k)
    else ScanFrom(users, identifier, k + 1)
  }

  /** The password of a signin body is present and is the record's own. */
  predicate Admits(u: User, password: Option<string>) {
    password.Some? && ComparePassword(u, password.value)
  }

  /** POST /auth/signin. An unknown identifier and a wrong password give the same
      response; a right password gives a token for the record found. An absent
      password reaches bcrypt only when a record is found, and bcrypt's refusal is
      reported as a server error. The collection is never changed. */
  function Signin(users: seq<User>, body: SigninBody, env: Env): (r: Reply)
    ensures r.users == users
    ensures r.response.status == 200 <==>
              exists i | IsFirstMatch(users, body.emailOrUsername, i) :: Admits(users[i], body.password)
    ensures forall i | IsFirstMatch(users, body.emailOrUsername, i) && Admits(users[i], body.password) ::
              r.response == Response(200, LoggedInMessage, Some(TokenFor(users[i], env)), None)
    ensures r.response.status == 500 <==>
              body.password.None? && exists i :: IsFirstMatch(users, body.emailOrUsername, i)
    ensures r.response.status == 500 ==> r.response == Message(500, SigninErrorMessage)
    ensures r.response.status != 200 && r.response.status != 500 ==> r.response == InvalidCredentials
  {
    var found := FindByIdentifier(users, body.emailOrUsername);
    if found.None? then
      Reply(InvalidCredentials, users)
    else if body.password.None? then
      Reply(Message(500, SigninErrorMessage), users)
    else if !ComparePassword(users[found.value], body.password.value) then
      Reply(InvalidCredentials, users)
    else
      Reply(Response(200, LoggedInMessage, Some(TokenFor(users[found.value], env)), None), users)
  }

  /** GET /auth/signout: the token is discarded by the client; the server only
      acknowledges. */
  function Signout(users: seq<User>): (r: Reply)
    ensures r.users == users
    ensures r.response.status == 200 && r.response.token.None?
  {
    Reply(Message(200, SignedOutMessage), users)
  }

  /** The role a successful signup stores and puts in its token: the supplied one
      when present (so a caller may ask for "admin" and get it), "user" otherwise,
      and in every case one of the enum's values. */
  lemma SignupRole(users: seq<User>, body: SignupBody, env: Env)
    requires Signup(users, body, env).response.status == 201
    ensures var saved := Signup(users, body, env).users[|users|];
              && IsRole(saved.role)
              && (body.role.None? ==> saved.role == DefaultRole)
              && (body.role == Some("admin") ==> saved.role == "admin")
              && Signup(users, body, env).response.token == Some(Issue(Principal(|users|, saved.role), env.secret, env.now))
  {
  }

  /** A supplied role outside the enum is never stored: validation rejects it. */
  lemma SignupRejectsUnknownRole(users: seq<User>, body: SignupBody, env: Env)
    requires body.role.Some? && body.role.value != "" && !IsRole(body.role.value)
    ensures Signup(users, body, env).response.status != 201
    ensures Signup(users, body, env).users == users
  {
  }

  /** The record signup stores for an accepted body is a saved record, with the
      next id, holding neither the email nor the username of any earlier record. */
  lemma AcceptedDraftIsSaved(users: seq<User>, body: SignupBody, now: int)
    requires Accepted(users, body, now)
    ensures var saved := PreSave(Draft(users, body, now));
              && IsSaved(saved) && saved.id == |users|
              && forall i | 0 <= i < |users| ::
                   users[i].email != saved.email && users[i].username != saved.username
  {
    var draft := Draft(users, body, now);
    var saved := PreSave(draft);
    assert saved.(password := draft.password) == draft;
  }

  /** Signup keeps the collection well formed: ids in order, every record saved with
      a digest, and no two records sharing an email or a username. */
  lemma SignupKeepsWellFormed(users: seq<User>, body: SignupBody, env: Env)
    requires WellFormed(users)
    ensures WellFormed(Signup(users, body, env).users)
  {
    var r := Signup(users, body, env);
    if r.response.status == 201 {
      var saved := PreSave(Draft(users, body, env.now));
      assert r.users == users + [saved];
      AcceptedDraftIsSaved(users, body, env.now);
      forall i | 0 <= i < |r.users|
        ensures r.users[i].id == i && IsSaved(r.users[i])
      {
        if i < |users| {
          assert r.users[i] == users[i];
        }
      }
      forall i, j | 0 <= i < j < |r.users|
        ensures r.users[i].email != r.users[j].email && r.users[i].username != r.users[j].username
      {
        if j == |users| {
          assert r.users[i] == users[i];
        }
      }
    }
  }

  /** Once a signup has succeeded, a second signup whose email or username casts to
      the same stored value fails with 400 and adds nothing. */
  lemma SecondRegistrationFails(users: seq<User>, first: SignupBody, second: SignupBody, env: Env, later: Env)
    requires Signup(users, first, env).response.status == 201
    requires CastEmail(second.email) == CastEmail(first.email)
             || CastUsername(second.username) == CastUsername(first.username)
    ensures var after := Signup(users, first, env).users;
              && Signup(after, second, later).response.status == 400
              && Signup(after, second, later).users == after
  {
    var after := Signup(users, first, env).users;
    var saved := after[|users|];
    assert saved.email == CastEmail(first.email) && saved.username == CastUsername(first.username);
    if CastEmail(second.email) == CastEmail(first.email) {
      assert HasEmail(after, CastEmail(second.email));
    } else {
      assert HasUsername(after, CastUsername(second.username));
    }
  }

  /** In a collection of one record that answers to the identifier, signin logs
      that record in exactly when the password is its own, and fails with a
      server error when there is no password. */
  lemma SigninSoleRecord(u: User, body: SigninBody, env: Env)
    requires AnswersTo(u, body.emailOrUsername)
    ensures Signin([u], body, env).response
              == if body.password.None? then Message(500, SigninErrorMessage)
                 else if ComparePassword(u, body.password.value)
                 then Response(200, LoggedInMessage, Some(TokenFor(u, env)), None)
                 else InvalidCredentials
  {
    assert IsFirstMatch([u], body.emailOrUsername, 0);
  }

  /** When a password is given, signin does not reveal which check failed: an
      unknown identifier and a wrong password give the identical response, with
      no token. An unknown identifier is refused that way with or without one. */
  lemma SigninUniformFailure(users: seq<User>, body: SigninBody, env: Env, i: int)
    ensures (forall j | 0 <= j < |users| :: !AnswersTo(users[j], body.emailOrUsername)) ==>
              Signin(users, body, env).response == InvalidCredentials
    ensures IsFirstMatch(users, body.emailOrUsername, i) && body.password.Some?
            && !ComparePassword(users[i], body.password.value) ==>
              Signin(users, body, env).response == InvalidCredentials
    ensures InvalidCredentials.token.None? && InvalidCredentials.status == 400
  {
  }

  /** Without a password, signin tells a known identifier from an unknown one: the
      first gets a server error, the second the usual refusal. */
  lemma SigninRevealsKnownIdentifier(users: seq<User>, identifier: string, env: Env)
    ensures (exists i | 0 <= i < |users| :: AnswersTo(users[i], identifier)) ==>
              Signin(users, SigninBody(identifier, None), env).response == Message(500, SigninErrorMessage)
    ensures (forall i | 0 <= i < |users| :: !AnswersTo(users[i], identifier)) ==>
              Signin(users, SigninBody(identifier, None), env).response == InvalidCredentials
  {
    if exists i | 0 <= i < |users| :: AnswersTo(users[i], identifier) {
      var found := FindByIdentifier(users, identifier);
      assert found.Some?;
      assert IsFirstMatch(users, identifier, found.value);
    }
  }

  /** The signin that does not depend on whether the identifier is known: an absent
      password is refused like a wrong one, before any lookup. */
  function SigninUniform(users: seq<User>, body: SigninBody, env: Env): (r: Reply)
    ensures r.users == users
    ensures r.response.status == 200 <==>
              exists i | IsFirstMatch(users, body.emailOrUsername, i) :: Admits(users[i], body.password)
    ensures r.response.status != 200 ==> r.response == InvalidCredentials
    ensures body.password.Some? ==> r == Signin(users, body, env)
  {
    if body.password.None? then Reply(InvalidCredentials, users) else Signin(users, body, env)
  }

  /** A failed uniform signin answers the same whatever the collection holds, so it
      does not tell which identifiers exist. */
  lemma SigninUniformHidesIdentifiers(users: seq<User>, others: seq<User>, body: SigninBody, env: Env)
    requires SigninUniform(users, body, env).response.status != 200
    requires SigninUniform(others, body, env).response.status != 200
    ensures SigninUniform(users, body, env).response == SigninUniform(others, body, env).response
  {
  }

  /** A record that signed up, and is the first record answering to the identifier
      it signs in with, is logged in as itself. */
  lemma SignedUpRecordSignsIn(users: seq<User>, body: SignupBody, env: Env, later: Env, identifier: string)
    requires Signup(users, body, env).response.status == 201
    requires identifier == body.email || identifier == body.username
    requires forall j | 0 <= j < |users| :: !AnswersTo(users[j], identifier)
    ensures var after := Signup(users, body, env).users;
              Signin(after, SigninBody(identifier, Some(body.password)), later).response
                == Response(200, LoggedInMessage, Some(TokenFor(after[|users|], later)), None)
  {
    var after := Signup(users, body, env).users;
    var draft := Draft(users, body, env.now);
    PasswordRoundTrip(draft, body.password, body.password);
    assert IsFirstMatch(after, identifier, |users|) by {
      forall j | 0 <= j < |users|
        ensures !AnswersTo(after[j], identifier)
      {
        assert after[j] == users[j];
      }
    }
  }

  /** Register, then sign in with the same email or username and password: the new
      record is logged in, unless an earlier record answers to that identifier
      through the other field (an earlier username equal to the new email, or an
      earlier email equal to the new username), which signup never checks. */
  lemma RegisterThenSignin(users: seq<User>, body: SignupBody, env: Env, later: Env, identifier: string)
    requires Signup(users, body, env).response.status == 201
    requires || (identifier == body.email && !HasUsername(users, CastUsername(body.email)))
             || (identifier == body.username && !HasEmail(users, CastEmail(body.username)))
    ensures var after := Signup(users, body, env).users;
              && Signin(after, SigninBody(identifier, Some(body.password)), later).response.status == 200
              && Signin(after, SigninBody(identifier, Some(body.password)), later).response.token
                   == Some(Issue(Principal(|users|, after[|users|].role), later.secret, later.now))
  {
    forall j | 0 <= j < |users|
      ensures !AnswersTo(users[j], identifier)
    {
      if identifier == body.email && !HasUsername(users, CastUsername(body.email)) {
        assert users[j].username != CastUsername(identifier);
      } else {
        assert users[j].email != CastEmail(identifier);
      }
    }
    SignedUpRecordSignsIn(users, body, env, later, identifier);
  }

  /** A body whose values are already in the form the setters store, that
      passes validation, and that leaves the role to its default. */
  predicate InStoredForm(body: SignupBody) {
    && IsTrimmed(body.username) && |body.username| >= MinUsernameLength
    && IsTrimmed(body.email) && IsLower(body.email) && HasEmailShape(body.email)
    && |body.password| >= MinPasswordLength
    && body.role.None?
  }

  /** Such a body, with an email and a username no record holds, is stored exactly
      as given, with the default role and the password hashed. */
  lemma SignupStoresFreshBody(users: seq<User>, body: SignupBody, env: Env)
    requires InStoredForm(body)
    requires !HasEmail(users, body.email) && !HasUsername(users, body.username)
    ensures Signup(users, body, env).response.status == 201
    ensures Signup(users, body, env).users
              == users + [User(|users|, body.username, body.email, Hashed(Hash(body.password)), DefaultRole, env.now)]
    ensures Signup(users, body, env).response.token == Some(Issue(Principal(|users|, DefaultRole), env.secret, env.now))
  {
    var draft := Draft(users, body, env.now);
    assert CastUsername(body.username) == body.username by { UsernameCastKeepsStored(body.username); }
    assert CastEmail(body.email) == body.email by { EmailCastKeepsStored(body.email); }
    assert draft == User(|users|, body.username, body.email, Plain(body.password), DefaultRole, env.now);
    assert Validates(draft);
  }

  /** Signup checks the new email only against stored emails, while signin matches
      an identifier against both fields. When an earlier record `k`'s username is
      the new record's email, signing in with that email and the new password never
      logs the new record in: signin answers with record `k` or a record before it,
      and succeeds only if the password happens to be that record's. */
  lemma SigninAnswersEarlierRecord(users: seq<User>, body: SignupBody, env: Env, later: Env, k: nat)
    requires WellFormed(users)
    requires Signup(users, body, env).response.status == 201
    requires k < |users| && users[k].username == CastUsername(body.email)
    ensures var after := Signup(users, body, env).users;
            var r := Signin(after, SigninBody(body.email, Some(body.password)), later).response;
              && r.token != Some(TokenFor(after[|users|], later))
              && (r.status == 200 ==> exists j | 0 <= j <= k :: r.token == Some(TokenFor(users[j], later)))
              && (r.status == 200 <==>
                    exists j | 0 <= j <= k :: IsFirstMatch(users, body.email, j) && ComparePassword(users[j], body.password))
  {
    var after := Signup(users, body, env).users;
    var saved := PreSave(Draft(users, body, env.now));
    assert after == users + [saved];
    assert after[k] == users[k];
    assert AnswersTo(after[k], body.email);
    forall i | IsFirstMatch(after, body.email, i)
      ensures i <= k && after[i] == users[i] && IsFirstMatch(users, body.email, i)
    {
      assert after[i] == users[i];
      forall j | 0 <= j < i
        ensures !AnswersTo(users[j], body.email)
      {
        assert after[j] == users[j];
      }
    }
    forall j | 0 <= j <= k && IsFirstMatch(users, body.email, j)
      ensures IsFirstMatch(after, body.email, j)
    {
      forall m | 0 <= m < j
        ensures !AnswersTo(after[m], body.email)
      {
        assert after[m] == users[m];
      }
    }
    var r := Signin(after, SigninBody(body.email, Some(body.password)), later).response;
    if r.status == 200 {
      var i :| IsFirstMatch(after, body.email, i) && Admits(after[i], Some(body.password));
      assert r.token == Some(TokenFor(users[i], later));
      assert TokenFor(users[i], later) != TokenFor(after[|users|], later) by {
        assert users[i].id == i;
      }
    }
  }

  /** The first record of the collision example: username "x@y.com". */
  const Xavier := User(0, "x@y.com", "a@y.com", Hashed(Hash("secret1")), "user", 0)

  /** Xavier's signup into an empty collection stores exactly that record. */
  lemma XavierRegisters(env: Env)
    requires env.now == 0
    ensures Signup([], SignupBody("x@y.com", "a@y.com", "secret1", None), env).users == [Xavier]
  {
    assert ShapedAt("a@y.com", 1, 3);
    SignupStoresFreshBody([], SignupBody("x@y.com", "a@y.com", "secret1", None), env);
  }

  /** The collection holding Xavier alone is well formed. */
  lemma XavierAloneWellFormed()
    ensures WellFormed([Xavier])
  {
    var start := Env("", 0);
    XavierRegisters(start);
    SignupKeepsWellFormed([], SignupBody("x@y.com", "a@y.com", "secret1", None), start);
  }

  /** Carol's body is in stored form and neither of its values is held by Xavier
      in the same field. */
  lemma CarolIsFresh()
    ensures InStoredForm(SignupBody("carol", "x@y.com", "secret2", None))
    ensures !HasEmail([Xavier], "x@y.com") && !HasUsername([Xavier], "carol")
  {
    assert ShapedAt("x@y.com", 1, 3);
  }

  /** The collision in general: a body in stored form that no record holds in the
      same field is accepted, but when the first record's username is the body's
      email and its password is not the body's, signing in afterwards with that
      email and the body's password is refused. */
  lemma CollisionRefusesNewRecord(users: seq<User>, body: SignupBody, env: Env)
    requires WellFormed(users) && InStoredForm(body)
    requires !HasEmail(users, body.email) && !HasUsername(users, body.username)
    requires |users| > 0 && users[0].username == body.email && !ComparePassword(users[0], body.password)
    ensures Signup(users, body, env).response.status == 201
    ensures Signin(Signup(users, body, env).users, SigninBody(body.email, Some(body.password)), env).response
              == InvalidCredentials
  {
    SignupStoresFreshBody(users, body, env);
    UsernameCastKeepsStored(body.email);
    SigninAnswersEarlierRecord(users, body, env, env, 0);
  }

  /** The collision example: Carol signs up with email "x@y.com", Xavier's username.
      No record holds it as an email, so signup accepts her; signing in with that
      email and her own password is then refused. */
  lemma CollisionExample(env: Env)
    ensures var carol := SignupBody("carol", "x@y.com", "secret2", None);
              && Signup([Xavier], carol, env).response.status == 201
              && Signin(Signup([Xavier], carol, env).users, SigninBody("x@y.com", Some("secret2")), env).response
                   == InvalidCredentials
  {
    XavierAloneWellFormed();
    CarolIsFresh();
    assert !ComparePassword(Xavier, "secret2");
    CollisionRefusesNewRecord([Xavier], SignupBody("carol", "x@y.com", "secret2", None), env);
  }

  /** The signup the signin lookup needs: an email or username that some record
      already answers to at signin, through either field, is refused with the
      message for that field. */
  function SignupGuarded(users: seq<User>, body: SignupBody, env: Env): (r: Reply)
    ensures (exists i | 0 <= i < |users| :: AnswersTo(users[i], body.email)) ==>
              r == Reply(Message(400, EmailTakenMessage), users)
    ensures && (forall i | 0 <= i < |users| :: !AnswersTo(users[i], body.email))
            && (exists i | 0 <= i < |users| :: AnswersTo(users[i], body.username)) ==>
              r == Reply(Message(400, UsernameTakenMessage), users)
    ensures r.response.status == 201 ==>
              && (forall i | 0 <= i < |users| :: !AnswersTo(users[i], body.email) && !AnswersTo(users[i], body.username))
              && r == Signup(users, body, env)
    ensures (forall i | 0 <= i < |users| :: !AnswersTo(users[i], body.email) && !AnswersTo(users[i], body.username)) ==>
              r == Signup(users, body, env)
    ensures r.response.status != 201 ==> r.users == users && r.response.token.None?
  {
    if FindByIdentifier(users, body.email).Some? then
      Reply(Message(400, EmailTakenMessage), users)
    else if FindByIdentifier(users, body.username).Some? then
      Reply(Message(400, UsernameTakenMessage), users)
    else
      Signup(users, body, env)
  }

  /** With the guard, registering and then signing in with the same email or
      username and password always logs the new record in. */
  lemma GuardedRegisterThenSignin(users: seq<User>, body: SignupBody, env: Env, later: Env, identifier: string)
    requires SignupGuarded(users, body, env).response.status == 201
    requires identifier == body.email || identifier == body.username
    ensures var after := SignupGuarded(users, body, env).users;
              && Signin(after, SigninBody(identifier, Some(body.password)), later).response.status == 200
              && Signin(after, SigninBody(identifier, Some(body.password)), later).response.token
                   == Some(Issue(Principal(|users|, after[|users|].role), later.secret, later.now))
  {
    SignedUpRecordSignsIn(users, body, env, later, identifier);
  }

  /** The guarded signup keeps the collection well formed too. */
  lemma SignupGuardedKeepsWellFormed(users: seq<User>, body: SignupBody, env: Env)
    requires WellFormed(users)
    ensures WellFormed(SignupGuarded(users, body, env).users)
  {
    SignupKeepsWellFormed(users, body, env);
  }

  /** With the guard, the collision example is refused at signup: "x@y.com" is
      already an identifier of the earlier record. */
  lemma GuardedRefusesCollision(env: Env)
    ensures SignupGuarded([Xavier], SignupBody("carol", "x@y.com", "secret2", None), env)
              == Reply(Message(400, EmailTakenMessage), [Xavier])
  {
    UsernameCastKeepsStored("x@y.com");
    assert AnswersTo(Xavier, "x@y.com");
  }
}
