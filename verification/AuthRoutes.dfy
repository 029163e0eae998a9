/** The router mounted at /auth: signup, signin and signout are public; /protected
    and /admin-only run the gate first. */
module AuthRoutes {
  import opened Wrappers
  import opened Crypto
  import opened Http
  import opened UserModel
  import opened AuthController
  import opened AuthMiddleware

  datatype Endpoint =
    | SignupRoute(signup: SignupBody)
    | SigninRoute(signin: SigninBody)
    | SignoutRoute
    | ProtectedRoute
    | AdminOnlyRoute

  /** A request: the route it reaches and its `x-auth-token` header. */
  datatype Request = Request(endpoint: Endpoint, authToken: Option<Token>)

  const ProtectedMessage := "You have accessed a protected route!"
  const AdminDeniedMessage := "Access denied. Admin role required."
  const AdminWelcomeMessage := "Welcome, Admin! This is an admin-only route."

  /** GET /protected after the gate: echoes `req.user`. */
  function ProtectedHandler(user: Principal): (r: Response)
    ensures r.status == 200 && r.user == Some(user) && r.token.None?
  {
    Response(200, ProtectedMessage, None, Some(user))
  }

  /** GET /admin-only after the gate: the role check. */
  function AdminOnlyHandler(user: Principal): (r: Response)
    ensures r.status == 403 <==> user.role != "admin"
    ensures r.status == 200 <==> user.role == "admin"
    ensures r.status == 200 ==> r.user == Some(user)
    ensures r.token.None?
  {
    if user.role != "admin" then Message(403, AdminDeniedMessage)
    else Response(200, AdminWelcomeMessage, None, Some(user))
  }

  /** Runs a handler behind the gate: the gate's own response when it denies,
      the handler's when it calls `next`. */
  function Guarded(header: Option<Token>, env: Env, handler: Principal -> Response): Response {
    match Gate(header, env)
    case Deny(response) => response
    case Next(user) => handler(user)
  }

  /** The router: one request against the collection. */
  function Dispatch(users: seq<User>, env: Env, request: Request): (r: Reply)
    ensures !request.endpoint.SignupRoute? ==> r.users == users
    ensures request.endpoint.ProtectedRoute? ==>
              (r.response.status == 200 <==> Gate(request.authToken, env).Next?)
    ensures request.endpoint.AdminOnlyRoute? ==>
              (r.response.status == 403 <==>
                 Gate(request.authToken, env).Next? && Gate(request.authToken, env).user.role != "admin")
  {
    match request.endpoint
    case SignupRoute(body) => Signup(users, body, env)
    case SigninRoute(body) => Signin(users, body, env)
    case SignoutRoute => Signout(users)
    case ProtectedRoute => Reply(Guarded(request.authToken, env, ProtectedHandler), users)
    case AdminOnlyRoute => Reply(Guarded(request.authToken, env, AdminOnlyHandler), users)
  }

  /** Signup, signin and signout are mounted without the gate: the header, present,
      absent or invalid, makes no difference. */
  lemma PublicRoutesIgnoreToken(users: seq<User>, env: Env, endpoint: Endpoint, h1: Option<Token>, h2: Option<Token>)
    requires endpoint.SignupRoute? || endpoint.SigninRoute? || endpoint.SignoutRoute?
    ensures Dispatch(users, env, Request(endpoint, h1)) == Dispatch(users, env, Request(endpoint, h2))
    ensures endpoint.SignupRoute? ==>
              Dispatch(users, env, Request(endpoint, None)) == Signup(users, endpoint.signup, env)
    ensures endpoint.SigninRoute? ==>
              Dispatch(users, env, Request(endpoint, None)) == Signin(users, endpoint.signin, env)
    ensures endpoint.SignoutRoute? ==>
              Dispatch(users, env, Request(endpoint, None)) == Signout(users)
  {
  }

  /** The gated routes neither read nor write the collection: the response is the
      same for any two collections, and the collection is left as it was. */
  lemma GatedRoutesIgnoreUsers(users: seq<User>, others: seq<User>, env: Env, request: Request)
    requires request.endpoint.ProtectedRoute? || request.endpoint.AdminOnlyRoute?
    ensures Dispatch(users, env, request).response == Dispatch(others, env, request).response
    ensures Dispatch(users, env, request).users == users
  {
  }

  /** /protected: 401 from the gate, or 200 echoing exactly the decoded `user`. */
  lemma ProtectedEchoesUser(users: seq<User>, env: Env, header: Option<Token>)
    ensures var r := Dispatch(users, env, Request(ProtectedRoute, header)).response;
              match Gate(header, env)
              case Deny(denial) => r == denial && r.status == 401
              case Next(user) => r.status == 200 && r.user == Some(user) && r.message == ProtectedMessage
  {
  }

  /** /admin-only: 401 from the gate; 403 for an authenticated non-admin; the
      welcome with `req.user` for an admin. */
  lemma AdminOnlyOutcomes(users: seq<User>, env: Env, header: Option<Token>)
    ensures var r := Dispatch(users, env, Request(AdminOnlyRoute, header)).response;
              match Gate(header, env)
              case Deny(denial) => r == denial && r.status == 401
              case Next(user) =>
                if user.role == "admin" then r == Response(200, AdminWelcomeMessage, None, Some(user))
                else r == Message(403, AdminDeniedMessage)
  {
  }

  /** A 403 is reachable only past the gate: a missing or invalid token always
      gets 401 on /admin-only, never 403 and never the welcome. */
  lemma ForbiddenOnlyAfterGate(users: seq<User>, env: Env, header: Option<Token>)
    ensures Dispatch(users, env, Request(AdminOnlyRoute, header)).response.status == 403 ==>
              header.Some? && Verify(header.value, env.secret, env.now).Some?
    ensures (header.None? || Verify(header.value, env.secret, env.now).None?) ==>
              Dispatch(users, env, Request(AdminOnlyRoute, header)).response.status == 401
  {
  }

  /** A caller who signs up asking for "admin" holds a token that /admin-only
      accepts for the next hour: signup does not restrict the role. */
  lemma SelfAssignedAdmin(users: seq<User>, body: SignupBody, env: Env, later: Env)
    requires Signup(users, body, env).response.status == 201 && body.role == Some("admin")
    requires later.secret == env.secret && later.now < env.now + TokenLifetime
    ensures var token := Signup(users, body, env).response.token;
              Dispatch(Signup(users, body, env).users, later, Request(AdminOnlyRoute, token)).response.status == 200
  {
    var reply := Signup(users, body, env);
    var admin := Principal(|users|, "admin");
    assert reply.response.token == Some(Issue(admin, env.secret, env.now)) by {
      SignupRole(users, body, env);
    }
    assert Gate(Some(Issue(admin, env.secret, env.now)), later) == Next(admin) by {
      GateAcceptsIssuedToken(admin, env.now, later);
    }
    AdminOnlyOutcomes(reply.users, later, reply.response.token);
  }

  /** Alice's record as signup stores it in an empty collection at time 1000. */
  const Alice := User(0, "alice", "a@x.com", Hashed(Hash("secret1")), "user", 1000)

  /** Alice registers in an empty collection: 201, her record is the only one, and
      her token names record 0 with role "user". */
  lemma AliceRegisters(env: Env)
    requires env.now == 1000
    ensures var signup := Dispatch([], env, Request(SignupRoute(SignupBody("alice", "a@x.com", "secret1", None)), None));
      && signup.response.status == 201
      && signup.users == [Alice]
      && signup.response.token == Some(Issue(Principal(0, "user"), env.secret, 1000))
  {
    var body := SignupBody("alice", "a@x.com", "secret1", None);
    assert Text.ShapedAt("a@x.com", 1, 3);
    SignupStoresFreshBody([], body, env);
  }

  /** Then: a wrong password with her username is refused. */
  lemma AliceWrongPassword(env: Env)
    ensures Dispatch([Alice], env, Request(SigninRoute(SigninBody("alice", Some("wrong"))), None)).response == InvalidCredentials
  {
    assert AnswersTo(Alice, "alice") by { UsernameCastKeepsStored("alice"); }
    assert !ComparePassword(Alice, "wrong");
    SigninSoleRecord(Alice, SigninBody("alice", Some("wrong")), env);
  }

  /** The right password with her email logs her in with a token for record 0. */
  lemma AliceSignsIn(env: Env)
    ensures Dispatch([Alice], env, Request(SigninRoute(SigninBody("a@x.com", Some("secret1"))), None)).response.token
              == Some(Issue(Principal(0, "user"), env.secret, env.now))
  {
    assert AnswersTo(Alice, "a@x.com") by { EmailCastKeepsStored("a@x.com"); }
    assert ComparePassword(Alice, "secret1");
    SigninSoleRecord(Alice, SigninBody("a@x.com", Some("secret1")), env);
  }

  /** Without a password, her username gets a server error while an unknown name
      gets the usual refusal: the response tells which names exist. */
  lemma AliceMissingPassword(env: Env)
    ensures Dispatch([Alice], env, Request(SigninRoute(SigninBody("alice", None)), None)).response
              == Message(500, SigninErrorMessage)
    ensures Dispatch([Alice], env, Request(SigninRoute(SigninBody("bob", None)), None)).response
              == InvalidCredentials
  {
    PublicRoutesIgnoreToken([Alice], env, SigninRoute(SigninBody("alice", None)), None, None);
    PublicRoutesIgnoreToken([Alice], env, SigninRoute(SigninBody("bob", None)), None, None);
    AliceIsKnown();
    SigninSoleRecord(Alice, SigninBody("alice", None), env);
    SigninRevealsKnownIdentifier([Alice], "bob", env);
  }

  /** Alice's record answers to "alice" and not to "bob". */
  lemma AliceIsKnown()
    ensures AnswersTo(Alice, "alice") && !AnswersTo(Alice, "bob")
  {
    UsernameCastKeepsStored("alice");
    UsernameCastKeepsStored("bob");
    EmailCastKeepsStored("bob");
  }

  /** Her "user" token is refused on /admin-only with 403 while it lasts, and a
      request with no token gets 401. */
  lemma AliceIsNoAdmin(env: Env, later: Env)
    requires later.secret == env.secret && env.now <= later.now < env.now + TokenLifetime
    ensures Dispatch([Alice], later, Request(AdminOnlyRoute, Some(Issue(Principal(0, "user"), env.secret, env.now)))).response
              == Message(403, AdminDeniedMessage)
    ensures Dispatch([Alice], later, Request(AdminOnlyRoute, None)).response == Message(401, NoTokenMessage)
  {
    GateAcceptsIssuedToken(Principal(0, "user"), env.now, later);
  }
}
