/** The user routes of routes/users.js: listing (admin only), signup,
    username/password login issuing a bearer token, logout, and the
    third-party token login's response. The user collection is a sequence in
    insertion order, so that `findOne` returns the first match. */
module Users {
  import opened Http
  import opened Sequences
  import opened Authenticate

  /** The JSON bodies and redirects these routes send. */
  datatype Body =
    | ErrorJson(error: string)
    | StatusJson(success: bool, status: string)
    | TokenJson(success: bool, token: Token, status: string)
    | UsersJson(users: seq<User>)
    | Redirect(location: string)

  const CredentialsRequired := "Username and password are required."
  const RegistrationSuccessful := "Registration Successful!"
  const LoggedIn := "You are successfully logged in!"
  const NotLoggedIn := "You are not logged in!"
  /** The message the registration library fails with on a duplicate username. */
  const UserExists := "A user with the given username is already registered"
  const SessionCookie := "session-id"

  /** No two stored users share a username. */
  predicate UniqueUsernames(users: seq<User>)
  {
    forall i, j :: 0 <= i < j < |users| ==> users[i].username != users[j].username
  }

  predicate UsernameTaken(users: seq<User>, name: string)
  {
    exists i :: 0 <= i < |users| && users[i].username == name
  }

  // ----- GET /users -----

  /** `verifyUser`, `verifyAdmin`, then `User.find()`. */
  function ListUsers(b: BearerResult, users: seq<User>, findFault: Option<string>): (o: Outcome<Body>)
    requires b.Stops()
    ensures o.Reply? <==> b.Authenticated? && b.user.admin && findFault.None?
    ensures o.Reply? ==> o == Reply(200, UsersJson(users))
    ensures b.Rejected? ==> o == Stop(b.reason)
    ensures b.Authenticated? && !b.user.admin ==> o == Forward(Forbidden())
    ensures b.Authenticated? && b.user.admin && findFault.Some? ==> o == Forward(HttpError(None, findFault.value))
  {
    var chain := AdminChain(b);
    if !chain.Proceed? then Stop(chain)
    else if findFault.Some? then Forward(HttpError(None, findFault.value))
    else Reply(200, UsersJson(users))
  }

  // ----- The password strategy -----

  /** The local strategy's check: the first user with that username, if its
      stored credential matches the password. An unknown username and a wrong
      password fail alike. */
  function LocalAuthenticate(users: seq<User>, username: string, password: string): (r: Option<User>)
    ensures r.Some? ==> r.value in users && r.value.username == username && r.value.credential == password
    ensures !UsernameTaken(users, username) ==> r.None?
  {
    match FirstIndex(users, (u: User) => u.username == username)
    case None => None
    case Some(i) => if users[i].credential == password then Some(users[i]) else None
  }

  /** A user appended under a fresh username is the one the password strategy
      finds: the right password logs in as that user, any other fails. */
  lemma RegisteredUserLogsIn(users: seq<User>, u: User, password: string)
    requires !UsernameTaken(users, u.username)
    ensures LocalAuthenticate(users + [u], u.username, password) ==
            if password == u.credential then Some(u) else None
  {
    var all := users + [u];
    var named := (v: User) => v.username == u.username;
    assert named(all[|users|]);
    assert forall j :: 0 <= j < |users| ==> !named(all[j]) by {
      forall j | 0 <= j < |users| ensures !named(all[j]) {
        assert all[j] == users[j];
      }
    }
    var found := FirstIndex(all, named);
    assert found == Some(|users|);
  }

  /** With unique usernames, every stored user logs in with exactly its own
      credential. */
  lemma StoredUserLogsIn(users: seq<User>, i: nat, password: string)
    requires UniqueUsernames(users) && i < |users|
    ensures LocalAuthenticate(users, users[i].username, password) ==
            if password == users[i].credential then Some(users[i]) else None
  {
    var named := (v: User) => v.username == users[i].username;
    assert named(users[i]);
    assert forall j :: 0 <= j < i ==> !named(users[j]) by {
      forall j | 0 <= j < i ensures !named(users[j]) {
        assert users[j].username != users[i].username;
      }
    }
    var found := FirstIndex(users, named);
    assert found == Some(i);
  }

  // ----- POST /users/signup -----

  datatype SignupBody = SignupBody(
    username: Option<string>,
    password: Option<string>,
    firstname: Option<string>,
    lastname: Option<string>)

  /** The user document being registered: `new User({username})`, which the
      registration then stores with the password's credential. */
  class UserDoc {
    const id: UserId
    const username: string
    const credential: string
    var admin: bool
    var firstname: Option<string>
    var lastname: Option<string>

    constructor (id: UserId, username: string, password: string)
      ensures Record() == User(id, username, password, false, None, None)
    {
      this.id := id;
      this.username := username;
      this.credential := password;
      this.admin := false;
      this.firstname := None;
      this.lastname := None;
    }

    /** The record a save writes. */
    function Record(): User
      reads this
    {
      User(id, username, credential, admin, firstname, lastname)
    }
  }

  /** Signup: validate, register (which stores the user), copy the optional
      names onto the document, save it again, and log the new user in.
      A failure of the second save leaves the registered user stored without
      names. */
  method Signup(users: seq<User>, body: SignupBody, freshId: UserId,
                registerFault: Option<string>, saveFault: Option<string>, loginFault: Option<string>)
    returns (after: seq<User>, o: Outcome<Body>)
    ensures !Truthy(body.username) || !Truthy(body.password) ==>
              after == users && o == Reply(400, ErrorJson(CredentialsRequired))
    ensures Truthy(body.username) && Truthy(body.password) && registerFault.Some? ==>
              after == users && o == Reply(500, ErrorJson(registerFault.value))
    ensures Truthy(body.username) && Truthy(body.password) && registerFault.None? &&
            UsernameTaken(users, body.username.value) ==>
              after == users && o == Reply(500, ErrorJson(UserExists))
    ensures (after != users) <==>
            Truthy(body.username) && Truthy(body.password) && registerFault.None? &&
            !UsernameTaken(users, body.username.value)
    ensures after != users ==>
              |after| == |users| + 1 && after[..|users|] == users &&
              after[|users|].id == freshId && after[|users|].username == body.username.value &&
              after[|users|].credential == body.password.value && !after[|users|].admin
    ensures after != users && saveFault.None? ==>
              after[|users|].firstname == (if Truthy(body.firstname) then body.firstname else None) &&
              after[|users|].lastname == (if Truthy(body.lastname) then body.lastname else None) &&
              o == Reply(200, StatusJson(true, RegistrationSuccessful))
    ensures after != users && saveFault.Some? ==>
              after[|users|].firstname == None && after[|users|].lastname == None &&
              o == Reply(500, ErrorJson(saveFault.value))
    ensures UniqueUsernames(users) ==> UniqueUsernames(after)
  {
    if !Truthy(body.username) || !Truthy(body.password) {
      return users, Reply(400, ErrorJson(CredentialsRequired));
    }
    var username, password := body.username.value, body.password.value;
    if registerFault.Some? {
      return users, Reply(500, ErrorJson(registerFault.value));
    }
    if UsernameTaken(users, username) {
      return users, Reply(500, ErrorJson(UserExists));
    }
    var user := new UserDoc(freshId, username, password);
    var registered := users + [user.Record()];
    assert registered != users by { assert |registered| != |users|; }
    if Truthy(body.firstname) {
      user.firstname := body.firstname;
    }
    if Truthy(body.lastname) {
      user.lastname := body.lastname;
    }
    if saveFault.Some? {
      return registered, Reply(500, ErrorJson(saveFault.value));
    }
    after := users + [user.Record()];
    RegisteredUserLogsIn(users, user.Record(), password);
    var login := LocalAuthenticate(after, username, password);
    // The strategy calls the callback on success and on a failed lookup
    // alike, and the callback ignores its argument.
    if loginFault.Some? || login.Some? {
      o := Reply(200, StatusJson(true, RegistrationSuccessful));
    } else {
      o := Ended(401, Unauthorized);
    }
  }

  // ----- POST /users/login -----

  /** The login handler: a token for `{_id: user._id}` and the fixed status text. */
  function Login(user: User, now: int): (o: Outcome<Body>)
    ensures o.Reply? && o.status == 200 && o.body.TokenJson?
    ensures o.body.success && o.body.status == LoggedIn
    ensures o.body.token.payload == Payload(user.id)
    ensures o.body.token.expiresAt == now + TokenLifetime
  {
    Reply(200, TokenJson(true, GetToken(Payload(user.id), now), LoggedIn))
  }

  /** `passport.authenticate("local")` then the login handler. Missing
      credentials end the response with 400, a failed user lookup is
      forwarded, and wrong credentials end it with 401. */
  function LoginRoute(users: seq<User>, lookupFault: Option<string>,
                      username: Option<string>, password: Option<string>, now: int): (o: Outcome<Body>)
    ensures !Truthy(username) || !Truthy(password) ==> o == Ended(400, "Bad Request")
    ensures Truthy(username) && Truthy(password) && lookupFault.Some? ==>
              o == Forward(HttpError(None, lookupFault.value))
    ensures o.Reply? <==>
            Truthy(username) && Truthy(password) && lookupFault.None? &&
            LocalAuthenticate(users, username.value, password.value).Some?
    ensures o.Reply? ==> o == Login(LocalAuthenticate(users, username.value, password.value).value, now)
    ensures Truthy(username) && Truthy(password) && lookupFault.None? && !o.Reply? ==>
              o == Ended(401, Unauthorized)
  {
    if !Truthy(username) || !Truthy(password) then Ended(400, "Bad Request")
    else if lookupFault.Some? then Forward(HttpError(None, lookupFault.value))
    else match LocalAuthenticate(users, username.value, password.value)
      case None => Ended(401, Unauthorized)
      case Some(user) => Login(user, now)
  }

  /** After a signup the new user can log in with the same password and is
      refused with 401 for any other. */
  lemma SignupThenLogin(users: seq<User>, u: User, password: string, now: int)
    requires !UsernameTaken(users, u.username) && u.username != "" && password != ""
    ensures password == u.credential ==> LoginRoute(users + [u], None, Some(u.username), Some(password), now) == Login(u, now)
    ensures password != u.credential ==> LoginRoute(users + [u], None, Some(u.username), Some(password), now) == Ended(401, Unauthorized)
  {
    RegisteredUserLogsIn(users, u, password);
  }

  /** The token a login returns authenticates the same stored user on bearer
      routes for its whole lifetime, when user ids are distinct. */
  lemma LoginTokenAuthenticates(users: seq<User>, username: string, password: string, issued: int, now: int)
    requires forall i, j :: 0 <= i < j < |users| ==> users[i].id != users[j].id
    requires issued <= now < issued + TokenLifetime
    requires LoginRoute(users, None, Some(username), Some(password), issued).Reply?
    ensures var user := LocalAuthenticate(users, username, password).value;
            var token := LoginRoute(users, None, Some(username), Some(password), issued).body.token;
            VerifyUser(Some(token), now, users, None) == Authenticated(user)
  {
    var user := LocalAuthenticate(users, username, password).value;
    var i :| 0 <= i < |users| && users[i] == user;
    assert forall j :: 0 <= j < |users| && j != i ==> users[j].id != users[i].id by {
      forall j | 0 <= j < |users| && j != i
        ensures users[j].id != users[i].id
      {
        if j < i {
          assert users[j].id != users[i].id;
        } else {
          assert users[i].id != users[j].id;
        }
      }
    }
    IssuedTokenAuthenticates(users, i, issued, now);
  }

  // ----- GET /users/logout -----

  datatype LogoutResult = LogoutResult(outcome: Outcome<Body>, sessions: set<SessionId>, clearedCookie: Option<string>)

  /** Logout: without a session, 401; otherwise destroy it, then clear the
      session cookie and redirect home, unless destroying fails, in which
      case the failure is forwarded and nothing else happens. */
  function Logout(session: Option<SessionId>, sessions: set<SessionId>, destroyFault: Option<string>): (r: LogoutResult)
    ensures session.None? ==> r == LogoutResult(Forward(Failure(401, NotLoggedIn)), sessions, None)
    ensures session.Some? && destroyFault.Some? ==>
              r == LogoutResult(Forward(HttpError(None, destroyFault.value)), sessions, None)
    ensures session.Some? && destroyFault.None? ==>
              r.outcome == Reply(302, Redirect("/")) && r.clearedCookie == Some(SessionCookie) &&
              session.value !in r.sessions && r.sessions + {session.value} == sessions + {session.value}
  {
    match session
    case None => LogoutResult(Forward(Failure(401, NotLoggedIn)), sessions, None)
    case Some(sid) =>
      if destroyFault.Some? then LogoutResult(Forward(HttpError(None, destroyFault.value)), sessions, None)
      else LogoutResult(Reply(302, Redirect("/")), sessions - {sid}, Some(SessionCookie))
  }

  // ----- GET /users/facebook/token -----

  /** The handler behind the third-party strategy: with a user attached it
      answers exactly as login does; without one it writes nothing. */
  function FacebookToken(user: Option<User>, now: int): (o: Outcome<Body>)
    ensures user.None? <==> o.Silent?
    ensures user.Some? ==> o == Login(user.value, now)
  {
    if user.Some? then Login(user.value, now) else Silent
  }
}
