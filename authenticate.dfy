/** The strategies of authenticate.js: token issue with a fixed lifetime, the
    bearer-token verify callback that re-reads the user from the store, the
    `verifyUser` middleware built on it, and the admin check. Token signing and
    header extraction are outside the model: a request carries either a token
    whose signature checks out, or none. */
module Authenticate {
  import opened Http
  import opened Sequences

  type UserId = string
  type SessionId = string

  /** A stored user. `credential` stands for the salted hash the password
      strategy compares against; hashing itself is not modelled. */
  datatype User = User(
    id: UserId,
    username: string,
    credential: string,
    admin: bool,
    firstname: Option<string>,
    lastname: Option<string>)

  const NotAuthorized := "You are not authorized to perform this operation!"
  /** The text Passport ends a failed authentication with. */
  const Unauthorized := "Unauthorized"

  function Forbidden(): HttpError
  {
    Failure(403, NotAuthorized)
  }

  /** `verifyAdmin`: proceed only for an attached user whose admin flag is set. */
  function VerifyAdmin(user: Option<User>): (n: Next)
    ensures n.Proceed? <==> user.Some? && user.value.admin
    ensures !n.Proceed? ==> n == Pass(Forbidden())
  {
    if user.Some? && user.value.admin then Proceed else Pass(Forbidden())
  }

  // ----- Token service -----

  /** `expiresIn: 3600`, in seconds. */
  const TokenLifetime := 3600

  /** The claim signed into a token: `{_id: user._id}` and nothing else. */
  datatype Payload = Payload(id: UserId)

  datatype Token = Token(payload: Payload, issuedAt: int, expiresAt: int)

  /** `getToken`: the payload, stamped at `now` and expiring one lifetime later. */
  function GetToken(payload: Payload, now: int): (t: Token)
    ensures t.payload == payload
    ensures t.expiresAt - t.issuedAt == TokenLifetime && t.issuedAt == now
  {
    Token(payload, now, now + TokenLifetime)
  }

  datatype TokenCheck = TokenValid(payload: Payload) | TokenExpired

  /** Expiry check of a token whose signature has already been accepted:
      expired from the expiry instant on. */
  function VerifyToken(t: Token, now: int): (c: TokenCheck)
    ensures c.TokenValid? <==> now < t.expiresAt
    ensures c.TokenValid? ==> c.payload == t.payload
  {
    if now < t.expiresAt then TokenValid(t.payload) else TokenExpired
  }

  /** A token verifies to the payload it was issued for during its lifetime and
      is expired from then on. */
  lemma IssuedTokenLifetime(payload: Payload, issued: int, now: int)
    requires issued <= now
    ensures now < issued + TokenLifetime ==> VerifyToken(GetToken(payload, issued), now) == TokenValid(payload)
    ensures now >= issued + TokenLifetime ==> VerifyToken(GetToken(payload, issued), now) == TokenExpired
  {
  }

  // ----- Bearer verify callback -----

  /** The three ways `User.findOne({_id})` can call back. */
  datatype Lookup = LookupFailed(message: string) | Found(user: User) | NotFound

  /** `User.findOne({_id: id})`: the first stored user with that id, or the store's failure. */
  function FindOne(users: seq<User>, fault: Option<string>, id: UserId): (l: Lookup)
    ensures fault.Some? <==> l.LookupFailed?
    ensures fault.Some? ==> l == LookupFailed(fault.value)
    ensures l.Found? ==> l.user in users && l.user.id == id
    ensures l.NotFound? <==> fault.None? && forall u :: u in users ==> u.id != id
  {
    if fault.Some? then LookupFailed(fault.value)
    else match FirstIndex(users, (u: User) => u.id == id)
      case Some(i) => Found(users[i])
      case None => NotFound
  }

  /** `done(err, user-or-false)`. */
  datatype Done = Done(err: Option<string>, user: Option<User>)

  /** The JwtStrategy verify callback: a lookup failure is an error, a found
      user authenticates, and no user is a plain failure without an error. */
  function JwtVerify(lookup: Lookup): (d: Done)
    ensures lookup.LookupFailed? <==> d.err.Some?
    ensures d.user.Some? <==> lookup.Found?
    ensures lookup.LookupFailed? ==> d == Done(Some(lookup.message), None)
    ensures lookup.Found? ==> d == Done(None, Some(lookup.user))
  {
    match lookup
    case LookupFailed(message) => Done(Some(message), None)
    case Found(user) => Done(None, Some(user))
    case NotFound => Done(None, None)
  }

  /** The user `done` reports is the stored record for the token's id, not the token's claim. */
  lemma CallbackUsesStoredUser(payload: Payload, users: seq<User>, fault: Option<string>)
    ensures var d := JwtVerify(FindOne(users, fault, payload.id));
            d.user.Some? ==> d.user.value in users && d.user.value.id == payload.id
    ensures var d := JwtVerify(FindOne(users, fault, payload.id));
            d.err.None? && d.user.None? <==> fault.None? && forall u :: u in users ==> u.id != payload.id
  {
  }

  // ----- verifyUser -----

  /** The result of `verifyUser`: a user attached to the request, or the chain stopped. */
  datatype BearerResult = Authenticated(user: User) | Rejected(reason: Next)
  {
    /** A rejection stops the chain: it never reads as `next()`. */
    predicate Stops()
    {
      Rejected? ==> reason.Pass? || reason.Halt?
    }
  }

  /** `passport.authenticate("jwt", {session: false})`. A missing, forged or
      expired token and an unknown user end the response with 401; a store
      failure is forwarded as an error. */
  function VerifyUser(token: Option<Token>, now: int, users: seq<User>, fault: Option<string>): (b: BearerResult)
    ensures b.Authenticated? ==>
              token.Some? && now < token.value.expiresAt &&
              b.user in users && b.user.id == token.value.payload.id
    ensures b.Rejected? ==> b.reason == Halt(401, Unauthorized) || (fault.Some? && b.reason == Pass(HttpError(None, fault.value)))
    ensures token.None? ==> b == Rejected(Halt(401, Unauthorized))
    ensures token.Some? && now >= token.value.expiresAt ==> b == Rejected(Halt(401, Unauthorized))
    ensures token.Some? && now < token.value.expiresAt && fault.Some? ==>
              b == Rejected(Pass(HttpError(None, fault.value)))
    ensures b.Authenticated? <==>
              token.Some? && now < token.value.expiresAt && fault.None? &&
              exists u :: u in users && u.id == token.value.payload.id
    ensures b.Stops()
  {
    if token.None? then Rejected(Halt(401, Unauthorized))
    else match VerifyToken(token.value, now)
      case TokenExpired => Rejected(Halt(401, Unauthorized))
      case TokenValid(payload) =>
        var d := JwtVerify(FindOne(users, fault, payload.id));
        if d.err.Some? then Rejected(Pass(HttpError(None, d.err.value)))
        else if d.user.Some? then Authenticated(d.user.value)
        else Rejected(Halt(401, Unauthorized))
  }

  /** A token issued for a stored user authenticates that user for its whole lifetime. */
  lemma IssuedTokenAuthenticates(users: seq<User>, i: nat, issued: int, now: int)
    requires i < |users|
    requires forall j :: 0 <= j < |users| && j != i ==> users[j].id != users[i].id
    requires issued <= now < issued + TokenLifetime
    ensures VerifyUser(Some(GetToken(Payload(users[i].id), issued)), now, users, None) == Authenticated(users[i])
  {
    var p := Payload(users[i].id);
    var found := FirstIndex(users, (u: User) => u.id == p.id);
    assert found == Some(i);
  }

  // ----- Passport's session option -----

  datatype StrategyOptions = StrategyOptions(session: bool)

  /** `{session: false}` on `verifyUser`. */
  const VerifyUserOptions := StrategyOptions(session := false)

  /** The session store after an authentication: with `session` on, a
      successful login is recorded under the request's session id. */
  function SessionsAfter(options: StrategyOptions, b: BearerResult,
                         sessions: map<SessionId, UserId>, sid: SessionId): (after: map<SessionId, UserId>)
    ensures !options.session || b.Rejected? ==> after == sessions
    ensures options.session && b.Authenticated? ==> sid in after && after[sid] == b.user.id
  {
    if options.session && b.Authenticated? then sessions[sid := b.user.id] else sessions
  }

  /** Bearer verification never creates or changes session state. */
  lemma VerifyUserIsStateless(token: Option<Token>, now: int, users: seq<User>, fault: Option<string>,
                              sessions: map<SessionId, UserId>, sid: SessionId)
    ensures SessionsAfter(VerifyUserOptions, VerifyUser(token, now, users, fault), sessions, sid) == sessions
  {
  }

  // ----- verifyUser followed by verifyAdmin -----

  /** A route guarded by `verifyUser` and then `verifyAdmin`. */
  function AdminChain(b: BearerResult): (n: Next)
    requires b.Stops()
    ensures n.Proceed? <==> b.Authenticated? && b.user.admin
    ensures b.Rejected? ==> n == b.reason
    ensures b.Authenticated? && !b.user.admin ==> n == Pass(Forbidden())
  {
    match b
    case Rejected(reason) => reason
    case Authenticated(user) => VerifyAdmin(Some(user))
  }

  /** A 403 from an admin-only route means authentication succeeded first;
      a request without a token gets 401 there, never 403. */
  lemma ForbiddenOnlyAfterAuthentication(token: Option<Token>, now: int, users: seq<User>, fault: Option<string>)
    ensures var b := VerifyUser(token, now, users, fault);
            AdminChain(b) == Pass(Forbidden()) ==> b.Authenticated? && !b.user.admin
    ensures token.None? ==> AdminChain(VerifyUser(token, now, users, fault)) == Halt(401, Unauthorized)
  {
  }
}
