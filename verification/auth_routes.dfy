/** The account routes of the hardened backend as transitions of the store:
    register, login, logout, the profile lookup, password change and the sweep
    of expired sessions. Each handler's reads and writes happen atomically. */
module AuthRoutes {
  import opened Basics
  import opened Http
  import opened Store
  import opened Validation
  import opened Security
  import opened AuthMiddleware

  /** A user row without its password hash, as login returns it. */
  datatype UserView = UserView(
    id: Id, email: string, username: string, phone: Option<string>, address: Option<string>,
    isAdmin: bool, isVerified: bool, isDeleted: bool, lastLoginAt: Option<int>)

  /** The columns `/me` selects that the model keeps. */
  datatype ProfileView = ProfileView(
    id: Id, email: string, username: string, phone: Option<string>, address: Option<string>,
    isAdmin: bool, isVerified: bool)

  datatype Data =
    | NoData
    | Account(id: Id, email: string, username: string)
    | SignedIn(user: UserView, token: string)
    | Profile(profile: ProfileView)

  /** The store after a request, the status and message sent, and the `data`
      part of the body. */
  datatype Answer = Answer(db: Db, reply: Reply, data: Data)

  const SessionLifetime: int := 7 * Day

  function ViewOf(u: User): (v: UserView)
    ensures v.id == u.id && v.email == u.email && v.username == u.username
    ensures v.phone == u.phone && v.address == u.address && v.lastLoginAt == u.lastLoginAt
    ensures v.isAdmin == u.isAdmin && v.isVerified == u.isVerified && v.isDeleted == u.isDeleted
  {
    UserView(u.id, u.email, u.username, u.phone, u.address, u.isAdmin, u.isVerified, u.isDeleted, u.lastLoginAt)
  }

  /** `body[k] || null` for a field that is a string, `null` or absent. */
  function OrNull(b: map<string, Json>, k: string): (r: Option<string>)
    ensures r.Some? <==> k in b && b[k].JStr? && b[k].s != ""
    ensures r.Some? ==> r.value == b[k].s
  {
    if k in b && b[k].JStr? && b[k].s != "" then Some(b[k].s) else None
  }

  // ---------------------------------------------------------------------
  // register

  predicate EmailInUse(users: seq<User>, email: string) { exists u :: u in users && u.email == email }
  predicate UsernameInUse(users: seq<User>, username: string) { exists u :: u in users && u.username == username }

  /** The row a registration inserts. The flags take the table's defaults. */
  function NewUser(id: Id, email: string, username: string, password: string, salt: string,
                   phone: Option<string>, address: Option<string>): User
  {
    User(id, email, username, HashPassword(password, salt), phone, address, false, false, false, None)
  }

  /** The register handler. The email check sees soft-deleted rows too; `id`
      is the fresh uuid and `salt` the salt bcrypt draws. */
  function Register(db: Db, email: string, username: string, password: string,
                    phone: Option<string>, address: Option<string>, id: Id, salt: string): (r: Answer)
    ensures EmailInUse(db.users, email) ==> r == Answer(db, Reply(400, EmailTaken), NoData)
    ensures !EmailInUse(db.users, email) && UsernameInUse(db.users, username) ==>
      r == Answer(db, Reply(400, UsernameTaken), NoData)
    ensures r.reply.status == 201 <==> !EmailInUse(db.users, email) && !UsernameInUse(db.users, username)
    ensures r.reply.status == 201 ==>
      && r.db == db.(users := db.users + [NewUser(id, email, username, password, salt, phone, address)])
      && r.data == Account(id, email, username)
    ensures r.reply.status != 201 ==> r.db == db
  {
    if EmailInUse(db.users, email) then Answer(db, Reply(400, EmailTaken), NoData)
    else if UsernameInUse(db.users, username) then Answer(db, Reply(400, UsernameTaken), NoData)
    else
      var u := NewUser(id, email, username, password, salt, phone, address);
      Answer(db.(users := db.users + [u]), Reply(201, Registered), Account(id, email, username))
  }

  /** `POST /register`: the schema gate, then the handler on the validated
      body, with empty phone and address stored as `null`. */
  function RegisterRoute(db: Db, body: map<string, Json>, f: Formats, id: Id, salt: string): (r: Answer)
    ensures !RegisterOk(body, f) ==> r == Answer(db, Reply(400, InvalidInput), NoData)
  {
    RegisterSchemaMeaning(body, f);
    match ValidateInput(RegisterSchema, body, f)
    case Fail(reply, _) => Answer(db, reply, NoData)
    case Pass(v) =>
      Register(db, StrOf(v, "email"), StrOf(v, "username"), StrOf(v, "password"),
               OrNull(v, "phone"), OrNull(v, "address"), id, salt)
  }

  lemma RegisterNamesDistinct()
    ensures DistinctNames(RegisterSchema)
  {
  }

  /** What the register gate passes on for an accepted body. */
  lemma RegisterGateKeeps(body: map<string, Json>, f: Formats)
    requires RegisterOk(body, f)
    ensures ValidateInput(RegisterSchema, body, f).Pass?
    ensures var v := ValidateInput(RegisterSchema, body, f).body;
      && StrOf(v, "email") == body["email"].s
      && StrOf(v, "username") == body["username"].s
      && StrOf(v, "password") == body["password"].s
  {
    RegisterSchemaMeaning(body, f);
    var S := RegisterSchema;
    GateKeepsField(S, body, f, 0);
    GateKeepsField(S, body, f, 1);
    GateKeepsField(S, body, f, 2);
  }

  lemma RegisterGateOptional(body: map<string, Json>, f: Formats)
    requires ValidateInput(RegisterSchema, body, f).Pass?
    ensures var v := ValidateInput(RegisterSchema, body, f).body;
      OrNull(v, "phone") == OrNull(body, "phone") && OrNull(v, "address") == OrNull(body, "address")
  {
    RegisterOptionalFields();
    GateKeepsNullable(RegisterSchema, body, f, 3);
    GateKeepsNullable(RegisterSchema, body, f, 4);
  }

  /** Phone and address are the register schema's fourth and fifth fields,
      and neither has a default. */
  lemma RegisterOptionalFields()
    ensures DistinctNames(RegisterSchema) && |RegisterSchema| == 5
    ensures RegisterSchema[3].name == "phone" && DefaultOf(RegisterSchema[3].rule).None?
    ensures RegisterSchema[4].name == "address" && DefaultOf(RegisterSchema[4].rule).None?
  {
    RegisterNamesDistinct();
  }

  /** A field without a default reads the same, as text or null, before and
      after a gate that lets the body through. */
  lemma GateKeepsNullable(schema: Schema, body: map<string, Json>, f: Formats, k: int)
    requires ValidateInput(schema, body, f).Pass? && DistinctNames(schema)
    requires 0 <= k < |schema| && DefaultOf(schema[k].rule).None?
    ensures OrNull(ValidateInput(schema, body, f).body, schema[k].name) == OrNull(body, schema[k].name)
  {
    GateKeepsOptional(schema, body, f, k);
  }

  /** A body the schema accepts reaches the handler with its own values; an
      absent phone or address is stored as `null`. */
  lemma RegisterRouteAccepts(db: Db, body: map<string, Json>, f: Formats, id: Id, salt: string)
    requires RegisterOk(body, f)
    ensures RegisterRoute(db, body, f, id, salt)
         == Register(db, body["email"].s, body["username"].s, body["password"].s,
                     OrNull(body, "phone"), OrNull(body, "address"), id, salt)
  {
    RegisterGateKeeps(body, f);
    RegisterGateOptional(body, f);
  }

  predicate UniqueEmails(users: seq<User>)
  {
    forall i, j :: 0 <= i < j < |users| ==> users[i].email != users[j].email
  }

  /** Registration never creates a second row with an email or an id already
      present, soft-deleted rows included. */
  lemma RegisterKeepsKeysUnique(db: Db, email: string, username: string, password: string,
                                phone: Option<string>, address: Option<string>, id: Id, salt: string)
    requires UniqueEmails(db.users) && UniqueUserIds(db.users)
    requires forall u :: u in db.users ==> u.id != id
    ensures var r := Register(db, email, username, password, phone, address, id, salt);
      UniqueEmails(r.db.users) && UniqueUserIds(r.db.users)
  {
    var r := Register(db, email, username, password, phone, address, id, salt);
    if r.reply.status == 201 {
      var us := r.db.users;
      forall i, j | 0 <= i < j < |us| ensures us[i].email != us[j].email && us[i].id != us[j].id {
        if j == |us| - 1 {
          assert us[i] in db.users;
        }
      }
    }
  }

  // ---------------------------------------------------------------------
  // login

  /** `SELECT * FROM users WHERE email = ? AND is_deleted = FALSE`, first row. */
  function ActiveUserByEmail(users: seq<User>, email: string): (r: Option<User>)
    ensures r.Some? ==> r.value in users && r.value.email == email && !r.value.isDeleted
    ensures r.None? <==> forall u :: u in users ==> u.email != email || u.isDeleted
  {
    First(users, (u: User) => u.email == email && !u.isDeleted)
  }

  /** `UPDATE users SET last_login_at = NOW() WHERE id = ?`; what it does is
      stated by `StampLoginFinds`. */
  function StampLogin(users: seq<User>, id: Id, now: int): seq<User>
  {
    seq(|users|, k requires 0 <= k < |users| =>
      if users[k].id == id then users[k].(lastLoginAt := Some(now)) else users[k])
  }

  /** Stamping keeps the ids, so a lookup by id finds the stamped row. */
  lemma StampLoginFinds(users: seq<User>, k: int, now: int)
    requires UniqueUserIds(users) && 0 <= k < |users|
    ensures UniqueUserIds(StampLogin(users, users[k].id, now))
    ensures UserById(StampLogin(users, users[k].id, now), users[k].id) == Some(users[k].(lastLoginAt := Some(now)))
  {
    var after := StampLogin(users, users[k].id, now);
    assert UniqueUserIds(after) by {
      forall i, j | 0 <= i < j < |after| ensures after[i].id != after[j].id {
        assert after[i].id == users[i].id && after[j].id == users[j].id;
      }
    }
    UserByIdUnique(after, k);
  }

  /** The login handler. `token` is what `jwt.sign` issues for the user found,
      `sessionId` the fresh uuid, `logFault` what goes wrong while logging. */
  function Login(db: Db, email: string, password: string, ip: string, userAgent: Option<string>, now: int,
                 token: string, sessionId: Id, logFault: LogFault): (r: Answer)
    ensures ActiveUserByEmail(db.users, email).None? ==>
      r == Answer(db.(attempts := LogLoginAttempt(db.attempts, email, ip, false, Some(UserNotFoundReason), now, logFault)),
                  Reply(401, BadCredentials), NoData)
    ensures ActiveUserByEmail(db.users, email).Some?
            && !ComparePassword(password, ActiveUserByEmail(db.users, email).value.passwordHash) ==>
      r == Answer(db.(attempts := LogLoginAttempt(db.attempts, email, ip, false, Some(InvalidPasswordReason), now, logFault)),
                  Reply(401, BadCredentials), NoData)
    ensures r.reply.status == 200 <==>
      ActiveUserByEmail(db.users, email).Some? && ComparePassword(password, ActiveUserByEmail(db.users, email).value.passwordHash)
    ensures r.reply.status == 200 ==>
      var u := ActiveUserByEmail(db.users, email).value;
      && r.db.sessions == db.sessions + [Session(sessionId, u.id, token, now + SessionLifetime, ip, userAgent)]
      && r.db.users == StampLogin(db.users, u.id, now)
      && r.db.attempts == LogLoginAttempt(db.attempts, email, ip, true, None, now, logFault)
      && r.db.products == db.products
      && r.data == SignedIn(ViewOf(u), token)
    ensures r.reply.status != 200 ==> r.db.users == db.users && r.db.sessions == db.sessions
  {
    match ActiveUserByEmail(db.users, email)
    case None =>
      var log := LogLoginAttempt(db.attempts, email, ip, false, Some(UserNotFoundReason), now, logFault);
      Answer(db.(attempts := log), Reply(401, BadCredentials), NoData)
    case Some(u) =>
      if !ComparePassword(password, u.passwordHash) then
        var log := LogLoginAttempt(db.attempts, email, ip, false, Some(InvalidPasswordReason), now, logFault);
        Answer(db.(attempts := log), Reply(401, BadCredentials), NoData)
      else
        var session := Session(sessionId, u.id, token, now + SessionLifetime, ip, userAgent);
        var log := LogLoginAttempt(db.attempts, email, ip, true, None, now, logFault);
        Answer(Db(StampLogin(db.users, u.id, now), db.sessions + [session], log, db.products),
               Reply(200, LoginSucceeded), SignedIn(ViewOf(u), token))
  }

  /** An unknown email and a wrong password get the same answer; only the
      logged reason tells them apart. */
  lemma LoginFailuresLookAlike(db: Db, unknown: string, known: string, wrong: string, ip: string,
                               ua: Option<string>, now: int, token: string, sid: Id)
    requires ActiveUserByEmail(db.users, unknown).None?
    requires ActiveUserByEmail(db.users, known).Some?
    requires !ComparePassword(wrong, ActiveUserByEmail(db.users, known).value.passwordHash)
    ensures Login(db, unknown, wrong, ip, ua, now, token, sid, NoFault).reply
         == Login(db, known, wrong, ip, ua, now, token, sid, NoFault).reply
         == Reply(401, BadCredentials)
    ensures Login(db, unknown, wrong, ip, ua, now, token, sid, NoFault).data
         == Login(db, known, wrong, ip, ua, now, token, sid, NoFault).data
    ensures LoginAttempt(unknown, ip, false, Some(UserNotFoundReason), now)
            in Login(db, unknown, wrong, ip, ua, now, token, sid, NoFault).db.attempts
    ensures LoginAttempt(known, ip, false, Some(InvalidPasswordReason), now)
            in Login(db, known, wrong, ip, ua, now, token, sid, NoFault).db.attempts
  {
  }

  /** The email the throttle reads from the raw body. A non-string email
      matches no row. */
  function ThrottleEmail(body: map<string, Json>): (e: Option<string>)
    ensures e.Some? <==> "email" in body && body["email"].JStr?
    ensures e.Some? ==> e.value == body["email"].s
  {
    if "email" in body && body["email"].JStr? then Some(body["email"].s) else None
  }

  /** Whether the throttle's count statement throws: `fails` stands for a
      store failure, and a body without `email` binds `undefined`, which the
      driver's `execute` refuses. Either way the request goes on. */
  predicate ThrottleThrows(body: map<string, Json>, fails: bool)
  {
    fails || "email" !in body
  }

  /** `POST /login`: the throttle reads the raw body, then the schema gate,
      then the handler. */
  function LoginRoute(db: Db, body: map<string, Json>, f: Formats, ip: string, userAgent: Option<string>, now: int,
                      env: Option<string>, throttleFails: bool, token: string, sessionId: Id, logFault: LogFault): (r: Answer)
    ensures CheckLoginAttempts(db.attempts, ThrottleEmail(body), ip, now, env, ThrottleThrows(body, throttleFails)).Halt? ==>
      r == Answer(db, Reply(429, TooManyLoginAttempts), NoData)
    ensures CheckLoginAttempts(db.attempts, ThrottleEmail(body), ip, now, env, ThrottleThrows(body, throttleFails)).Next?
            && !LoginOk(body, f) ==>
      r == Answer(db, Reply(400, InvalidInput), NoData)
    ensures "email" !in body ==> r == Answer(db, Reply(400, InvalidInput), NoData)
  {
    LoginGateMeaning(body, f);
    match CheckLoginAttempts(db.attempts, ThrottleEmail(body), ip, now, env, ThrottleThrows(body, throttleFails))
    case Halt(reply) => Answer(db, reply, NoData)
    case Next =>
      match ValidateInput(LoginSchema, body, f)
      case Fail(reply, _) => Answer(db, reply, NoData)
      case Pass(v) => Login(db, StrOf(v, "email"), StrOf(v, "password"), ip, userAgent, now, token, sessionId, logFault)
  }

  /** A body past the throttle and the gate reaches the handler as sent. */
  lemma LoginRouteAccepts(db: Db, body: map<string, Json>, f: Formats, ip: string, ua: Option<string>, now: int,
                          env: Option<string>, throttleFails: bool, token: string, sid: Id, logFault: LogFault)
    requires CheckLoginAttempts(db.attempts, ThrottleEmail(body), ip, now, env, ThrottleThrows(body, throttleFails)).Next?
    requires LoginOk(body, f)
    ensures LoginRoute(db, body, f, ip, ua, now, env, throttleFails, token, sid, logFault)
         == Login(db, body["email"].s, body["password"].s, ip, ua, now, token, sid, logFault)
  {
    LoginGateMeaning(body, f);
    GateKeepsField(LoginSchema, body, f, 0);
    GateKeepsField(LoginSchema, body, f, 1);
  }

  /** Once throttled, even the right password is not looked at: the answer is
      429 and nothing is written. */
  lemma ThrottleBeforePassword(db: Db, body: map<string, Json>, f: Formats, ip: string, ua: Option<string>, now: int,
                               env: Option<string>, token: string, sid: Id)
    requires "email" in body && body["email"].JStr?
    requires RecentFailures(db.attempts, Some(body["email"].s), ip, now) >= MaxAttempts(env)
    ensures LoginRoute(db, body, f, ip, ua, now, env, false, token, sid, NoFault) == Answer(db, Reply(429, TooManyLoginAttempts), NoData)
  {
  }

  /** A successful login leaves a session for the token, live for seven
      days, and the user's row stamped with the login time. */
  lemma LoginOpensSession(db: Db, email: string, password: string, ip: string, ua: Option<string>, now: int,
                          later: int, token: string, sid: Id)
    requires UniqueUserIds(db.users)
    requires ActiveUserByEmail(db.users, email).Some?
    requires ComparePassword(password, ActiveUserByEmail(db.users, email).value.passwordHash)
    requires now <= later < now + SessionLifetime
    ensures var u := ActiveUserByEmail(db.users, email).value;
      var after := Login(db, email, password, ip, ua, now, token, sid, NoFault).db;
      && LiveSession(after.sessions, token, u.id, later)
      && UserById(after.users, u.id) == Some(u.(lastLoginAt := Some(now)))
  {
    var u := ActiveUserByEmail(db.users, email).value;
    var after := Login(db, email, password, ip, ua, now, token, sid, NoFault).db;
    var s := Session(sid, u.id, token, now + SessionLifetime, ip, ua);
    assert s in after.sessions;
    var k :| 0 <= k < |db.users| && db.users[k] == u;
    StampLoginFinds(db.users, k, now);
  }

  /** The middleware's verdict once token, session and row are known good. */
  lemma AuthenticateKnownUser(db: Db, header: Option<string>, verify: string -> Verdict, now: int, u: User)
    requires BearerToken(header).Some? && verify(BearerToken(header).value) == Valid(u.id)
    requires LiveSession(db.sessions, BearerToken(header).value, u.id, now)
    requires UserById(db.users, u.id) == Some(u) && !u.isDeleted
    ensures !u.isVerified ==> Authenticate(db, header, verify, now) == Rejected(Reply(403, EmailNotVerified))
    ensures u.isVerified ==> Authenticate(db, header, verify, now) == Authorized(u, BearerToken(header).value)
  {
  }

  /** The login handler does not look at `is_verified`, but the middleware
      does: a fresh account that logs in gets 403 on every authenticated
      route while its session lives. */
  lemma LoginThenAuthenticate(db: Db, email: string, password: string, ip: string, ua: Option<string>, now: int,
                              later: int, token: string, sid: Id, verify: string -> Verdict)
    requires UniqueUserIds(db.users)
    requires ActiveUserByEmail(db.users, email).Some?
    requires ComparePassword(password, ActiveUserByEmail(db.users, email).value.passwordHash)
    requires ' ' !in token && |token| > 0
    requires verify(token) == Valid(ActiveUserByEmail(db.users, email).value.id)
    requires now <= later < now + SessionLifetime
    ensures var u := ActiveUserByEmail(db.users, email).value;
      var after := Login(db, email, password, ip, ua, now, token, sid, NoFault).db;
      && (!u.isVerified ==> Authenticate(after, Some("Bearer " + token), verify, later) == Rejected(Reply(403, EmailNotVerified)))
      && (u.isVerified ==> Authenticate(after, Some("Bearer " + token), verify, later) == Authorized(u.(lastLoginAt := Some(now)), token))
  {
    var u := ActiveUserByEmail(db.users, email).value;
    LoginOpensSession(db, email, password, ip, ua, now, later, token, sid);
    BearerGate(Login(db, email, password, ip, ua, now, token, sid, NoFault).db, token, verify, later, u.(lastLoginAt := Some(now)));
  }

  /** A bearer header built from a live session's token lets its user's
      verdict through. */
  lemma BearerGate(db: Db, token: string, verify: string -> Verdict, now: int, u: User)
    requires ' ' !in token && |token| > 0 && verify(token) == Valid(u.id)
    requires LiveSession(db.sessions, token, u.id, now)
    requires UserById(db.users, u.id) == Some(u) && !u.isDeleted
    ensures !u.isVerified ==> Authenticate(db, Some("Bearer " + token), verify, now) == Rejected(Reply(403, EmailNotVerified))
    ensures u.isVerified ==> Authenticate(db, Some("Bearer " + token), verify, now) == Authorized(u, token)
  {
    BearerTokenOfWord("Bearer", token);
    AuthenticateKnownUser(db, Some("Bearer " + token), verify, now, u);
  }

  // ---------------------------------------------------------------------
  // logout, profile, password change

  /** `DELETE FROM sessions WHERE token = ? AND user_id = ?`. */
  function Logout(db: Db, user: User, token: string): (r: Answer)
    ensures r.reply == Reply(200, LoggedOut)
    ensures r.db.users == db.users && r.db.attempts == db.attempts && r.db.products == db.products
    ensures forall s :: s in r.db.sessions ==> s in db.sessions && !(s.token == token && s.userId == user.id)
    ensures forall s :: s in db.sessions && !(s.token == token && s.userId == user.id) ==> s in r.db.sessions
    ensures IsSubsequence(r.db.sessions, db.sessions)
  {
    var keep := (s: Session) => !(s.token == token && s.userId == user.id);
    FilterIsSubsequence(db.sessions, keep);
    Answer(db.(sessions := Filter(db.sessions, keep)), Reply(200, LoggedOut), NoData)
  }

  /** `POST /logout` behind the token middleware. */
  function LogoutRoute(db: Db, header: Option<string>, verify: string -> Verdict, now: int): (r: Answer)
    ensures Authenticate(db, header, verify, now).Rejected? ==>
      r == Answer(db, Authenticate(db, header, verify, now).reply, NoData)
    ensures Authenticate(db, header, verify, now).Authorized? ==>
      r == Logout(db, Authenticate(db, header, verify, now).user, Authenticate(db, header, verify, now).token)
  {
    match Authenticate(db, header, verify, now)
    case Rejected(reply) => Answer(db, reply, NoData)
    case Authorized(user, token) => Logout(db, user, token)
  }

  /** After logout the same header is refused for want of a session, while
      the user's other sessions keep working. */
  lemma LogoutRevokes(db: Db, header: Option<string>, verify: string -> Verdict, now: int)
    requires Authenticate(db, header, verify, now).Authorized?
    ensures Authenticate(LogoutRoute(db, header, verify, now).db, header, verify, now) == Rejected(Reply(401, SessionInvalid))
  {
  }

  lemma LogoutKeepsOtherSessions(db: Db, header: Option<string>, verify: string -> Verdict, now: int, other: Option<string>)
    requires Authenticate(db, header, verify, now).Authorized?
    requires Authenticate(db, other, verify, now).Authorized?
    requires BearerToken(other) != BearerToken(header)
    ensures Authenticate(LogoutRoute(db, header, verify, now).db, other, verify, now) == Authenticate(db, other, verify, now)
  {
    var after := LogoutRoute(db, header, verify, now).db;
    var t := BearerToken(other).value;
    var id := verify(t).userId;
    var s :| s in db.sessions && s.token == t && s.userId == id && s.expiresAt > now;
    assert s in after.sessions;
  }

  function ProfileOf(u: User): (p: ProfileView)
    ensures p.id == u.id && p.email == u.email && p.username == u.username
    ensures p.phone == u.phone && p.address == u.address && p.isAdmin == u.isAdmin && p.isVerified == u.isVerified
  {
    ProfileView(u.id, u.email, u.username, u.phone, u.address, u.isAdmin, u.isVerified)
  }

  /** The `/me` handler: the caller's row is looked up again by id, without
      the deleted flag, and 404 when it is gone. */
  function Me(db: Db, user: User): (r: Answer)
    ensures r.db == db
    ensures UserById(db.users, user.id).None? ==> r.reply == Reply(404, UserNotFound) && r.data == NoData
    ensures UserById(db.users, user.id).Some? ==>
      r.reply.status == 200 && r.data == Profile(ProfileOf(UserById(db.users, user.id).value))
  {
    match UserById(db.users, user.id)
    case None => Answer(db, Reply(404, UserNotFound), NoData)
    case Some(row) => Answer(db, Reply(200, NoMessage), Profile(ProfileOf(row)))
  }

  /** `GET /me` behind the token middleware. */
  function MeRoute(db: Db, header: Option<string>, verify: string -> Verdict, now: int): (r: Answer)
    ensures r.db == db
    ensures Authenticate(db, header, verify, now).Rejected? ==>
      r == Answer(db, Authenticate(db, header, verify, now).reply, NoData)
    ensures Authenticate(db, header, verify, now).Authorized? ==> r == Me(db, Authenticate(db, header, verify, now).user)
  {
    match Authenticate(db, header, verify, now)
    case Rejected(reply) => Answer(db, reply, NoData)
    case Authorized(user, _) => Me(db, user)
  }

  /** Behind the middleware the 404 cannot happen: the caller's own profile
      comes back. */
  lemma MeFindsCaller(db: Db, header: Option<string>, verify: string -> Verdict, now: int)
    requires Authenticate(db, header, verify, now).Authorized?
    ensures MeRoute(db, header, verify, now).reply.status == 200
    ensures MeRoute(db, header, verify, now).data == Profile(ProfileOf(Authenticate(db, header, verify, now).user))
  {
  }

  /** `UPDATE users SET password_hash = ? WHERE id = ?`. */
  function SetHash(users: seq<User>, id: Id, hash: PasswordHash): (r: seq<User>)
    ensures |r| == |users|
    ensures forall k :: 0 <= k < |r| ==>
      r[k] == if users[k].id == id then users[k].(passwordHash := hash) else users[k]
  {
    seq(|users|, k requires 0 <= k < |users| =>
      if users[k].id == id then users[k].(passwordHash := hash) else users[k])
  }

  /** The password-change handler for the authenticated `user`. */
  function ChangePassword(db: Db, user: User, current: string, next: string, salt: string): (r: Answer)
    ensures UserById(db.users, user.id).None? ==> r == Answer(db, Reply(404, UserNotFound), NoData)
    ensures UserById(db.users, user.id).Some? && !ComparePassword(current, UserById(db.users, user.id).value.passwordHash) ==>
      r == Answer(db, Reply(401, WrongCurrentPassword), NoData)
    ensures r.reply.status == 200 <==>
      UserById(db.users, user.id).Some? && ComparePassword(current, UserById(db.users, user.id).value.passwordHash)
    ensures r.reply.status == 200 ==>
      && r.db.users == SetHash(db.users, user.id, HashPassword(next, salt))
      && r.db.sessions == Filter(db.sessions, (s: Session) => s.userId != user.id)
      && r.db.attempts == db.attempts && r.db.products == db.products
    ensures r.reply.status != 200 ==> r.db == db
  {
    match UserById(db.users, user.id)
    case None => Answer(db, Reply(404, UserNotFound), NoData)
    case Some(row) =>
      if !ComparePassword(current, row.passwordHash) then Answer(db, Reply(401, WrongCurrentPassword), NoData)
      else
        var users := SetHash(db.users, user.id, HashPassword(next, salt));
        var sessions := Filter(db.sessions, (s: Session) => s.userId != user.id);
        Answer(db.(users := users, sessions := sessions), Reply(200, PasswordChanged), NoData)
  }

  /** `PUT /password`: token middleware, schema gate, handler. */
  function ChangePasswordRoute(db: Db, header: Option<string>, verify: string -> Verdict, now: int,
                               body: map<string, Json>, f: Formats, salt: string): (r: Answer)
    ensures Authenticate(db, header, verify, now).Rejected? ==>
      r == Answer(db, Authenticate(db, header, verify, now).reply, NoData)
    ensures Authenticate(db, header, verify, now).Authorized? && !ChangePasswordOk(body) ==>
      r == Answer(db, Reply(400, InvalidInput), NoData)
    ensures Authenticate(db, header, verify, now).Authorized? && ChangePasswordOk(body) ==>
      r == ChangePassword(db, Authenticate(db, header, verify, now).user,
                          body["current_password"].s, body["new_password"].s, salt)
  {
    ChangePasswordSchemaMeaning(body, f);
    match Authenticate(db, header, verify, now)
    case Rejected(reply) => Answer(db, reply, NoData)
    case Authorized(user, _) =>
      match ValidateInput(ChangePasswordSchema, body, f)
      case Fail(reply, _) => Answer(db, reply, NoData)
      case Pass(v) =>
        ChangePasswordGateKeeps(body, f);
        ChangePassword(db, user, StrOf(v, "current_password"), StrOf(v, "new_password"), salt)
  }

  /** The two passwords are the password schema's first and second fields. */
  lemma ChangePasswordFields()
    ensures |ChangePasswordSchema| == 3
    ensures ChangePasswordSchema[0].name == "current_password" && ChangePasswordSchema[1].name == "new_password"
  {
  }

  /** What the password gate passes on for an accepted body. */
  lemma ChangePasswordGateKeeps(body: map<string, Json>, f: Formats)
    requires ChangePasswordOk(body)
    ensures ValidateInput(ChangePasswordSchema, body, f).Pass?
    ensures var v := ValidateInput(ChangePasswordSchema, body, f).body;
      && StrOf(v, "current_password") == body["current_password"].s
      && StrOf(v, "new_password") == body["new_password"].s
  {
    ChangePasswordSchemaMeaning(body, f);
    ChangePasswordFields();
    GateKeepsField(ChangePasswordSchema, body, f, 0);
    GateKeepsField(ChangePasswordSchema, body, f, 1);
  }

  /** A successful change signs the user out everywhere: no header of theirs
      is accepted afterwards. The new password matches the stored hash. */
  lemma PasswordChangeRevokesAll(db: Db, user: User, current: string, next: string, salt: string,
                                 header: Option<string>, verify: string -> Verdict, now: int)
    requires UniqueUserIds(db.users)
    requires ChangePassword(db, user, current, next, salt).reply.status == 200
    requires BearerToken(header).Some? && verify(BearerToken(header).value) == Valid(user.id)
    ensures Authenticate(ChangePassword(db, user, current, next, salt).db, header, verify, now)
         == Rejected(Reply(401, SessionInvalid))
    ensures ComparePassword(next, UserById(ChangePassword(db, user, current, next, salt).db.users, user.id).value.passwordHash)
  {
    var after := ChangePassword(db, user, current, next, salt).db;
    var row := UserById(db.users, user.id).value;
    var k :| 0 <= k < |db.users| && db.users[k] == row;
    var users := after.users;
    assert UniqueUserIds(users) by {
      forall i, j | 0 <= i < j < |users| ensures users[i].id != users[j].id {
        assert users[i].id == db.users[i].id && users[j].id == db.users[j].id;
      }
    }
    UserByIdUnique(users, k);
  }

  // ---------------------------------------------------------------------
  // cleanExpiredSessions

  /** `DELETE FROM sessions WHERE expires_at < NOW()`; a failing statement
      leaves the table as it was. */
  function CleanExpiredSessions(db: Db, now: int, fails: bool): (r: Db)
    ensures fails ==> r == db
    ensures r.users == db.users && r.attempts == db.attempts && r.products == db.products
    ensures !fails ==> forall s :: s in r.sessions <==> s in db.sessions && s.expiresAt >= now
    ensures IsSubsequence(r.sessions, db.sessions)
  {
    if fails then
      FilterKeepsAll(db.sessions, (s: Session) => true);
      FilterIsSubsequence(db.sessions, (s: Session) => true);
      db
    else
      FilterIsSubsequence(db.sessions, (s: Session) => s.expiresAt >= now);
      db.(sessions := Filter(db.sessions, (s: Session) => s.expiresAt >= now))
  }

  /** The sweep never changes what the token middleware decides at the same
      moment or later. */
  lemma CleanKeepsAuthentication(db: Db, now: int, later: int, header: Option<string>, verify: string -> Verdict)
    requires now <= later
    ensures Authenticate(CleanExpiredSessions(db, now, false), header, verify, later) == Authenticate(db, header, verify, later)
  {
    var after := CleanExpiredSessions(db, now, false);
    if BearerToken(header).Some? && verify(BearerToken(header).value).Valid? {
      var t := BearerToken(header).value;
      var id := verify(t).userId;
      if LiveSession(db.sessions, t, id, later) {
        var s :| s in db.sessions && s.token == t && s.userId == id && s.expiresAt > later;
        assert s in after.sessions;
      }
    }
  }
}
