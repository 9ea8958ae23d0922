/** The bearer-token middleware of the hardened backend: a request passes
    through token extraction, signature and expiry verification, a live-session
    lookup and a user lookup, and the first check that fails decides the
    response. Also the admin and self guards and the never-rejecting variant. */
module AuthMiddleware {
  import opened Basics
  import opened Text
  import opened Http
  import opened Store

  /** What `jwt.verify` reports about a token: the `userId` claim of a token
      whose signature and expiry check out, `TokenExpiredError`, or any other
      failure. Signing and verification are a parameter of the model. */
  datatype Verdict = Valid(userId: Id) | Expired | Invalid

  /** `authHeader && authHeader.split(' ')[1]`, kept only when truthy. */
  function BearerToken(header: Option<string>): (t: Option<string>)
    ensures t.Some? ==> |t.value| > 0 && ' ' !in t.value
    ensures t.Some? ==> header.Some? && |Split(header.value, ' ')| >= 2
                        && t.value == Split(header.value, ' ')[1]
    ensures header.Some? && ' ' !in header.value ==> t.None?
  {
    if header.None? then None
    else
      var parts := Split(header.value, ' ');
      if |parts| >= 2 && |parts[1]| > 0 then Some(parts[1]) else None
  }

  /** The scheme word is never checked: any space-free word followed by one
      space and a space-free token yields that token. */
  lemma {:induction false} BearerTokenOfWord(scheme: string, token: string)
    requires ' ' !in scheme && ' ' !in token && |token| > 0
    ensures BearerToken(Some(scheme + " " + token)) == Some(token)
  {
    var parts := [scheme, token];
    assert Join(parts, ' ') == scheme + " " + token by {
      assert Join(parts[1..], ' ') == token;
    }
    SplitJoin(parts, ' ');
  }

  /** A row of `sessions` matches token, user and `expires_at > NOW()`. */
  predicate LiveSession(sessions: seq<Session>, token: string, userId: Id, now: int)
  {
    exists s :: s in sessions && s.token == token && s.userId == userId && s.expiresAt > now
  }

  datatype AuthResult = Authorized(user: User, token: string) | Rejected(reply: Reply)

  /** `authenticateToken`: on success `req.user` and `req.token` are set and
      `next()` is called. */
  function Authenticate(db: Db, header: Option<string>, verify: string -> Verdict, now: int): (r: AuthResult)
    // accepted exactly when every check holds, whatever order they run in
    ensures r.Authorized? <==>
      && BearerToken(header).Some?
      && verify(BearerToken(header).value).Valid?
      && LiveSession(db.sessions, BearerToken(header).value, verify(BearerToken(header).value).userId, now)
      && UserById(db.users, verify(BearerToken(header).value).userId).Some?
      && !UserById(db.users, verify(BearerToken(header).value).userId).value.isDeleted
      && UserById(db.users, verify(BearerToken(header).value).userId).value.isVerified
    ensures r.Authorized? ==>
      && r.token == BearerToken(header).value
      && r.user.id == verify(r.token).userId
      && r.user in db.users && !r.user.isDeleted && r.user.isVerified
      && LiveSession(db.sessions, r.token, r.user.id, now)
    // the order of the checks, seen through the responses
    ensures BearerToken(header).None? ==> r == Rejected(Reply(401, TokenRequired))
    ensures BearerToken(header).Some? && verify(BearerToken(header).value).Expired? ==>
      r == Rejected(Reply(401, TokenExpired))
    ensures BearerToken(header).Some? && verify(BearerToken(header).value).Invalid? ==>
      r == Rejected(Reply(403, TokenInvalid))
    ensures (BearerToken(header).Some? && verify(BearerToken(header).value).Valid?
             && !LiveSession(db.sessions, BearerToken(header).value, verify(BearerToken(header).value).userId, now))
            ==> r == Rejected(Reply(401, SessionInvalid))
    ensures r.Rejected? && r.reply.status == 403 ==>
      r.reply.message == TokenInvalid || r.reply.message == EmailNotVerified
    ensures r.Rejected? ==> r.reply.status == 401 || r.reply.status == 403
  {
    match BearerToken(header)
    case None => Rejected(Reply(401, TokenRequired))
    case Some(token) =>
      match verify(token)
      case Expired => Rejected(Reply(401, TokenExpired))
      case Invalid => Rejected(Reply(403, TokenInvalid))
      case Valid(userId) =>
        if !LiveSession(db.sessions, token, userId, now) then
          Rejected(Reply(401, SessionInvalid))
        else
          match UserById(db.users, userId)
          case None => Rejected(Reply(401, UserNotFound))
          case Some(user) =>
            if user.isDeleted then Rejected(Reply(401, UserNotFound))
            else if !user.isVerified then Rejected(Reply(403, EmailNotVerified))
            else Authorized(user, token)
  }

  /** A deleted or missing user is refused with 401 before the verification
      flag is looked at; an unverified one is refused with 403 only once the
      token and session are good. */
  lemma UserChecksOrder(db: Db, header: Option<string>, verify: string -> Verdict, now: int)
    requires BearerToken(header).Some? && verify(BearerToken(header).value).Valid?
    requires LiveSession(db.sessions, BearerToken(header).value, verify(BearerToken(header).value).userId, now)
    ensures var u := UserById(db.users, verify(BearerToken(header).value).userId);
      && (u.None? || u.value.isDeleted ==> Authenticate(db, header, verify, now) == Rejected(Reply(401, UserNotFound)))
      && (u.Some? && !u.value.isDeleted && !u.value.isVerified ==>
            Authenticate(db, header, verify, now) == Rejected(Reply(403, EmailNotVerified)))
  {
  }

  /** `requireAdmin`. */
  function RequireAdmin(user: Option<User>): (r: Outcome)
    ensures r.Next? <==> user.Some? && user.value.isAdmin
    ensures r.Halt? ==> r.reply == Reply(403, AdminRequired)
  {
    if user.None? || !user.value.isAdmin then Halt(Reply(403, AdminRequired)) else Next
  }

  /** An admin passes every `requireSelf` check, whatever the target; the
      converse fails: an owner whom `requireAdmin` refuses passes
      `requireSelf` on their own id. */
  lemma AdminPassesSelf(user: User, paramName: string)
    ensures RequireAdmin(Some(user)).Next? ==>
      forall params, body :: RequireSelf(user, params, body, paramName).Next?
    ensures RequireAdmin(Some(user)).Halt? && |user.id| > 0 ==>
      RequireSelf(user, map[paramName := user.id], map[], paramName).Next?
  {
    if RequireAdmin(Some(user)).Halt? && |user.id| > 0 {
      assert SelfTarget(map[paramName := user.id], map[], paramName) == Some(JStr(user.id));
    }
  }

  /** The target of `requireSelf(paramName)`: the route parameter when truthy,
      otherwise whatever the body holds (possibly nothing). */
  function SelfTarget(params: map<string, string>, body: map<string, Json>, paramName: string): (t: Option<Json>)
    ensures paramName in params && |params[paramName]| > 0 ==> t == Some(JStr(params[paramName]))
    ensures !(paramName in params && |params[paramName]| > 0) ==>
      (t.Some? <==> paramName in body) && (t.Some? ==> t.value == body[paramName])
  {
    if paramName in params && |params[paramName]| > 0 then Some(JStr(params[paramName]))
    else if paramName in body then Some(body[paramName])
    else None
  }

  /** `requireSelf(paramName)`, run after authentication: passes when the
      target is the caller's own id (a string, compared strictly) or the
      caller is an admin. */
  function RequireSelf(user: User, params: map<string, string>, body: map<string, Json>, paramName: string): (r: Outcome)
    ensures r.Next? <==> user.isAdmin || SelfTarget(params, body, paramName) == Some(JStr(user.id))
    ensures r.Halt? ==> r.reply == Reply(403, Forbidden)
  {
    var target := SelfTarget(params, body, paramName);
    if target != Some(JStr(user.id)) && !user.isAdmin then Halt(Reply(403, Forbidden)) else Next
  }

  /** The route parameter wins over the body: a non-admin naming itself in the
      body is still refused when the route parameter names someone else. */
  lemma RequireSelfPrefersParams(user: User, other: Id, body: map<string, Json>, paramName: string)
    requires !user.isAdmin && |other| > 0 && other != user.id
    ensures RequireSelf(user, map[paramName := other], body[paramName := JStr(user.id)], paramName)
      == Halt(Reply(403, Forbidden))
  {
  }

  /** `optionalAuth`: never answers, always calls `next()`; the result is the
      user attached to the request, if any. Sessions and the verification flag
      are not consulted. */
  function OptionalAuth(db: Db, header: Option<string>, verify: string -> Verdict): (r: Option<User>)
    ensures r.Some? ==> BearerToken(header).Some? && verify(BearerToken(header).value) == Valid(r.value.id)
    ensures r.Some? ==> r.value in db.users && !r.value.isDeleted
    ensures r.None? <==>
      || BearerToken(header).None?
      || !verify(BearerToken(header).value).Valid?
      || forall u :: u in db.users ==> !(u.id == verify(BearerToken(header).value).userId && !u.isDeleted)
  {
    match BearerToken(header)
    case None => None
    case Some(token) =>
      match verify(token)
      case Valid(userId) => First(db.users, (u: User) => u.id == userId && !u.isDeleted)
      case _ => None
  }

  /** Whenever the strict middleware authorises a request, the optional one
      attaches the same user to it. */
  lemma OptionalAgreesWithStrict(db: Db, header: Option<string>, verify: string -> Verdict, now: int)
    requires Authenticate(db, header, verify, now).Authorized?
    ensures OptionalAuth(db, header, verify) == Some(Authenticate(db, header, verify, now).user)
  {
    var token := BearerToken(header).value;
    var userId := verify(token).userId;
    var i := FirstIndex(db.users, (u: User) => u.id == userId).value;
    var k := FirstIndex(db.users, (u: User) => u.id == userId && !u.isDeleted).value;
    assert db.users[i].id == userId && !db.users[i].isDeleted;
    assert !(k < i);
  }

  /** The optional middleware attaches a user the strict one refuses: an
      unverified account with no live session. */
  lemma OptionalIgnoresSessionAndVerification(u: User, verify: string -> Verdict, token: string, now: int)
    requires !u.isDeleted && !u.isVerified
    requires ' ' !in token && |token| > 0 && verify(token) == Valid(u.id)
    ensures OptionalAuth(Db([u], [], [], []), Some("Bearer " + token), verify) == Some(u)
    ensures Authenticate(Db([u], [], [], []), Some("Bearer " + token), verify, now) == Rejected(Reply(401, SessionInvalid))
  {
    BearerTokenOfWord("Bearer", token);
  }
}
