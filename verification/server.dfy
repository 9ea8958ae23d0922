/** The Express application of the hardened backend: the order in which the
    middleware and the routers are installed, the 404 fallback, and the
    global error handler. */
module Server {
  import opened Basics
  import opened Http
  import opened Security

  // ---------------------------------------------------------------------
  // the global error handler

  /** An error handed to `next(err)`: its `name`, its `code` (a database
      error code such as `ER_DUP_ENTRY`), its `statusCode` (`None` when
      unset), its message, its validation `details` and its stack trace. */
  datatype AppError = AppError(
    name: string,
    code: Option<string>,
    statusCode: Option<nat>,
    message: string,
    details: Json,
    stack: string)

  /** A response of the application: status and message, the `errors` field
      of a validation failure, and the `stack` field when one is shown. */
  datatype Response = Response(reply: Reply, errors: Option<Json>, stack: Option<string>)

  function Plain(reply: Reply): Response
  {
    Response(reply, None, None)
  }

  predicate IsValidationError(e: AppError) { e.name == "ValidationError" }
  predicate IsUnauthorized(e: AppError) { e.name == "UnauthorizedError" }
  predicate IsDuplicate(e: AppError) { e.code == Some("ER_DUP_ENTRY") }

  /** An error none of the three named kinds matches. */
  predicate IsGeneric(e: AppError)
  {
    !IsValidationError(e) && !IsUnauthorized(e) && !IsDuplicate(e)
  }

  /** `err.statusCode || 500`: an unset or zero status code gives 500. */
  function StatusOf(e: AppError): (s: nat)
    ensures s > 0
    ensures e.statusCode.Some? && e.statusCode.value > 0 ==> s == e.statusCode.value
    ensures e.statusCode.None? || e.statusCode.value == 0 ==> s == 500
  {
    match e.statusCode
    case Some(c) => if c == 0 then 500 else c
    case None => 500
  }

  /** The error handler. The three named kinds are tested in the order
      validation, authorisation, duplicate entry, so an error matching
      several takes the first; anything else keeps its own status code. In
      production a generic error is reported with a fixed message and no
      stack; elsewhere its own message and stack are sent. */
  function HandleError(e: AppError, production: bool): (r: Response)
    ensures IsValidationError(e) ==> r == Response(Reply(400, InvalidInput), Some(e.details), None)
    ensures !IsValidationError(e) && IsUnauthorized(e) ==> r == Plain(Reply(401, AuthenticationRequired))
    ensures !IsValidationError(e) && !IsUnauthorized(e) && IsDuplicate(e) ==> r == Plain(Reply(409, DuplicateEntry))
    ensures IsGeneric(e) ==> r.reply.status == StatusOf(e) && r.errors.None?
    ensures IsGeneric(e) && production ==> r.reply.message == ServerError && r.stack.None?
    ensures IsGeneric(e) && !production ==> r.reply.message == ErrorText(e.message) && r.stack == Some(e.stack)
  {
    if IsValidationError(e) then Response(Reply(400, InvalidInput), Some(e.details), None)
    else if IsUnauthorized(e) then Plain(Reply(401, AuthenticationRequired))
    else if IsDuplicate(e) then Plain(Reply(409, DuplicateEntry))
    else
      var message := if production then ServerError else ErrorText(e.message);
      Response(Reply(StatusOf(e), message), None, if production then None else Some(e.stack))
  }

  /** In production the answer to an error never depends on its message or
      its stack: two errors that agree on everything else are answered alike,
      and no stack is ever sent. */
  lemma ProductionHidesInternals(e1: AppError, e2: AppError)
    requires e1.name == e2.name && e1.code == e2.code && e1.statusCode == e2.statusCode
    requires e1.details == e2.details
    ensures HandleError(e1, true) == HandleError(e2, true)
    ensures HandleError(e1, true).stack.None?
  {
  }

  /** The named kinds decide the status whatever `statusCode` says, and a
      generic error's status is its own code. */
  lemma NamedKindsOverrideStatus(e: AppError, code: nat, production: bool)
    ensures var r := HandleError(e, production);
            var r2 := HandleError(e.(statusCode := Some(code)), production);
            !IsGeneric(e) ==> r2 == r
    ensures IsGeneric(e) && code > 0 ==> HandleError(e.(statusCode := Some(code)), production).reply.status == code
  {
  }

  // ---------------------------------------------------------------------
  // the middleware chain

  datatype RouterName = AuthRouter | ProductRouter

  /** The installed middleware, in the order the application installs
      them. Session, CORS, helmet and body parsing come earlier and are not
      modelled. */
  datatype Stage =
    | GlobalLimit                        // `app.use('/api/', globalLimiter)`
    | Sanitize                           // `app.use(sanitizeInput)`
    | StaticUploads                      // `app.use('/uploads', express.static(...))`
    | RequestLog                         // development only
    | HealthCheck                        // `app.get('/api/health', ...)`
    | Mount(prefix: string, router: RouterName)
    | NotFound                           // the 404 fallback

  /** What a router does with a request: answers, passes it on, or raises. */
  datatype Handled = Answered(reply: Reply) | Passed | Raised(err: AppError)

  /** The world a request meets: whether the caller's rate window is
      exhausted, which files the upload directory holds, and the routers. */
  datatype World = World(
    limited: bool,
    hasFile: string -> bool,
    routers: RouterName -> Request -> Handled)

  /** The stages after input sanitising. */
  function Routes(production: bool): (r: seq<Stage>)
    ensures |r| > 0 && r[|r| - 1] == NotFound
    ensures Sanitize !in r && GlobalLimit !in r
    ensures RequestLog in r <==> !production
  {
    [StaticUploads] + (if production then [] else [RequestLog])
      + [HealthCheck, Mount("/api/auth", AuthRouter), Mount("/api/products", ProductRouter), NotFound]
  }

  function Pipeline(production: bool): seq<Stage>
  {
    [GlobalLimit, Sanitize] + Routes(production)
  }

  /** A mount path matches itself and everything below it. */
  predicate MountMatches(prefix: string, path: string)
  {
    path == prefix || prefix + "/" <= path
  }

  datatype StageResult = Continue(req: Request) | Finish(response: Response)

  /** One stage: only the sanitiser changes the request it passes on, the
      404 fallback always answers, and a router answers only below its
      mount path. */
  function RunStage(s: Stage, req: Request, w: World, production: bool): (r: StageResult)
    ensures s != Sanitize && r.Continue? ==> r.req == req
    ensures s == Sanitize ==> r == Continue(SanitizeInput(req))
    ensures s == NotFound ==> r.Finish?
    ensures s.Mount? && !MountMatches(s.prefix, req.path) ==> r == Continue(req)
  {
    match s
    case GlobalLimit =>
      if MountMatches("/api", req.path) && w.limited then Finish(Plain(Reply(429, TooManyRequests)))
      else Continue(req)
    case Sanitize => Continue(SanitizeInput(req))
    case StaticUploads =>
      if MountMatches("/uploads", req.path) && w.hasFile(req.path) then Finish(Plain(Reply(200, NoMessage)))
      else Continue(req)
    case RequestLog => Continue(req)
    case HealthCheck =>
      if req.verb == "GET" && req.path == "/api/health" then Finish(Plain(Reply(200, ServerRunning)))
      else Continue(req)
    case Mount(prefix, name) =>
      if MountMatches(prefix, req.path) then
        match w.routers(name)(req)
        case Answered(reply) => Finish(Plain(reply))
        case Passed => Continue(req)
        case Raised(e) => Finish(HandleError(e, production))
      else Continue(req)
    case NotFound => Finish(Plain(Reply(404, RouteNotFound)))
  }

  /** The answer, the index of the stage that gave it (the length of the
      chain when none did), and the request as that stage saw it. */
  datatype Trace = Trace(response: Response, at: nat, seen: Request)

  function Run(stages: seq<Stage>, req: Request, w: World, production: bool): (t: Trace)
    ensures t.at <= |stages|
    decreases |stages|
  {
    if |stages| == 0 then Trace(Plain(Reply(404, RouteNotFound)), 0, req)
    else
      match RunStage(stages[0], req, w, production)
      case Finish(response) => Trace(response, 0, req)
      case Continue(next) =>
        var t := Run(stages[1..], next, w, production);
        t.(at := t.at + 1)
  }

  function Serve(req: Request, w: World, production: bool): Trace
  {
    Run(Pipeline(production), req, w, production)
  }

  /** Stages that pass a request on untouched can be skipped: the first
      stage that acts decides. */
  lemma {:induction false} RunSkips(stages: seq<Stage>, k: nat, req: Request, w: World, production: bool)
    requires k < |stages|
    requires forall i :: 0 <= i < k ==> RunStage(stages[i], req, w, production) == Continue(req)
    ensures var t := Run(stages, req, w, production);
            match RunStage(stages[k], req, w, production)
            case Finish(response) => t == Trace(response, k, req)
            case Continue(next) =>
              var u := Run(stages[k + 1..], next, w, production);
              t == u.(at := u.at + k + 1)
    decreases k
  {
    if k > 0 {
      assert RunStage(stages[0], req, w, production) == Continue(req);
      RunSkips(stages[1..], k - 1, req, w, production);
      assert stages[1..][k - 1] == stages[k] && stages[1..][k..] == stages[k + 1..];
    }
  }

  /** Without a sanitising stage the request reaches every stage as sent. */
  lemma {:induction false} RunKeepsRequest(stages: seq<Stage>, req: Request, w: World, production: bool)
    requires Sanitize !in stages
    ensures Run(stages, req, w, production).seen == req
    decreases |stages|
  {
    if |stages| > 0 {
      assert stages[0] != Sanitize;
      assert Sanitize !in stages[1..];
      RunKeepsRequest(stages[1..], req, w, production);
    }
  }

  /** Input sanitising runs before every route: whichever stage answers saw
      the escaped request, except the rate limiter, which answers only an
      exhausted caller on an `/api` path. */
  lemma HandlersSeeSanitized(req: Request, w: World, production: bool)
    ensures var t := Serve(req, w, production);
            t.at == 0 <==> MountMatches("/api", req.path) && w.limited
    ensures var t := Serve(req, w, production);
            t.at > 0 ==> t.seen == SanitizeInput(req) && t.at < |Pipeline(production)|
  {
    var p := Pipeline(production);
    var q := SanitizeInput(req);
    var r := Routes(production);
    assert p[1..] == [Sanitize] + r && ([Sanitize] + r)[1..] == r;
    if !(MountMatches("/api", req.path) && w.limited) {
      RunKeepsRequest(r, q, w, production);
      RunNeverFallsOff(r, q, w, production);
      ServeAfterLimit(req, w, production);
    }
  }

  /** The 404 fallback is the last route, so the chain always answers. */
  lemma RunNeverFallsOff(r: seq<Stage>, q: Request, w: World, production: bool)
    requires r == Routes(production)
    ensures Run(r, q, w, production).at < |r|
  {
    var k := |r| - 1;
    assert r[k] == NotFound;
    LastStageAnswers(r, q, w, production);
  }

  /** A chain ending in the 404 fallback always answers by one of its
      stages. */
  lemma {:induction false} LastStageAnswers(stages: seq<Stage>, req: Request, w: World, production: bool)
    requires |stages| > 0 && stages[|stages| - 1] == NotFound
    ensures Run(stages, req, w, production).at < |stages|
    decreases |stages|
  {
    if |stages| > 1 && RunStage(stages[0], req, w, production).Continue? {
      var next := RunStage(stages[0], req, w, production).req;
      assert stages[1..][|stages| - 2] == NotFound;
      LastStageAnswers(stages[1..], next, w, production);
    }
  }

  /** A request below `/api/products` from a caller within the rate limit is
      answered by the product router on the escaped request: its reply, the
      error handler's answer to what it raised, or 404 when it passes. */
  lemma ProductRequestsReachRouter(req: Request, w: World, production: bool)
    requires MountMatches("/api/products", req.path) && !w.limited
    ensures var q := SanitizeInput(req);
            Serve(req, w, production).response ==
              match w.routers(ProductRouter)(q)
              case Answered(reply) => Plain(reply)
              case Passed => Plain(Reply(404, RouteNotFound))
              case Raised(e) => HandleError(e, production)
  {
    var q := SanitizeInput(req);
    var r := Routes(production);
    ProductPathOnly(req.path);
    assert q.path == req.path && q.verb == req.verb;
    var k := |r| - 2;
    assert r[k] == Mount("/api/products", ProductRouter);
    assert forall i :: 0 <= i < k ==> RunStage(r[i], q, w, production) == Continue(q);
    RunSkips(r, k, q, w, production);
    assert r[k + 1..] == [NotFound];
    ServeAfterLimit(req, w, production);
  }

  /** A path below `/api/products` is below no other mount and is not the
      health check. */
  lemma ProductPathOnly(path: string)
    requires MountMatches("/api/products", path)
    ensures !MountMatches("/uploads", path) && !MountMatches("/api/auth", path) && path != "/api/health"
  {
    assert |path| >= 13 && path[..13] == "/api/products";
    assert path[1] == 'a' && path[5] == 'p';
    assert !MountMatches("/uploads", path) by { assert "/uploads"[1] == 'u'; }
    assert !MountMatches("/api/auth", path) by { assert "/api/auth"[5] == 'a'; }
    assert path != "/api/health" by { assert "/api/health"[5] == 'h'; }
  }

  /** Within the rate limit, serving is running the routes on the escaped
      request. */
  lemma ServeAfterLimit(req: Request, w: World, production: bool)
    requires !(MountMatches("/api", req.path) && w.limited)
    ensures var t := Run(Routes(production), SanitizeInput(req), w, production);
            Serve(req, w, production) == t.(at := t.at + 2)
  {
    var p := Pipeline(production);
    var r := Routes(production);
    var q := SanitizeInput(req);
    assert p[0] == GlobalLimit && RunStage(GlobalLimit, req, w, production) == Continue(req);
    assert p[1..] == [Sanitize] + r && ([Sanitize] + r)[1..] == r;
    var u := Run([Sanitize] + r, req, w, production);
    assert Serve(req, w, production) == u.(at := u.at + 1);
    var t := Run(r, q, w, production);
    assert u == t.(at := t.at + 1);
  }

  /** A request no route claims gets the 404 fallback. */
  lemma UnclaimedIsNotFound(req: Request, w: World, production: bool)
    requires !(MountMatches("/api", req.path) && w.limited)
    requires !(MountMatches("/uploads", req.path) && w.hasFile(req.path))
    requires !(req.verb == "GET" && req.path == "/api/health")
    requires !MountMatches("/api/auth", req.path) && !MountMatches("/api/products", req.path)
    ensures Serve(req, w, production).response == Plain(Reply(404, RouteNotFound))
  {
    var q := SanitizeInput(req);
    var r := Routes(production);
    var k := |r| - 1;
    assert r[k] == NotFound;
    assert q.path == req.path && q.verb == req.verb;
    assert forall i :: 0 <= i < k ==> RunStage(r[i], q, w, production) == Continue(q);
    RunSkips(r, k, q, w, production);
    var t := Run(r, q, w, production);
    assert t.response == Plain(Reply(404, RouteNotFound));
    ServeAfterLimit(req, w, production);
    assert Serve(req, w, production) == t.(at := t.at + 2);
  }
}
