/** The security middleware of the hardened backend: HTML escaping of request
    strings, the CSRF comparison, the schema gate, the login throttle and its
    attempt log, the upload checks and the IP allow-list. */
module Security {
  import opened Basics
  import opened Text
  import opened Http
  import opened Store
  import opened Validation

  // ---------------------------------------------------------------------
  // escapeHtml

  predicate IsQuoteOrSlash(c: char) { c == '"' || c == '\'' || c == '/' }
  predicate IsMarkupChar(c: char) { c == '&' || c == '<' || c == '>' || IsQuoteOrSlash(c) }

  /** The replacement table as `escapeHtml` writes it: `&`, `<` and `>` are
      mapped to themselves. */
  function EscapeCharAsWritten(c: char): string
  {
    if c == '"' then "&quot;"
    else if c == '\'' then "&#x27;"
    else if c == '/' then "&#x2F;"
    else [c]
  }

  function EscapeHtmlAsWritten(s: string): (r: string)
    ensures |r| >= |s|
    ensures forall k :: 0 <= k < |r| ==> !IsQuoteOrSlash(r[k])
  {
    if |s| == 0 then "" else EscapeCharAsWritten(s[0]) + EscapeHtmlAsWritten(s[1..])
  }

  /** Text without quotes or slashes passes through the as-written escape
      untouched, markup included. */
  lemma {:induction false} AsWrittenFixesQuoteFree(s: string)
    requires forall k :: 0 <= k < |s| ==> !IsQuoteOrSlash(s[k])
    ensures EscapeHtmlAsWritten(s) == s
  {
    if |s| > 0 {
      AsWrittenFixesQuoteFree(s[1..]);
    }
  }

  /** Escaping twice with the as-written table is escaping once. */
  lemma EscapeAsWrittenIdempotent(s: string)
    ensures EscapeHtmlAsWritten(EscapeHtmlAsWritten(s)) == EscapeHtmlAsWritten(s)
  {
    AsWrittenFixesQuoteFree(EscapeHtmlAsWritten(s));
  }

  /** A tag with an event handler and no quotes survives the as-written escape
      verbatim. */
  lemma EscapeAsWrittenKeepsTags()
    ensures EscapeHtmlAsWritten("<img src=x onerror=alert(1)>") == "<img src=x onerror=alert(1)>"
  {
    AsWrittenFixesQuoteFree("<img src=x onerror=alert(1)>");
  }

  /** The table with the HTML entities for `&`, `<` and `>`. */
  function EscapeChar(c: char): (r: string)
    ensures |r| >= 1
    ensures IsMarkupChar(c) <==> r[0] == '&'
  {
    if c == '&' then "&amp;"
    else if c == '<' then "&lt;"
    else if c == '>' then "&gt;"
    else if c == '"' then "&quot;"
    else if c == '\'' then "&#x27;"
    else if c == '/' then "&#x2F;"
    else [c]
  }

  function EscapeHtml(s: string): (r: string)
    ensures |r| >= |s|
    ensures forall k :: 0 <= k < |r| ==> r[k] == '&' || !IsMarkupChar(r[k])
  {
    if |s| == 0 then "" else EscapeChar(s[0]) + EscapeHtml(s[1..])
  }

  /** Decoding of the six entities, the partner of `EscapeHtml`. */
  function UnescapeHtml(t: string): string
  {
    if |t| == 0 then ""
    else if "&amp;" <= t then "&" + UnescapeHtml(t[5..])
    else if "&lt;" <= t then "<" + UnescapeHtml(t[4..])
    else if "&gt;" <= t then ">" + UnescapeHtml(t[4..])
    else if "&quot;" <= t then "\"" + UnescapeHtml(t[6..])
    else if "&#x27;" <= t then "'" + UnescapeHtml(t[6..])
    else if "&#x2F;" <= t then "/" + UnescapeHtml(t[6..])
    else [t[0]] + UnescapeHtml(t[1..])
  }

  /** Decoding reads the entity of `&`, `<` or `>` back as that character. */
  lemma UnescapeMarkup(c: char, rest: string)
    requires c == '&' || c == '<' || c == '>'
    ensures UnescapeHtml(EscapeChar(c) + rest) == [c] + UnescapeHtml(rest)
  {
    var t := EscapeChar(c) + rest;
    if c == '&' {
      assert t[5..] == rest;
    } else if c == '<' {
      assert t[1] == 'l' && t[4..] == rest;
    } else {
      assert t[1] == 'g' && t[4..] == rest;
    }
  }

  /** Decoding reads the entity of a quote or `/` back as that character. */
  lemma UnescapeQuote(c: char, rest: string)
    requires IsQuoteOrSlash(c)
    ensures UnescapeHtml(EscapeChar(c) + rest) == [c] + UnescapeHtml(rest)
  {
    var t := EscapeChar(c) + rest;
    if c == '"' {
      assert t[1] == 'q' && t[6..] == rest;
    } else if c == '\'' {
      assert t[1] == '#' && t[4] == '7' && t[6..] == rest;
    } else {
      assert t[1] == '#' && t[4] == 'F' && t[6..] == rest;
    }
  }

  /** Any other character is its own escape and decodes to itself. */
  lemma UnescapePlain(c: char, rest: string)
    requires !IsMarkupChar(c)
    ensures UnescapeHtml(EscapeChar(c) + rest) == [c] + UnescapeHtml(rest)
  {
    var t := EscapeChar(c) + rest;
    assert t[0] == c && t[1..] == rest;
  }

  lemma UnescapeStep(c: char, rest: string)
    ensures UnescapeHtml(EscapeChar(c) + rest) == [c] + UnescapeHtml(rest)
  {
    if IsQuoteOrSlash(c) {
      UnescapeQuote(c, rest);
    } else if IsMarkupChar(c) {
      UnescapeMarkup(c, rest);
    } else {
      UnescapePlain(c, rest);
    }
  }

  /** Escaping loses nothing: decoding gives back the original text. */
  lemma {:induction false} UnescapeEscape(s: string)
    ensures UnescapeHtml(EscapeHtml(s)) == s
  {
    if |s| > 0 {
      UnescapeStep(s[0], EscapeHtml(s[1..]));
      UnescapeEscape(s[1..]);
    }
  }

  /** On text free of `&`, `<` and `>` the two tables agree. */
  lemma {:induction false} EscapeAgreesOffMarkup(s: string)
    requires forall k :: 0 <= k < |s| ==> s[k] != '&' && s[k] != '<' && s[k] != '>'
    ensures EscapeHtml(s) == EscapeHtmlAsWritten(s)
  {
    if |s| > 0 {
      EscapeAgreesOffMarkup(s[1..]);
    }
  }

  // ---------------------------------------------------------------------
  // sanitizeInput

  /** Escaping with the written table is not reversible: a quote and the
      text of its entity escape alike. */
  lemma AsWrittenMergesEntities()
    ensures EscapeHtmlAsWritten("\"") == EscapeHtmlAsWritten("&quot;") == "&quot;"
  {
    AsWrittenFixesQuoteFree("&quot;");
  }

  /** `escapeHtml` on one value: strings go through the table as written,
      anything else is left. */
  function EscapeValue(v: Json): (r: Json)
    ensures v.JStr? <==> r.JStr?
    ensures !v.JStr? ==> r == v
    ensures v.JStr? ==> |r.s| >= |v.s| && forall i :: 0 <= i < |r.s| ==> !IsQuoteOrSlash(r.s[i])
  {
    if v.JStr? then JStr(EscapeHtmlAsWritten(v.s)) else v
  }

  /** Escaping a value twice is escaping it once. */
  lemma EscapeValueIdempotent(v: Json)
    ensures EscapeValue(EscapeValue(v)) == EscapeValue(v)
  {
    if v.JStr? {
      EscapeAsWrittenIdempotent(v.s);
    }
  }

  function EscapeFields(m: map<string, Json>): (r: map<string, Json>)
    ensures r.Keys == m.Keys
    ensures forall k :: k in m ==> r[k] == EscapeValue(m[k])
  {
    map k | k in m :: EscapeValue(m[k])
  }

  /** No string a handler reads holds a raw quote or slash. */
  predicate QuoteFreeStrings(m: map<string, Json>)
  {
    forall k :: k in m && m[k].JStr? ==> forall i :: 0 <= i < |m[k].s| ==> !IsQuoteOrSlash(m[k].s[i])
  }

  /** `sanitizeInput`: every top-level string of the body and of the query
      goes through `escapeHtml`; keys, other values and the rest of the
      request stay as they are. Quotes and slashes are rewritten, markup is
      not. */
  function SanitizeInput(req: Request): (r: Request)
    ensures r.body.Keys == req.body.Keys && r.query.Keys == req.query.Keys
    ensures forall k :: k in req.body && !req.body[k].JStr? ==> r.body[k] == req.body[k]
    ensures forall k :: k in req.query && !req.query[k].JStr? ==> r.query[k] == req.query[k]
    ensures forall k :: k in req.body && req.body[k].JStr? ==> r.body[k].JStr? && |r.body[k].s| >= |req.body[k].s|
    ensures forall k :: k in req.query && req.query[k].JStr? ==> r.query[k].JStr? && |r.query[k].s| >= |req.query[k].s|
    ensures QuoteFreeStrings(r.body) && QuoteFreeStrings(r.query)
    ensures r.verb == req.verb && r.path == req.path && r.headers == req.headers && r.ip == req.ip
  {
    req.(body := EscapeFields(req.body), query := EscapeFields(req.query))
  }

  /** Sanitising a sanitised request changes nothing more. */
  lemma SanitizeIdempotent(req: Request)
    ensures SanitizeInput(SanitizeInput(req)) == SanitizeInput(req)
  {
    var r := SanitizeInput(req);
    forall k | k in req.body ensures EscapeValue(r.body[k]) == r.body[k] {
      EscapeValueIdempotent(req.body[k]);
    }
    forall k | k in req.query ensures EscapeValue(r.query[k]) == r.query[k] {
      EscapeValueIdempotent(req.query[k]);
    }
    assert SanitizeInput(r).body == r.body;
    assert SanitizeInput(r).query == r.query;
  }

  /** A body string without quotes or slashes reaches the handlers as sent,
      tags and event handlers included. */
  lemma SanitizeKeepsQuoteFree(req: Request, k: string)
    requires k in req.body && req.body[k].JStr?
    requires forall i :: 0 <= i < |req.body[k].s| ==> !IsQuoteOrSlash(req.body[k].s[i])
    ensures SanitizeInput(req).body[k] == req.body[k]
  {
    AsWrittenFixesQuoteFree(req.body[k].s);
  }

  // ---------------------------------------------------------------------
  // csrfProtection

  predicate IsSafeMethod(m: string) { m == "GET" || m == "HEAD" || m == "OPTIONS" }

  /** `req.headers['x-csrf-token'] || req.body._csrf`. */
  function SubmittedCsrf(req: Request): (t: Option<Json>)
    ensures "x-csrf-token" in req.headers && |req.headers["x-csrf-token"]| > 0 ==>
      t == Some(JStr(req.headers["x-csrf-token"]))
    ensures !("x-csrf-token" in req.headers && |req.headers["x-csrf-token"]| > 0) ==>
      (t.Some? <==> "_csrf" in req.body) && (t.Some? ==> t.value == req.body["_csrf"])
  {
    if "x-csrf-token" in req.headers && |req.headers["x-csrf-token"]| > 0 then Some(JStr(req.headers["x-csrf-token"]))
    else if "_csrf" in req.body then Some(req.body["_csrf"])
    else None
  }

  /** `csrfProtection`, given the token stored in the session (if any). */
  function CsrfProtection(req: Request, sessionToken: Option<string>): (r: Outcome)
    ensures IsSafeMethod(req.verb) ==> r == Next
    ensures !IsSafeMethod(req.verb) ==>
      (r.Next? <==> sessionToken.Some? && |sessionToken.value| > 0 && SubmittedCsrf(req) == Some(JStr(sessionToken.value)))
    ensures r.Halt? ==> r.reply == Reply(403, CsrfInvalid)
  {
    if IsSafeMethod(req.verb) then Next
    else
      var token := SubmittedCsrf(req);
      if token.None? || !Http.Truthy(token.value) || sessionToken.None? || |sessionToken.value| == 0
         || token.value != JStr(sessionToken.value)
      then Halt(Reply(403, CsrfInvalid))
      else Next
  }

  /** Without a token in the session every state-changing request is refused;
      a non-empty header token is compared and the body's `_csrf` ignored. */
  lemma CsrfHeaderDecides(req: Request, session: string, bodyToken: Json)
    requires !IsSafeMethod(req.verb)
    requires "x-csrf-token" in req.headers && |req.headers["x-csrf-token"]| > 0
    ensures CsrfProtection(req, None) == Halt(Reply(403, CsrfInvalid))
    ensures CsrfProtection(req.(body := req.body["_csrf" := bodyToken]), Some(session)).Next?
            <==> req.headers["x-csrf-token"] == session
  {
  }

  // ---------------------------------------------------------------------
  // validateInput

  datatype Gate = Pass(body: map<string, Json>) | Fail(reply: Reply, errors: seq<Violation>)

  /** `validateInput(schema)`: 400 with one entry per violation, or the
      validated body in place of the original. */
  function ValidateInput(schema: Schema, body: map<string, Json>, f: Formats): (r: Gate)
    ensures r.Fail? <==> Violations(schema, body, f) != []
    ensures r.Fail? ==> r.reply == Reply(400, InvalidInput) && r.errors == Violations(schema, body, f)
    ensures r.Pass? ==> r.body == Output(schema, body)
    ensures r.Pass? ==> forall key :: key in r.body ==> Declares(schema, key)
  {
    match Validate(schema, body, f)
    case Refused(errs) => Fail(Reply(400, InvalidInput), errs)
    case Accepted(v) => Pass(v)
  }

  /** A gate that lets a body through passes each declared field as sent. */
  lemma GateKeepsField(schema: Schema, body: map<string, Json>, f: Formats, k: int)
    requires ValidateInput(schema, body, f).Pass?
    requires 0 <= k < |schema| && schema[k].name in body
    ensures var v := ValidateInput(schema, body, f).body;
      schema[k].name in v && v[schema[k].name] == body[schema[k].name]
  {
    assert Declares(schema, schema[k].name);
  }

  /** A gate that lets a body through passes a field without a default
      exactly as sent, or leaves it out when it was not sent. */
  lemma GateKeepsOptional(schema: Schema, body: map<string, Json>, f: Formats, k: int)
    requires ValidateInput(schema, body, f).Pass? && DistinctNames(schema)
    requires 0 <= k < |schema| && DefaultOf(schema[k].rule).None?
    ensures var v := ValidateInput(schema, body, f).body;
      && (schema[k].name in v <==> schema[k].name in body)
      && (schema[k].name in v ==> v[schema[k].name] == body[schema[k].name])
  {
    assert Declares(schema, schema[k].name);
  }

  /** The login gate lets through exactly the bodies with a formatted email
      and a non-empty password. */
  lemma LoginGateMeaning(body: map<string, Json>, f: Formats)
    ensures ValidateInput(LoginSchema, body, f).Pass? <==> LoginOk(body, f)
  {
    LoginSchemaMeaning(body, f);
  }

  // ---------------------------------------------------------------------
  // checkLoginAttempts and logLoginAttempt

  const DefaultMaxAttempts: int := 5
  const ThrottleWindow: int := 15 * Minute
  const AttemptRetention: int := 30 * Day

  /** `parseInt(process.env.MAX_LOGIN_ATTEMPTS) || 5`. */
  function MaxAttempts(env: Option<string>): (n: int)
    ensures n != 0
    ensures env.None? ==> n == DefaultMaxAttempts
    ensures env.Some? && ParseInt(env.value).Some? && ParseInt(env.value).value != 0 ==> n == ParseInt(env.value).value
    ensures env.Some? && (ParseInt(env.value).None? || ParseInt(env.value) == Some(0)) ==> n == DefaultMaxAttempts
  {
    if env.None? then DefaultMaxAttempts
    else match ParseInt(env.value)
      case None => DefaultMaxAttempts
      case Some(v) => if v == 0 then DefaultMaxAttempts else v
  }

  /** A failed attempt by this email or from this address within the last
      fifteen minutes. An email that is not a string matches no row. */
  predicate FailedRecently(a: LoginAttempt, email: Option<string>, ip: string, now: int)
  {
    !a.success && (Some(a.email) == email || a.ip == ip) && a.attemptedAt > now - ThrottleWindow
  }

  function RecentFailures(attempts: seq<LoginAttempt>, email: Option<string>, ip: string, now: int): nat
  {
    CountWhere(attempts, (a: LoginAttempt) => FailedRecently(a, email, ip, now))
  }

  /** `checkLoginAttempts`; `dbFails` stands for the count query throwing, in
      which case the request goes on. */
  function CheckLoginAttempts(attempts: seq<LoginAttempt>, email: Option<string>, ip: string, now: int,
                              env: Option<string>, dbFails: bool): (r: Outcome)
    ensures r.Halt? <==> !dbFails && RecentFailures(attempts, email, ip, now) >= MaxAttempts(env)
    ensures r.Halt? ==> r.reply == Reply(429, TooManyLoginAttempts)
  {
    if dbFails then Next
    else if RecentFailures(attempts, email, ip, now) >= MaxAttempts(env) then Halt(Reply(429, TooManyLoginAttempts))
    else Next
  }

  /** Successful attempts and attempts older than the window never count. */
  lemma ThrottleIgnoresSuccessAndAge(attempts: seq<LoginAttempt>, a: LoginAttempt, email: Option<string>, ip: string, now: int)
    requires a.success || a.attemptedAt <= now - ThrottleWindow
    ensures RecentFailures(attempts + [a], email, ip, now) == RecentFailures(attempts, email, ip, now)
  {
    CountWhereAppend(attempts, [a], (x: LoginAttempt) => FailedRecently(x, email, ip, now));
  }

  /** A negative maximum is kept as configured, so every login is refused
      while the store answers. */
  lemma NegativeMaximumBlocksAll(attempts: seq<LoginAttempt>, email: Option<string>, ip: string, now: int, env: string)
    requires ParseInt(env).Some? && ParseInt(env).value < 0
    ensures CheckLoginAttempts(attempts, email, ip, now, Some(env), false) == Halt(Reply(429, TooManyLoginAttempts))
  {
  }

  /** Which of the two statements of `logLoginAttempt` throws, if any; the
      error is swallowed either way. */
  datatype LogFault = NoFault | InsertFails | PruneFails

  predicate Retained(a: LoginAttempt, now: int)
  {
    !(a.attemptedAt < now - AttemptRetention)
  }

  /** `logLoginAttempt`: insert one row stamped `now`, then delete the rows
      older than thirty days. */
  function LogLoginAttempt(attempts: seq<LoginAttempt>, email: string, ip: string, success: bool,
                           reason: Option<FailReason>, now: int, fault: LogFault): (r: seq<LoginAttempt>)
    ensures fault == InsertFails ==> r == attempts
    ensures fault == PruneFails ==> r == attempts + [LoginAttempt(email, ip, success, reason, now)]
    ensures fault == NoFault ==>
      && LoginAttempt(email, ip, success, reason, now) in r
      && (forall a :: a in r ==> Retained(a, now))
      && (forall a :: a in attempts && Retained(a, now) ==> a in r)
      && IsSubsequence(r, attempts + [LoginAttempt(email, ip, success, reason, now)])
  {
    if fault == InsertFails then attempts
    else
      var inserted := attempts + [LoginAttempt(email, ip, success, reason, now)];
      if fault == PruneFails then inserted
      else
        FilterIsSubsequence(inserted, (a: LoginAttempt) => Retained(a, now));
        Filter(inserted, (a: LoginAttempt) => Retained(a, now))
  }

  /** A logged failure counts against the next login within the window: the
      pruning never reaches rows the throttle looks at. */
  lemma LoggedFailureCounts(attempts: seq<LoginAttempt>, email: string, ip: string, reason: FailReason, now: int)
    ensures RecentFailures(LogLoginAttempt(attempts, email, ip, false, Some(reason), now, NoFault), Some(email), ip, now)
         == RecentFailures(attempts, Some(email), ip, now) + 1
  {
    var row := LoginAttempt(email, ip, false, Some(reason), now);
    var p := (a: LoginAttempt) => FailedRecently(a, Some(email), ip, now);
    var keep := (a: LoginAttempt) => Retained(a, now);
    CountWhereFilter(attempts + [row], keep, p);
    CountWhereAppend(attempts, [row], p);
  }

  // ---------------------------------------------------------------------
  // validateFileUpload

  datatype UploadedFile = UploadedFile(originalName: string, mimeType: string, size: int)

  /** The list the default setting `'image/jpeg,image/png'` splits into. */
  const DefaultAllowedTypes: seq<string> := ["image/jpeg", "image/png"]
  const DefaultMaxFileSize: int := 5 * 1024 * 1024

  /** `(process.env.ALLOWED_FILE_TYPES || 'image/jpeg,image/png').split(',')`. */
  function AllowedTypes(env: Option<string>): seq<string>
  {
    if env.Some? && |env.value| > 0 then Split(env.value, ',') else DefaultAllowedTypes
  }

  /** `parseInt(process.env.MAX_FILE_SIZE) || 5 * 1024 * 1024`. */
  function MaxFileSize(env: Option<string>): (n: int)
    ensures n != 0
    ensures env.None? ==> n == DefaultMaxFileSize
    ensures env.Some? && ParseInt(env.value).Some? && ParseInt(env.value).value != 0 ==> n == ParseInt(env.value).value
    ensures env.Some? && (ParseInt(env.value).None? || ParseInt(env.value) == Some(0)) ==> n == DefaultMaxFileSize
  {
    if env.None? then DefaultMaxFileSize
    else match ParseInt(env.value)
      case None => DefaultMaxFileSize
      case Some(v) => if v == 0 then DefaultMaxFileSize else v
  }

  /** The three checks on one file, in order: type, size, name. */
  function FileProblem(file: UploadedFile, allowed: seq<string>, maxSize: int): (r: Option<Reply>)
    ensures r.None? <==>
      file.mimeType in allowed && file.size <= maxSize
      && !Includes(file.originalName, "..") && '/' !in file.originalName && '\\' !in file.originalName
    ensures file.mimeType !in allowed ==> r == Some(Reply(400, FileTypeNotAllowed(file.mimeType)))
    ensures file.mimeType in allowed && file.size > maxSize ==> r == Some(Reply(400, FileTooLarge(maxSize)))
    ensures r.Some? ==> r.value.status == 400
  {
    IncludesChar(file.originalName, '/');
    IncludesChar(file.originalName, '\\');
    if file.mimeType !in allowed then Some(Reply(400, FileTypeNotAllowed(file.mimeType)))
    else if file.size > maxSize then Some(Reply(400, FileTooLarge(maxSize)))
    else if Includes(file.originalName, "..") || Includes(file.originalName, "/") || Includes(file.originalName, "\\")
    then Some(Reply(400, InvalidFilename))
    else None
  }

  /** `validateFileUpload`: `files` is `req.files`, `file` is `req.file`. The
      first failing file decides the answer. */
  function ValidateFileUpload(file: Option<UploadedFile>, files: Option<seq<UploadedFile>>,
                              typesEnv: Option<string>, sizeEnv: Option<string>): (r: Outcome)
    ensures file.None? && files.None? ==> r == Next
    ensures var batch := if files.Some? then files.value else if file.Some? then [file.value] else [];
      && (r.Next? <==> forall k :: 0 <= k < |batch| ==> FileProblem(batch[k], AllowedTypes(typesEnv), MaxFileSize(sizeEnv)).None?)
      && (r.Halt? ==>
            exists k :: && 0 <= k < |batch|
                        && FileProblem(batch[k], AllowedTypes(typesEnv), MaxFileSize(sizeEnv)) == Some(r.reply)
                        && forall j :: 0 <= j < k ==> FileProblem(batch[j], AllowedTypes(typesEnv), MaxFileSize(sizeEnv)).None?)
  {
    if file.None? && files.None? then Next
    else
      var batch := if files.Some? then files.value else [file.value];
      var allowed := AllowedTypes(typesEnv);
      var maxSize := MaxFileSize(sizeEnv);
      match FirstIndex(batch, (x: UploadedFile) => FileProblem(x, allowed, maxSize).Some?)
      case None => Next
      case Some(k) => Halt(FileProblem(batch[k], allowed, maxSize).value)
  }

  /** A configured size limit decides: a file of an allowed type is refused
      for its size exactly when it is larger than the configured number. */
  lemma ConfiguredSizeLimit(file: UploadedFile, typesEnv: Option<string>, text: string)
    requires ParseInt(text).Some? && ParseInt(text).value != 0
    requires file.mimeType in AllowedTypes(typesEnv)
    ensures ValidateFileUpload(Some(file), None, typesEnv, Some(text))
         == Halt(Reply(400, FileTooLarge(ParseInt(text).value)))
        <==> file.size > ParseInt(text).value
  {
    var n := ParseInt(text).value;
    var allowed := AllowedTypes(typesEnv);
    assert MaxFileSize(Some(text)) == n;
    var p := FileProblem(file, allowed, n);
    var r := ValidateFileUpload(Some(file), None, typesEnv, Some(text));
    var batch := [file];
    assert batch[0] == file;
    if file.size > n {
      assert p == Some(Reply(400, FileTooLarge(n)));
      assert r.Halt?;
    } else if r.Halt? {
      assert p == Some(r.reply);
      assert p.value.message != FileTooLarge(n);
    }
  }

  lemma DefaultAllowedTypesSplit()
    ensures Split("image/jpeg,image/png", ',') == DefaultAllowedTypes
  {
    var parts := DefaultAllowedTypes;
    assert Join(parts, ',') == "image/jpeg,image/png" by {
      assert Join(parts[1..], ',') == "image/png";
    }
    SplitJoin(parts, ',');
  }

  /** Unless configured otherwise, a GIF upload is refused even though the
      upload filter accepts GIFs. */
  lemma DefaultTypesRefuseGif(name: string, size: int)
    ensures ValidateFileUpload(Some(UploadedFile(name, "image/gif", size)), None, None, None)
         == Halt(Reply(400, FileTypeNotAllowed("image/gif")))
  {
    var batch := [UploadedFile(name, "image/gif", size)];
    assert "image/gif" !in DefaultAllowedTypes by {
      assert "image/gif"[6] != "image/jpeg"[6] && "image/gif"[6] != "image/png"[6];
    }
    assert FileProblem(batch[0], DefaultAllowedTypes, DefaultMaxFileSize).Some?;
  }

  // ---------------------------------------------------------------------
  // ipWhitelist

  /** `ipWhitelist(whitelist)`: an empty list admits everyone. */
  function IpWhitelist(whitelist: seq<string>, ip: string): (r: Outcome)
    ensures r.Next? <==> |whitelist| == 0 || ip in whitelist
    ensures r.Halt? ==> r.reply == Reply(403, AccessDenied)
  {
    if |whitelist| > 0 && ip !in whitelist then Halt(Reply(403, AccessDenied)) else Next
  }

  /** Adding addresses to a non-empty list never refuses one it admitted,
      and a listed address is admitted wherever it stands in the list; but
      the empty list admits everyone, so giving it its first entry refuses
      every other address. */
  lemma WhitelistGrows(whitelist: seq<string>, more: seq<string>, ip: string, other: string)
    ensures |whitelist| > 0 && IpWhitelist(whitelist, ip).Next? ==> IpWhitelist(whitelist + more, ip).Next?
    ensures IpWhitelist(whitelist + [ip] + more, ip).Next?
    ensures IpWhitelist([], ip).Next?
    ensures other != ip ==> IpWhitelist([other], ip).Halt?
  {
    var listed := whitelist + [ip] + more;
    assert listed[|whitelist|] == ip;
    if |whitelist| > 0 && ip in whitelist {
      var k :| 0 <= k < |whitelist| && whitelist[k] == ip;
      assert (whitelist + more)[k] == ip;
    }
  }
}
