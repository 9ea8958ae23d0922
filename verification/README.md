# Marketplace request authorisation, modelled in Dafny

This project models the hardened back end of a used-goods marketplace.
It covers the path a request takes from the server's middleware to the
route handlers' effect on the store. It also models the front end's pure
state logic.

Every step is an immutable datatype and a pure function. A handler is a
transition on an in-memory store with four tables: users, sessions, login
attempts and products. The handler returns a status code and a JSON-like
message. Library calls become parameters or ideal functions:

- bcrypt hashes a password with a salt, and comparing recovers exactly the password it was made from;
- a JWT verifier maps a token to a user id, an expiry or a failure;
- uuid generation, random bytes and the database clock `NOW()` are inputs.

The modules follow the source:

- `Basics`, `Text`, `Http`, `Store`: shared vocabulary.
  - `Text` covers the JavaScript string operations the code uses: `indexOf`, `includes`, `split`, `trim`, `parseInt`, `toLowerCase`.
  - `Http` holds request, reply and outcome shapes.
  - `Store` holds the tables and the ideal bcrypt.
- `AuthMiddleware`: `authenticateToken`, `requireAdmin`, `requireSelf` and `optionalAuth`.
- `Security`:
  - `escapeHtml` and `sanitizeInput`;
  - the CSRF check;
  - the login throttle and the login-attempt log;
  - the upload checks and the IP allow-list;
  - `validateInput`.
- `Validation`: a small rule engine for the Joi schemas, and the eleven schemas. Each schema is paired with an independent predicate over a record.
- `AuthRoutes`: register, login, logout, `/me`, password change and the sweep of expired sessions.
- `ProductQuery`: building the listing and search SQL, with its bound parameters and pagination.
- `ProductRoutes`: detail, create, update and soft delete, with the UUID check and the owner-or-admin guard.
- `FileUpload`: `sanitizeFilename`, `fileFilter`, the `deleteFile` path guard and `handleUploadError`.
- `Server`: the order of the middleware, the 404 fallback and the global error handler.
- `Client`, `App`, `CartPage`, `Notifications`, `AddProduct`, `Home`: front-end state.
  - bearer headers;
  - the cart and its total;
  - notifications;
  - the image batch check;
  - the product search filter.

The route files sit under `Web/src/backend-secure/`. The middleware and
utilities they import sit under `Webserver/src/backend-secure/`. The model
treats them as one back end.

## Model

| member | source | states |
|---|---|---|
| Text.ParseIntDigits | Web/src/components/AddProduct.tsx:81 | `parseInt` reads a numeral of decimal digits as its own value |
| Text.TrimEmptyIff | Web/src/backend-secure/routes/products.js:138 | `q.trim().length === 0` holds exactly for text made only of white space |
| Text.JoinSplit | Webserver/src/backend-secure/middleware/auth.js:19 | splitting on a character and joining the parts back gives the original text |
| Text.SplitJoin | Webserver/src/backend-secure/middleware/auth.js:19 | parts free of the separator, joined and split again, come back as they were |
| Text.OrElse | Webserver/src/backend-secure/middleware/security.js:92 | `x \|\| y` on optional texts: the first non-empty one, otherwise none |
| Store.CompareAgreesWithHash | Web/src/backend-secure/routes/auth.js:126 | a password matches the hash made from it, and no other password does |
| AuthMiddleware.BearerToken | Webserver/src/backend-secure/middleware/auth.js:18-19 | the token is the second space-separated word of the `Authorization` header; it is never empty and never holds a space, and a header with no space yields none |
| AuthMiddleware.BearerTokenOfWord | Webserver/src/backend-secure/middleware/auth.js:19 | for a scheme and a token without spaces, `scheme + " " + token` yields exactly that token |
| AuthMiddleware.Authenticate | Webserver/src/backend-secure/middleware/auth.js:15-82 | a request is authorised iff a token is present, verifies, has a live session row (same token, same user, expiry after now), and names an existing, non-deleted, verified user; a missing token gives 401, an expired one 401, any other verification failure 403, no live session 401; rejections are only ever 401 or 403 |
| AuthMiddleware.UserChecksOrder | Webserver/src/backend-secure/middleware/auth.js:57-75 | once the session is live, a missing or deleted user gives 401 and only then an unverified user gives 403 |
| AuthMiddleware.RequireAdmin | Webserver/src/backend-secure/middleware/auth.js:95-103 | passes iff a user is present and is an admin; otherwise 403 |
| AuthMiddleware.AdminPassesSelf | Webserver/src/backend-secure/middleware/auth.js:95-120 | a user `requireAdmin` admits passes `requireSelf` for every target; a user it refuses still passes `requireSelf` on their own id |
| AuthMiddleware.RequireSelf | Webserver/src/backend-secure/middleware/auth.js:108-120 | passes iff the caller is an admin or the target id, the non-empty route parameter or else the body field, equals the caller's id; otherwise 403 |
| AuthMiddleware.RequireSelfPrefersParams | Webserver/src/backend-secure/middleware/auth.js:110-112 | a route parameter naming someone else refuses a non-admin even when the body names the caller |
| AuthMiddleware.OptionalAuth | Webserver/src/backend-secure/middleware/auth.js:125-148 | never rejects; attaches a user iff a token verifies and names a non-deleted user, and then that user |
| AuthMiddleware.OptionalAgreesWithStrict | Webserver/src/backend-secure/middleware/auth.js:125-148 | whenever strict authentication passes, optional authentication attaches the same user |
| AuthMiddleware.OptionalIgnoresSessionAndVerification | Webserver/src/backend-secure/middleware/auth.js:133-142 | with no session and an unverified user, optional authentication still attaches the user while strict authentication answers 401 |
| Security.EscapeHtmlAsWritten | Webserver/src/backend-secure/middleware/security.js:108-121 | the escaping map as written: the output is never shorter than the input and holds no `"`, `'` or `/` |
| Security.AsWrittenFixesQuoteFree | Webserver/src/backend-secure/middleware/security.js:111-120 | text without quotes or slashes comes back unchanged, `&`, `<` and `>` included |
| Security.EscapeAsWrittenIdempotent | Webserver/src/backend-secure/middleware/security.js:111-120 | escaping as written twice equals escaping once |
| Security.EscapeAsWrittenKeepsTags | Webserver/src/backend-secure/middleware/security.js:112-114 | a tag such as `<img src=x onerror=alert(1)>` passes through the map as written unchanged |
| Security.AsWrittenMergesEntities | Webserver/src/backend-secure/middleware/security.js:111-120 | the written table is not reversible: a quote and the text `&quot;` escape to the same string |
| Security.EscapeChar | Webserver/src/backend-secure/middleware/security.js:111-118 | the intended map: a markup character (`& < > " ' /`) becomes an entity starting with `&`, any other character stays itself |
| Security.EscapeHtml | Webserver/src/backend-secure/middleware/security.js:108-121 | the intended escaping: the output is never shorter and holds no markup character other than the `&` that starts an entity |
| Security.UnescapeStep | Webserver/src/backend-secure/middleware/security.js:111-118 | decoding the entity of one character, followed by anything, gives back that character first |
| Security.UnescapeEscape | Webserver/src/backend-secure/middleware/security.js:108-121 | the intended escaping loses nothing: decoding its output gives back the input |
| Security.EscapeAgreesOffMarkup | Webserver/src/backend-secure/middleware/security.js:111-120 | on text without `&`, `<` and `>` the map as written and the intended map agree |
| Security.EscapeValue | Webserver/src/backend-secure/middleware/security.js:108-133 | `escapeHtml` as `sanitizeInput` applies it to one value: non-strings are returned unchanged; a string stays a string, never gets shorter and comes out without `"`, `'` or `/`; `&`, `<` and `>` are not rewritten |
| Security.EscapeValueIdempotent | Webserver/src/backend-secure/middleware/security.js:108-121 | escaping a value twice is escaping it once |
| Security.SanitizeInput | Webserver/src/backend-secure/middleware/security.js:126-146 | every top-level string of body and query goes through the written table: it keeps its key, never gets shorter and holds no quote or slash afterwards; non-string values, the method, path, headers and address are unchanged (each value is escaped on its own, `escapeFields`) |
| Security.SanitizeIdempotent | Webserver/src/backend-secure/middleware/security.js:126-146 | sanitising a sanitised request changes nothing more |
| Security.SanitizeKeepsQuoteFree | Webserver/src/backend-secure/middleware/security.js:126-146 | a body string without quotes or slashes reaches the handlers as sent, tags and event handlers included |
| Security.CsrfProtection | Webserver/src/backend-secure/middleware/security.js:86-103 | GET, HEAD and OPTIONS always pass; any other method passes iff a session token exists and the submitted token, the non-empty `x-csrf-token` header or else `body._csrf`, equals it; otherwise 403 |
| Security.CsrfHeaderDecides | Webserver/src/backend-secure/middleware/security.js:92-95 | without a session token the request is refused; a header token equal to the session token passes whatever `_csrf` the body holds |
| Security.ValidateInput | Webserver/src/backend-secure/middleware/security.js:151-174 | fails iff the schema finds a violation, with 400 and one error entry per violation, where a value outside a valid set is reported and then also checked for its type and rules, as `abortEarly: false` does; otherwise the body becomes the validated value, holding declared fields only |
| Security.GateKeepsField | Webserver/src/backend-secure/middleware/security.js:153-171 | a passing gate keeps each sent declared field's value |
| Security.LoginGateMeaning | Webserver/src/backend-secure/middleware/security.js:151-174 | the login gate passes exactly the bodies the login record predicate accepts |
| Security.CheckLoginAttempts | Webserver/src/backend-secure/middleware/security.js:179-208 | answers 429 iff the database answered and the failed attempts in the last 15 minutes matching the email or the IP number at least the maximum, which is `MAX_LOGIN_ATTEMPTS` parsed or 5 when it is unset, not a number or 0; a database error passes the request on |
| Security.ThrottleIgnoresSuccessAndAge | Webserver/src/backend-secure/middleware/security.js:186-190 | a successful attempt, or one older than 15 minutes, never counts towards the limit |
| Security.NegativeMaximumBlocksAll | Webserver/src/backend-secure/middleware/security.js:194-196 | a negative configured maximum is taken as it parses and blocks every login, because `count >= max` always holds |
| Security.LogLoginAttempt | Webserver/src/backend-secure/middleware/security.js:213-228 | appends one record and then drops records older than 30 days; a failed insert changes nothing and a failed prune keeps the insert |
| Security.LoggedFailureCounts | Webserver/src/backend-secure/middleware/security.js:213-224 | a failure just logged counts towards the next check |
| Security.FileProblem | Webserver/src/backend-secure/middleware/security.js:243-267 | a file is checked for its MIME type, then its size, then a name without `..`, `/` or `\`; the first failure is a 400 |
| Security.ValidateFileUpload | Webserver/src/backend-secure/middleware/security.js:233-271 | with no file the request passes; otherwise it passes iff every file is clean, and the first failing file decides the 400 |
| Security.ConfiguredSizeLimit | Webserver/src/backend-secure/middleware/security.js:239-253 | with `MAX_FILE_SIZE` set to a non-zero number, a file of an allowed type is refused for its size exactly when it is larger than that number |
| Security.DefaultAllowedTypesSplit | Webserver/src/backend-secure/middleware/security.js:238 | the default list is JPEG and PNG only |
| Security.DefaultTypesRefuseGif | Webserver/src/backend-secure/middleware/security.js:238-250 | unless configured otherwise a GIF upload is refused, although the upload filter accepts GIFs |
| Security.IpWhitelist | Webserver/src/backend-secure/middleware/security.js:276-289 | an empty list lets everyone in; otherwise only listed addresses pass, others get 403 |
| Security.WhitelistGrows | Webserver/src/backend-secure/middleware/security.js:276-289 | adding addresses to a non-empty list never shuts out an admitted one; a listed address always passes; a one-entry list shuts out every other address |
| Validation.FirstLine | Webserver/src/backend-secure/middleware/validation.js:39 | the text a `.*` lookahead of the password pattern sees is the longest prefix free of line terminators |
| Validation.PasswordTailUnrestricted | Webserver/src/backend-secure/middleware/validation.js:36-46 | the password pattern has no end anchor: once a head qualifies, any tail (spaces, other symbols) is accepted; only the length bounds limit it |
| Validation.StrCheckErrors | Webserver/src/backend-secure/middleware/security.js:153-156 | with `abortEarly: false` a string field reports no error exactly when every one of its rules passes, and at most one error per rule |
| Validation.NumCheckErrors | Webserver/src/backend-secure/middleware/security.js:153-156 | the same for number fields (integer, min, max) |
| Validation.FieldErrors | Webserver/src/backend-secure/middleware/security.js:153-156 | one field's errors: an absent field reports only `any.required`, and only when required; a present field never does; a value outside the valid set is reported as such and then still checked for its type and rules; a number past ±(2^53 − 1) reports `number.unsafe` alone |
| Validation.OnlyThenBase | Webserver/src/backend-secure/middleware/security.js:153-156 | a number sent for a text field with a valid set gets two errors: outside the set, and not a text |
| Validation.Violations | Webserver/src/backend-secure/middleware/security.js:153-162 | the error list is empty exactly when every field of the schema is clean, and every reported field is one the schema declares |
| Validation.Output | Webserver/src/backend-secure/middleware/security.js:155 | `stripUnknown`: the validated body holds only declared keys, keeps every declared value the client sent, and fills an absent field with its default |
| Validation.Validate | Webserver/src/backend-secure/middleware/security.js:151-174 | a body is refused exactly when some field has an error, and then with all the errors, including the type and rule errors that follow an out-of-set report; an accepted body becomes the stripped value that replaces `req.body` |
| Validation.CleanFields | Webserver/src/backend-secure/middleware/security.js:153-162 | no violations exactly when every field is clean |
| Validation.RegisterSchemaMeaning | Webserver/src/backend-secure/middleware/validation.js:13-61 | a registration body passes exactly when email is a text of at most 255 that is an email, username 2-100 of Hangul/letters/digits/underscore, password 8-128 matching the strength pattern, phone empty/absent or of the `01x-xxxx-xxxx` shape, address at most 500 |
| Validation.LoginSchemaMeaning | Webserver/src/backend-secure/middleware/validation.js:66-80 | a login body passes exactly when it has an email and a non-empty password |
| Validation.ProductSchemaMeaning | Webserver/src/backend-secure/middleware/validation.js:85-151 | a product body passes exactly when title is 2-200, description 10-5000, price a whole number 0-999999999, category one of the eight, stock 1-9999 when given, location at most 100, is_negotiable a boolean and condition_status one of five, empty or null |
| Validation.ProductFields | Webserver/src/backend-secure/middleware/validation.js:85-151 | the same, field by field |
| Validation.ReviewSchemaMeaning | Webserver/src/backend-secure/middleware/validation.js:156-185 | a review passes exactly when product_id is a uuid, rating a whole number 1-5 and comment 10-1000 |
| Validation.InquirySchemaMeaning | Webserver/src/backend-secure/middleware/validation.js:190-226 | an inquiry passes exactly when email is an email, title 5-200, content 10-2000 and category one of the eight inquiry kinds |
| Validation.MessageSchemaMeaning | Webserver/src/backend-secure/middleware/validation.js:231-253 | a message passes exactly when chat_room_id is a uuid, content 1-1000 and message_type, when given, one of the four kinds |
| Validation.UpdateProfileSchemaMeaning | Webserver/src/backend-secure/middleware/validation.js:258-289 | a profile update passes exactly when a given username is 2-100 of the allowed characters, phone is empty/absent or well formed, and address and bio are at most 500 |
| Validation.ChangePasswordSchemaMeaning | Webserver/src/backend-secure/middleware/validation.js:294-320 | a password change passes exactly when the current password is non-empty, the new one is 8-128 and strong, and the confirmation equals the new one |
| Validation.PriceSuggestionSchemaMeaning | Webserver/src/backend-secure/middleware/validation.js:325-352 | a price suggestion passes exactly when product_id is a uuid, the price a whole number 0-999999999 and the message at most 500 |
| Validation.ReportSchemaMeaning | Webserver/src/backend-secure/middleware/validation.js:357-387 | a report passes exactly when each reported id is absent, null or a uuid, the reason one of five and the description 10-500 |
| Validation.SearchSchemaMeaning | Webserver/src/backend-secure/middleware/validation.js:392-428 | a search passes exactly when q is at most 200, category empty, null or one of the eight, price bounds null or whole numbers from 0 to 2^53 − 1, location at most 100, page a whole number from 1 to 2^53 − 1 and limit 1-100 |
| Validation.UnsafePageRefused | Webserver/src/backend-secure/middleware/validation.js:418-422 | a page of 2^53 is refused although it is a whole number from 1 |
| Validation.SearchFields | Webserver/src/backend-secure/middleware/validation.js:392-428 | the same, field by field |
| Validation.AbsentTakesDefault | Webserver/src/backend-secure/middleware/security.js:153-156 | an absent field of an accepted body is filled with its default, or left absent when it has none |
| Validation.SearchDefaults | Webserver/src/backend-secure/middleware/validation.js:418-427 | an empty search is accepted as page 1 with limit 20 and no other criterion |
| AuthRoutes.Register | Web/src/backend-secure/routes/auth.js:32-81 | a taken email (soft-deleted rows included) is refused with 400 first, then a taken username; the account is created, with 201 and its id, email and username, exactly when both are free; a refusal writes nothing |
| AuthRoutes.RegisterRoute | Web/src/backend-secure/routes/auth.js:27-30 | a body the register schema refuses is answered 400 with nothing written |
| AuthRoutes.RegisterGateKeeps | Webserver/src/backend-secure/middleware/security.js:151-174 | an accepted registration body reaches the handler with the client's own email, username and password |
| AuthRoutes.RegisterRouteAccepts | Web/src/backend-secure/routes/auth.js:27-81 | a body the schema accepts is handled by the register handler on its own values, absent phone or address becoming `null` |
| AuthRoutes.RegisterKeepsKeysUnique | Web/src/backend-secure/routes/auth.js:34-69 | registration never makes a second row with an email or id already present |
| AuthRoutes.ActiveUserByEmail | Web/src/backend-secure/routes/auth.js:108-111 | the lookup finds a row with that email that is not deleted, and finds none exactly when every such row is deleted |
| AuthRoutes.StampLoginFinds | Web/src/backend-secure/routes/auth.js:177-181 | stamping the login time keeps ids unique and the stamped row is the one found by id |
| AuthRoutes.Login | Web/src/backend-secure/routes/auth.js:105-195 | an unknown or deleted email and a wrong password are both answered 401 and logged with their reasons; success (200) happens exactly for an active user with the right password, and then adds a seven-day session for the token, stamps the user, logs the success and returns the user without the hash plus the token; a failure changes no user or session |
| AuthRoutes.LoginFailuresLookAlike | Web/src/backend-secure/routes/auth.js:113-135 | an unknown email and a wrong password get the identical reply; only the logged reason differs |
| AuthRoutes.LoginRoute | Web/src/backend-secure/routes/auth.js:97-100 | the attempt throttle runs before the schema gate, with the body's email when it is a text; a body without `email` binds `undefined`, so the throttle's query throws and passes on, and the schema answers 400; a throttled request gets the throttle's answer, a refused body 400 |
| AuthRoutes.LoginRouteAccepts | Web/src/backend-secure/routes/auth.js:97-108 | a body past both gates reaches the handler with its own email and password |
| AuthRoutes.ThrottleBeforePassword | Web/src/backend-secure/routes/auth.js:97-100 | once the failures counted for that email or address in the last fifteen minutes reach the configured maximum (five by default), even the right password gets 429 and nothing is written |
| AuthRoutes.LoginOpensSession | Web/src/backend-secure/routes/auth.js:154-181 | after a successful login the session for the token is live for the next seven days and the user's row carries the login time |
| AuthRoutes.AuthenticateKnownUser | Webserver/src/backend-secure/middleware/auth.js:15-82 | with a valid token, a live session and an active row, the middleware admits a verified user and refuses an unverified one with 403 |
| AuthRoutes.LoginThenAuthenticate | Web/src/backend-secure/routes/auth.js:138-145 | login no longer checks `is_verified`, but the middleware does: a fresh unverified account logs in yet gets 403 on every protected route |
| AuthRoutes.Logout | Web/src/backend-secure/routes/auth.js:212-221 | logout answers 200 and removes exactly the sessions with that token and user, keeping every other session in order and every other table |
| AuthRoutes.LogoutRoute | Web/src/backend-secure/routes/auth.js:210 | a request the token middleware refuses gets its answer and changes nothing; otherwise the logout handler runs for the caller's token |
| AuthRoutes.LogoutRevokes | Web/src/backend-secure/routes/auth.js:210-221 | after logout the same header is refused 401 for want of a session |
| AuthRoutes.LogoutKeepsOtherSessions | Web/src/backend-secure/routes/auth.js:212-216 | logout leaves the middleware's verdict on every other token unchanged |
| AuthRoutes.Me | Web/src/backend-secure/routes/auth.js:237-256 | the caller's row is looked up by id: 404 when missing, otherwise 200 with its selected columns and never the password hash; nothing is written |
| AuthRoutes.MeRoute | Web/src/backend-secure/routes/auth.js:236 | `/me` is behind the token middleware and writes nothing |
| AuthRoutes.MeFindsCaller | Web/src/backend-secure/routes/auth.js:236-256 | behind the middleware the 404 cannot happen: the caller's own profile comes back |
| AuthRoutes.ChangePassword | Web/src/backend-secure/routes/auth.js:275-316 | a missing row gives 404 and a wrong current password 401, both writing nothing; success (200) happens exactly when the current password matches, and then stores the new hash on that row alone and deletes every session of the user |
| AuthRoutes.ChangePasswordRoute | Web/src/backend-secure/routes/auth.js:270-273 | the token middleware runs first, then the schema gate (400), then the handler on the body's passwords |
| AuthRoutes.PasswordChangeRevokesAll | Web/src/backend-secure/routes/auth.js:300-316 | after a successful change no header of that user is accepted, and the new password matches the stored hash |
| AuthRoutes.CleanExpiredSessions | Web/src/backend-secure/routes/auth.js:333-339 | the sweep keeps exactly the sessions not yet expired, touches no other table, and a failing statement leaves everything as it was |
| AuthRoutes.CleanKeepsAuthentication | Web/src/backend-secure/routes/auth.js:333-342 | the sweep never changes the middleware's verdict at that moment or later |
| ProductQuery.LikeContains | Web/src/backend-secure/routes/products.js:76-77 | `LIKE '%x%'` matches exactly the values containing x |
| ProductQuery.HolesAppend | Web/src/backend-secure/routes/products.js:46-81 | appending text to a statement adds the placeholders of both parts |
| ProductQuery.SelectsAppend | Web/src/backend-secure/routes/products.js:46-81 | a statement built by appending clauses selects what every part selects, each part reading its own bound values |
| ProductQuery.ToQuery | Web/src/backend-secure/routes/products.js:60-78 | every filter clause appended carries one placeholder and pushes exactly its own value, in the same order |
| ProductQuery.ToQuerySelects | Web/src/backend-secure/routes/products.js:60-78 | a run of filter clauses selects exactly the rows every clause holds for |
| ProductQuery.ArgsOf | Web/src/backend-secure/routes/products.js:22-30 | a filter is on exactly when its query value is truthy: a non-empty category or location, a non-empty price text, a non-zero default; a price text is read with `parseInt` |
| ProductQuery.FiltersMeaning | Web/src/backend-secure/routes/products.js:60-78 | the clauses hold for a row exactly when its category matches, its price lies on the right side of each bound that is on (a NaN bound lets nothing through) and its location contains the text |
| ProductQuery.OrderBy | Web/src/backend-secure/routes/products.js:35-43 | the ORDER BY text is always one of the five texts of the table: the one for a listed sort key, newest first for anything else |
| ProductQuery.SortTextsHaveNoMarks | Web/src/backend-secure/routes/products.js:80 | no text of the sort table holds a placeholder, so splicing it in never shifts the bound values |
| ProductQuery.OrderByAsWritten | Web/src/backend-secure/routes/products.js:43 | the lookup as written also finds inherited members of a plain object and uses their text |
| ProductQuery.OrderByAsWrittenLeavesTable | Web/src/backend-secure/routes/products.js:43 | `sort=constructor` puts a text outside the table into the statement, where the intended lookup falls back to newest first |
| ProductQuery.StatementHoles | Web/src/backend-secure/routes/products.js:46-81 | the statement has exactly as many placeholders as bound values |
| ProductQuery.StatementSelects | Web/src/backend-secure/routes/products.js:46-81 | the assembled statement selects what its head, its filter clauses and its tail each select |
| ProductQuery.ListingArgs | Web/src/backend-secure/routes/products.js:22-30 | the listing's defaults: no lowest-price clause when minPrice is absent, a `<= 999999999` clause when maxPrice is absent, and sent values switched on exactly when non-empty |
| ProductQuery.ListingRequestOf | Web/src/backend-secure/routes/products.js:22-43 | an absent sort means newest first; a sent one is looked up as given |
| ProductQuery.ListingQuery | Web/src/backend-secure/routes/products.js:46-81 | the listing statement has as many placeholders as values, begins with the active-products join, ends with a table order followed by LIMIT and OFFSET, whose values are the last two bound |
| ProductQuery.Closed | Web/src/backend-secure/routes/products.js:46-81 | a statement closed by the paging clause keeps its head's values first and the paging values last |
| ProductQuery.ClosedSelects | Web/src/backend-secure/routes/products.js:46-81 | the closing ORDER BY and LIMIT clause does not change which rows are selected |
| ProductQuery.OrderByHasNoMarks | Web/src/backend-secure/routes/products.js:80-81 | the closing clause holds exactly the two paging placeholders |
| ProductQuery.CountQuery | Web/src/backend-secure/routes/products.js:86-104 | the count statement binds exactly the listing's filter values without the paging values |
| ProductQuery.ListingSelectsMeaning | Web/src/backend-secure/routes/products.js:46-81 | the listing selects exactly the active products with a seller row that the filters admit |
| ProductQuery.CountSelectsMeaning | Web/src/backend-secure/routes/products.js:86-104 | the count counts exactly the active products the filters admit, with or without a seller row |
| ProductQuery.CountAgreesWithListing | Web/src/backend-secure/routes/products.js:46-106 | for a product whose seller exists, the count and the listing agree |
| ProductQuery.CeilDiv | Web/src/backend-secure/routes/products.js:116 | `Math.ceil(a / b)` is the least whole number r with a <= r * b (for positive b) |
| ProductQuery.TotalPages | Web/src/backend-secure/routes/products.js:116 | the page count exists exactly when the limit parses and is not zero, and for a positive limit is the fewest pages that hold all rows |
| ProductQuery.ListProducts | Web/src/backend-secure/routes/products.js:20-125 | the listing answers 500 exactly when the parsed `limit` or the computed offset cannot be bound to LIMIT/OFFSET (NaN or negative); otherwise it answers with its two statements and a pagination block whose total is the number of rows the count statement selects and whose page count follows from it |
| ProductQuery.BadPagingFails | Web/src/backend-secure/routes/products.js:32 | `page=0` with a positive limit, or any negative limit, makes the listing answer 500 |
| ProductQuery.Unbindable | Web/src/backend-secure/routes/products.js:80-81 | a negative limit, or a page below 1 with a positive limit, gives a LIMIT/OFFSET pair the database refuses |
| ProductQuery.ListProductsCounts | Web/src/backend-secure/routes/products.js:86-106 | whenever the listing answers, its total is the number of active products the filters admit |
| ProductQuery.PagesCoverRows | Web/src/backend-secure/routes/products.js:32 | with a positive limit every counted row lies on one of the pages 1..totalPages, between that page's offset and the next |
| ProductQuery.SearchArgs | Web/src/backend-secure/routes/products.js:136 | the search has no defaults: an absent price bound yields no clause |
| ProductQuery.SearchStatement | Web/src/backend-secure/routes/products.js:146-184 | the raw text feeds the relevance score and the trimmed text, wrapped in `%`, the two LIKE patterns, ahead of the filter values |
| ProductQuery.SearchProducts | Web/src/backend-secure/routes/products.js:136-209 | a missing or blank `q` is refused with 400 before any statement is built; otherwise an unbindable limit or offset answers 500, and every other request issues the search statement |
| ProductQuery.SearchSelectsMeaning | Web/src/backend-secure/routes/products.js:149-183 | a search selects exactly the active products with a seller row whose title or description contains the trimmed text and that the filters admit |
| ProductRoutes.FormatUuidIsV4 | Web/src/backend-secure/routes/products.js:223 | any text of the form 8-4-(4)3-(8..b)3-12 hex digits passes the id check |
| ProductRoutes.UuidV4Groups | Web/src/backend-secure/routes/products.js:223 | every text passing the id check has exactly that form, in either letter case |
| ProductRoutes.IsUuidV4 | Web/src/backend-secure/routes/products.js:223 | the id pattern; its meaning is stated by `FormatUuidIsV4` and `UuidV4Groups` |
| ProductRoutes.UpdateWhere | Web/src/backend-secure/routes/products.js:263 | an `UPDATE ... WHERE id = ?` changes every row with that id and leaves every other row as it was |
| ProductRoutes.ProductDetail | Web/src/backend-secure/routes/products.js:218-281 | a malformed id is refused with 400 before the store is read; 200 comes exactly for a well-formed id of a product whose seller row exists (any status), otherwise 404 with nothing written; on 200 the row as read is shown with its seller's name and the view count of that id goes up by one |
| ProductRoutes.DetailCountsView | Web/src/backend-secure/routes/products.js:262-265 | viewing adds one view to the rows of that id and changes nothing else |
| ProductRoutes.DetailShowsRow | Web/src/backend-secure/routes/products.js:232-253 | with unique ids the detail of an existing product with a seller shows that very row |
| ProductRoutes.NewRow | Web/src/backend-secure/routes/products.js:317-322 | a new row has the fresh id, the caller as seller, the active status and no views |
| ProductRoutes.NewRowHoldsDraft | Web/src/backend-secure/routes/products.js:318-321 | a new row holds exactly the eight columns taken from the body |
| ProductRoutes.RewriteHoldsDraft | Web/src/backend-secure/routes/products.js:385-392 | the update statement sets the eight body columns and keeps id, seller, status and view count; rewriting a row with its own columns changes nothing |
| ProductRoutes.ProductOutput | Web/src/backend-secure/routes/products.js:298-310 | the validated product body holds each sent field as sent, and `stock` 1 when it was absent |
| ProductRoutes.ProductOutputFlag | Web/src/backend-secure/routes/products.js:298-310 | the validated product body holds `is_negotiable` as sent, or false when absent |
| ProductRoutes.OutputAt | Webserver/src/backend-secure/middleware/security.js:151-172 | one field of a validated body: as sent when present, its default (if any) when absent |
| ProductRoutes.DraftOfOutput | Web/src/backend-secure/routes/products.js:301-321 | the columns a valid body sets, in terms of the body as sent: title, description, price, category, stock (1 by default), location, negotiable flag (false by default) and condition; `location` and `condition_status` remain in the validated body exactly when they were sent |
| ProductRoutes.DraftOf | Web/src/backend-secure/routes/products.js:301-321 | the columns read from a body: title and stock as sent, and `location` and `condition_status` stored as sent, as text or NULL |
| ProductRoutes.NullableText | Web/src/backend-secure/routes/products.js:301-321 | a text or null body value is stored so that it reads back as the same JSON value |
| ProductRoutes.BindableOutput | Webserver/src/backend-secure/middleware/security.js:151-172 | validation keeps `location` and `condition_status` exactly when they were sent, since neither has a default |
| ProductRoutes.CreateProduct | Web/src/backend-secure/routes/products.js:301-346 | creation answers 201 exactly when the validated body holds `location` and `condition_status`, and then with the new id, appending exactly one row for the caller, active, unviewed, holding the body's columns; without them the insert binds `undefined`, throws, and the answer is 500 with nothing written |
| ProductRoutes.CreateRoute | Web/src/backend-secure/routes/products.js:296-346 | an unauthenticated request gets the middleware's answer; an authenticated one is created (201) exactly when the body passes the product schema and carries `location` and `condition_status`; a refused body gets 400 and a valid one without them 500, both writing nothing |
| ProductRoutes.CreateWithoutLocation | Web/src/backend-secure/routes/products.js:317-346 | a signed-in caller posting a valid body without `location` (title, description, price and category only) gets 500 and the store is unchanged |
| ProductRoutes.CreateRouteStores | Web/src/backend-secure/routes/products.js:296-339 | a created product belongs to the authenticated caller and holds the body's fields, with stock 1 and not negotiable unless the body says otherwise, and its location as sent |
| ProductRoutes.OwnerGuard | Web/src/backend-secure/routes/products.js:364-382 | an unknown id is answered 404; a known one passes exactly when the caller is its seller or an admin, and is otherwise refused 403 |
| ProductRoutes.UpdateProduct | Web/src/backend-secure/routes/products.js:360-404 | the update succeeds exactly when the owner check passes and the body carries `location` and `condition_status`, and then rewrites the body columns of the rows with that id; a refusal answers as the owner check does, a body without them gets 500, and neither writes anything |
| ProductRoutes.DeleteProduct | Web/src/backend-secure/routes/products.js:415-447 | the deletion succeeds exactly when the owner check passes, and then only marks the rows with that id deleted; a refusal writes nothing |
| ProductRoutes.UpdateAndDeleteAgree | Web/src/backend-secure/routes/products.js:364-404 | update and delete refuse the same callers with the same answers; an update succeeds exactly when the deletion would and its body carries `location` and `condition_status`, and is answered 500 otherwise |
| ProductRoutes.UpdateKeepsIdentity | Web/src/backend-secure/routes/products.js:385-392 | an update keeps each row's id, seller, status and view count, sets the body's columns on the rows with that id and leaves every other row alone |
| ProductRoutes.DeleteOnlyMarks | Web/src/backend-secure/routes/products.js:438-442 | a deletion changes only the status, and only of the rows with that id |
| ProductRoutes.DeletedStaysEditable | Web/src/backend-secure/routes/products.js:364-404 | the owner check ignores the status, so after a deletion the owner's update is answered as before (200 with both nullable fields sent, else 500) and a second deletion succeeds |
| ProductRoutes.DeleteKeepsGuard | Web/src/backend-secure/routes/products.js:364-382 | after a successful deletion the same caller still passes the owner check on that id |
| ProductRoutes.DeletedLeavesListing | Web/src/backend-secure/routes/products.js:54 | once deleted a product appears in no listing, yet its detail page still answers 200 |
| ProductRoutes.UpdateRoute | Web/src/backend-secure/routes/products.js:355-358 | the token middleware runs first, then the product schema (400), then the update handler on the validated body |
| ProductRoutes.DeleteRoute | Web/src/backend-secure/routes/products.js:413 | the token middleware runs first, then the delete handler |
| ProductRoutes.StrangerChangesNothing | Web/src/backend-secure/routes/products.js:376-382 | a caller who is neither seller nor admin changes nothing: deletion and a valid update get 403, an invalid update 400 |
| ProductRoutes.UpdateResetsStock | Web/src/backend-secure/routes/products.js:355-392 | an update whose body leaves out `stock` sets it back to 1, since the schema default fills it in |
| FileUpload.LastIndexOfChar | Webserver/src/backend-secure/utils/fileUpload.js:34 | the last occurrence of a character: absent exactly when the character is not in the text, and no later occurrence exists |
| FileUpload.Basename | Webserver/src/backend-secure/utils/fileUpload.js:34 | the base name is the separator-free tail of the path |
| FileUpload.ExtName | Webserver/src/backend-secure/utils/fileUpload.js:34 | `path.extname` is empty or a dot followed by no other dot, a tail of the name without a separator |
| FileUpload.ExtNameOf | Webserver/src/backend-secure/utils/fileUpload.js:34 | a name made of a stem and a dotted extension has exactly that extension |
| FileUpload.ExtNameNoDot | Webserver/src/backend-secure/utils/fileUpload.js:34 | a name without a dot has no extension |
| FileUpload.SafeChars | Webserver/src/backend-secure/utils/fileUpload.js:39 | each character outside `[a-zA-Z0-9가-힣_-]` becomes `_`, every other one is kept, and the length does not change |
| FileUpload.SafeStem | Webserver/src/backend-secure/utils/fileUpload.js:37-40 | the stored stem has at most 50 characters, all of them from the safe class |
| FileUpload.SanitizeFilename | Webserver/src/backend-secure/utils/fileUpload.js:32-46 | the stored name is bounded by the stem limit, the hash and the extension |
| FileUpload.SanitizeHasNoSeparator | Webserver/src/backend-secure/utils/fileUpload.js:32-46 | a stored name never holds a path separator, so it cannot climb out of the upload directory |
| FileUpload.SanitizeKeepsExtension | Webserver/src/backend-secure/utils/fileUpload.js:34-45 | the stored name's extension is the lower-cased extension of the client's name |
| FileUpload.CleanNameKept | Webserver/src/backend-secure/utils/fileUpload.js:32-46 | a short safe base with an allowed extension is stored as `base_hash.ext` |
| FileUpload.UpperCaseExtensionStays | Webserver/src/backend-secure/utils/fileUpload.js:34-40 | an upper-case extension is not removed from the stem, because `replace` looks for the lower-cased one: `a.JPG` is stored as `a_JPG_hash.jpg` |
| FileUpload.FileFilter | Webserver/src/backend-secure/utils/fileUpload.js:51-72 | a file is accepted exactly when its declared type is one of the five image types and its lower-cased extension one of the five allowed; the type is checked first, each refusal naming what failed |
| FileUpload.OnlyLastExtensionCounts | Webserver/src/backend-secure/utils/fileUpload.js:60-64 | only the last extension counts: `shell.php.jpg` passes and `shell.jpg.php` is refused |
| FileUpload.AcceptedFileStoredAsImage | Webserver/src/backend-secure/utils/fileUpload.js:51-101 | a file the filter accepts is stored under a separator-free name whose extension is an allowed one |
| FileUpload.ResolveCanonical | Webserver/src/backend-secure/utils/fileUpload.js:122-123 | `path.normalize` leaves no empty or `.` segment, and `..` only in a leading run of a relative path |
| FileUpload.Normalize | Webserver/src/backend-secure/utils/fileUpload.js:122-123 | `path.normalize` never gives an empty path, and starts with a separator exactly when the input does |
| FileUpload.Segments | Webserver/src/backend-secure/utils/fileUpload.js:122-123 | the segments of a normalised path are canonical |
| FileUpload.DeleteFileAsWritten | Webserver/src/backend-secure/utils/fileUpload.js:119-135 | as written, a deletion reports success only when the normalised path starts with the normalised directory as text, and then exactly when the unlink succeeds |
| FileUpload.DeleteGuardAsWritten | Webserver/src/backend-secure/utils/fileUpload.js:125 | the guard as written; `AsWrittenAdmitsSibling` shows it admits a sibling directory |
| FileUpload.AsWrittenAdmitsSibling | Webserver/src/backend-secure/utils/fileUpload.js:125 | the guard as written lets through a file in a sibling directory whose name extends the upload directory's, which lies outside it |
| FileUpload.DeleteFile | Webserver/src/backend-secure/utils/fileUpload.js:119-135 | the corrected deletion reports success only for a path under the directory followed by a separator, and then exactly when the unlink succeeds |
| FileUpload.DeleteGuardMeansInside | Webserver/src/backend-secure/utils/fileUpload.js:121-127 | the corrected guard admits only paths whose segments begin with the directory's, on the same side of the root, and that do not climb |
| FileUpload.DeleteGuard | Webserver/src/backend-secure/utils/fileUpload.js:121-127 | the corrected guard; `DeleteGuardMeansInside` and `InsideMeansGuard` state its meaning |
| FileUpload.InsideMeansGuard | Webserver/src/backend-secure/utils/fileUpload.js:121-127 | every path strictly inside the directory passes the corrected guard |
| FileUpload.DeleteGuardStricter | Webserver/src/backend-secure/utils/fileUpload.js:125 | the corrected guard only refuses what the written one admits, never the reverse |
| FileUpload.HandleUploadError | Webserver/src/backend-secure/utils/fileUpload.js:157-187 | control passes on exactly when there is no error; every error is a 400; whatever its detail, the size limit reports the configured maximum, the count limit its own message, and other multer errors their message; a filter error keeps its own message |
| FileUpload.FilterRefusalAnswered | Webserver/src/backend-secure/utils/fileUpload.js:51-72 | a file the filter refuses is answered 400 with the filter's own message |
| Server.StatusOf | Webserver/src/backend-secure/server.js:145 | `err.statusCode \|\| 500`: a missing or zero code becomes 500, any other is kept |
| Server.HandleError | Webserver/src/backend-secure/server.js:118-155 | a validation error is a 400 carrying its details, then an unauthorised error a 401, then a duplicate-key error a 409; any other error takes its own status, and in production only the generic message and no stack, elsewhere its message and its stack |
| Server.ProductionHidesInternals | Webserver/src/backend-secure/server.js:146-154 | in production two errors that differ only in message and stack get the same answer, and no stack is ever sent |
| Server.NamedKindsOverrideStatus | Webserver/src/backend-secure/server.js:122-145 | the named kinds decide the status whatever code the error carries; a generic error's non-zero code is its status |
| Server.Run | Webserver/src/backend-secure/server.js:40-115 | running the stage chain either stops at one of its stages or runs off its end |
| Server.Routes | Webserver/src/backend-secure/server.js:76-115 | the stages after sanitising end with the 404 fallback, hold neither the limiter nor a second sanitiser, and include the request log exactly outside production |
| Server.RunStage | Webserver/src/backend-secure/server.js:40-115 | only the sanitiser changes the request it passes on, the 404 fallback always answers, and a router is skipped for paths outside its mount |
| Server.RunSkips | Webserver/src/backend-secure/server.js:40-115 | stages that pass a request on unchanged are skipped: the chain answers as its remainder does |
| Server.RunKeepsRequest | Webserver/src/backend-secure/server.js:75-115 | without the sanitiser no stage changes the request a handler sees |
| Server.HandlersSeeSanitized | Webserver/src/backend-secure/server.js:69-115 | the rate limiter answers exactly the exhausted callers on `/api` paths; every other request is answered by a later stage, which sees the request after `sanitizeInput` (quotes and slashes rewritten, markup kept) |
| Server.RunNeverFallsOff | Webserver/src/backend-secure/server.js:110-115 | the 404 fallback is the last route, so the chain always answers |
| Server.LastStageAnswers | Webserver/src/backend-secure/server.js:110-115 | any chain ending in the 404 fallback answers by one of its stages |
| Server.ProductRequestsReachRouter | Webserver/src/backend-secure/server.js:69-118 | a request under `/api/products` within the rate limit is answered by the product router on the escaped request: its reply, the error handler's answer to what it raised, or 404 when it passes on |
| Server.ServeAfterLimit | Webserver/src/backend-secure/server.js:69-73 | within the rate limit, serving is running the routes on the escaped request |
| Server.UnclaimedIsNotFound | Webserver/src/backend-secure/server.js:76-115 | a request no earlier stage claims (no stored file, not the health check, outside both routers) is answered 404 |
| Client.BuildHeaders | Webserver/src/components/client.ts:3-18 | the headers hold the caller's keys, the content type and, with a non-empty stored token, the credential; the caller's values win over the JSON default, and the `Bearer` credential wins over a caller's own `Authorization` |
| Client.NoTokenNoCredential | Webserver/src/components/client.ts:10-17 | without a stored token no credential is invented: `Authorization` is sent only when the caller gave one, unchanged |
| Client.HeaderRoundTrip | Webserver/src/components/client.ts:13 | the back end's bearer parsing recovers exactly the token the front end put into the header |
| Client.SpacedTokenTruncated | Webserver/src/components/client.ts:13 | a token containing a space does not survive the trip: the back end reads only its first word |
| App.MapWhere | Webserver/src/App.tsx:87-91 | the mapped cart keeps its length, changes every line of the product and no other |
| App.AddToCart | Webserver/src/App.tsx:82-95 | a product already in the cart gets one more on its line, a new one is appended with quantity 1; either way it is then in the cart |
| App.AddKeepsUnique | Webserver/src/App.tsx:82-95 | adding keeps one line per product |
| App.AddCountsOne | Webserver/src/App.tsx:82-95 | adding raises the total quantity by one, while the header badge grows only for a product not yet in the cart |
| App.BadgeCount | Webserver/src/App.tsx:230 | the badge shows zero exactly when no product is in the cart |
| App.QuantitySum | Web/src/components/Cart.tsx:231 | when every line holds at least one piece, the piece count is at least the number of lines |
| App.SumAppend | Web/src/components/Cart.tsx:231 | the quantity sum of two carts joined is the sum of their sums |
| App.BumpSum | Webserver/src/App.tsx:87-91 | bumping the one line of a product adds one to the quantity sum |
| App.NoBumpSum | Webserver/src/App.tsx:87-91 | mapping over a product that is not in the cart changes nothing |
| App.UpdateLastWins | Webserver/src/App.tsx:161-165 | of two quantity changes to the same product only the second matters, and setting the quantity a product already has changes nothing |
| App.UpdateQuantity | Webserver/src/App.tsx:161-165 | the cart keeps its length and every line its product; that product's lines get the new quantity and the others keep theirs |
| App.RemoveDropsOnlyThat | Webserver/src/App.tsx:166-168 | removing drops every line of the product and keeps every other product, in order |
| App.RemoveItem | Webserver/src/App.tsx:166-168 | no line of the product remains, every line of another product is kept, and nothing new appears |
| App.RemoveUndoesAdd | Webserver/src/App.tsx:82-95 | removing a product undoes adding it |
| App.RemoveIgnoresChange | Webserver/src/App.tsx:161-168 | removing a product forgets any change made to its lines |
| App.RemoveAppended | Webserver/src/App.tsx:93 | removing a product forgets a line of it appended at the end |
| App.Logout | Webserver/src/App.tsx:70-80 | logging out clears the token and the user and shows the home page, whether or not the server call failed |
| App.LoggedOutSendsNoCredential | Webserver/src/App.tsx:70-80 | after logging out the result does not depend on the server call, and no request carries a credential the caller did not add |
| CartPage.TotalAppend | Web/src/components/Cart.tsx:50-56 | the total of two carts joined is the sum of their totals |
| CartPage.Total | Web/src/components/Cart.tsx:50-56 | a cart of products the catalogue does not know totals 0, and with prices and quantities not below zero the total is not either |
| CartPage.TotalIgnoresUnknown | Web/src/components/Cart.tsx:52-53 | lines of products the catalogue does not know add nothing: the total is that of the known lines alone |
| CartPage.TotalAfterAdd | Web/src/components/Cart.tsx:50-56 | adding a known product to a cart with one line per product raises the total by its price |
| CartPage.BumpTotal | Web/src/components/Cart.tsx:50-56 | one more piece on a product's only line raises the total by its price |
| CartPage.UpdateInRange | Webserver/src/App.tsx:161-165 | setting a product's lines to a quantity in 1..99 keeps every line in 1..99 |
| CartPage.Decrement | Web/src/components/Cart.tsx:160-166 | the minus button changes only the lines of that product and keeps a listed line within 1..99 |
| CartPage.Increment | Web/src/components/Cart.tsx:186-192 | the plus button changes only the lines of that product and keeps a listed line within 1..99 |
| CartPage.TypeQuantity | Web/src/components/Cart.tsx:173-178 | typed text changes only the lines of that product, and whatever is typed the cart stays within 1..99 |
| CartPage.ControlsKeepRange | Web/src/components/Cart.tsx:160-192 | neither button nor typed text can take a line out of 1..99 |
| CartPage.NonNumberIgnored | Web/src/components/Cart.tsx:173-178 | text that does not read as a number changes nothing |
| CartPage.AddIgnoresCap | Webserver/src/App.tsx:82-95 | the 99 cap is the cart page's alone: adding from a product page takes a line of 99 to 100 |
| CartPage.CheckOut | Web/src/components/Cart.tsx:58-90 | checkout asks for login exactly when no one is signed in, reports an empty cart exactly when signed in with no lines, and otherwise announces the cart's total |
| CartPage.CheckOutAfterAdd | Web/src/components/Cart.tsx:58-90 | adding one unit of any priced product, whether new or already in the cart, raises a signed-in checkout's total by exactly that price |
| CartPage.SummaryAtLeastBadge | Web/src/components/Cart.tsx:231 | within bounds the summary's piece count is at least the badge's line count, and equal exactly when every line holds one piece |
| Notifications.MarkAsRead | Webserver/src/components/Notifications.tsx:83-91 | marking read keeps the list's length and order, marks every entry with that id read and leaves the others as they were |
| Notifications.MarkAsReadIdempotent | Webserver/src/components/Notifications.tsx:83-91 | marking the same id read twice is marking it once |
| Notifications.MarkAsReadCount | Webserver/src/components/Notifications.tsx:83-116 | marking read lowers the unread count by exactly the unread entries with that id |
| Notifications.MarkAllClearsCount | Webserver/src/components/Notifications.tsx:93-116 | after marking all read the unread count is zero |
| Notifications.UnreadCount | Webserver/src/components/Notifications.tsx:116 | the unread count is at most the number of entries and is zero exactly when every entry is read |
| Notifications.UnreadCountCounts | Webserver/src/components/Notifications.tsx:116 | the unread count counts the unread entries and is zero exactly when all are read |
| Notifications.DeleteRemovesOnlyThat | Webserver/src/components/Notifications.tsx:100-105 | deleting removes every entry with the id and keeps the others in order |
| Notifications.Delete | Webserver/src/components/Notifications.tsx:100-105 | no entry with the id remains, every other entry is kept, and nothing new appears |
| Notifications.OnClick | Webserver/src/components/Notifications.tsx:107-114 | a click navigates exactly when the link is present and non-empty, and then to that link; a read entry leaves the list as it was |
| Notifications.ClickMarksRead | Webserver/src/components/Notifications.tsx:107-110 | with unique ids, clicking a listed entry leaves the list as marking it read would |
| AddProduct.ChooseImages | Web/src/components/AddProduct.tsx:32-63 | no file list changes nothing; a batch with an oversized file is refused for its size, exactly then; one refused for its type has no oversized file; an accepted batch is all acceptable and appended whole, and a refused one leaves the images as they were |
| AddProduct.ChosenStayAcceptable | Web/src/components/AddProduct.tsx:32-63 | a batch is taken whole or not at all, and the form's images stay acceptable |
| AddProduct.SizeCheckedFirst | Web/src/components/AddProduct.tsx:38-55 | a batch with both an oversized file and a non-image is refused for its size |
| AddProduct.RemoveAtSplices | Web/src/components/AddProduct.tsx:65-67 | removing cuts out exactly the image at the index; an index outside the list changes nothing |
| AddProduct.RemoveAt | Web/src/components/AddProduct.tsx:65-67 | removing at an index inside the list shortens it by one, outside it keeps its length, and no image appears that was not there |
| AddProduct.Submit | Web/src/components/AddProduct.tsx:69-85 | a missing field is reported exactly when one of the four is empty; otherwise the price is refused exactly when it does not read as a number or is negative, and a submitted price is the number read |
| AddProduct.DigitsPriceSubmitted | Web/src/components/AddProduct.tsx:74-85 | a complete form whose price is plain digits is submitted with the digits' value |
| Home.FilterMeaning | Webserver/src/components/Home.tsx:102-107 | a product is shown exactly when it matches both the search and the category, in the catalogue's order |
| Home.FilterProducts | Webserver/src/components/Home.tsx:102-107 | a product is shown exactly when it is in the catalogue and matches both the search and the category |
| Home.EmptySearchShowsAll | Webserver/src/components/Home.tsx:102-107 | an empty search over all categories shows the whole catalogue |
| Home.SearchIgnoresCase | Webserver/src/components/Home.tsx:103-104 | a query and its lower-case form show the same products |
| Home.CategoryNarrows | Webserver/src/components/Home.tsx:105 | choosing a category only narrows what the "all" choice shows, to products of that category |
## Left out

- Text: characters are Dafny characters (Unicode scalar values), not UTF-16 code units. Lengths differ from JavaScript's only for characters outside the Basic Multilingual Plane.
- Text.LowerChar: `toLowerCase` is modelled for ASCII letters only. Other letters are left as they are.
- Text.ParseInt: its own contract states only that empty text reads as NaN. The value of a plain decimal numeral is stated by `Text.ParseIntDigits`. No lemma characterises `parseInt` on every input.
- Store.ComparePassword: bcrypt is idealised as collision-free, so a password matches only the hash made from it. Cost factors, salt generation and timing are not modelled.
- JWT signing, the secret, the expiry claim and how `expiresIn` is computed: these are library internals. Verification is a parameter mapping a token to a verdict.
- uuid generation, `crypto.randomBytes` (the CSRF token and the filename hash) and the database clock `NOW()`: these are parameters.
- `db.js`, the connection pool and transactions: every handler's effect on the store is one atomic update. A database exception that the input decides is modelled: `mysql2` refuses to bind `undefined`, so a product create or update whose validated body lacks `location` or `condition_status` answers 500, and a login body without `email` makes the throttle's query throw and pass on. So does a listing or search whose parsed `limit` or computed offset is NaN or negative: the database refuses the LIMIT/OFFSET pair and the handler answers 500. Failures of the environment are modelled only where the model has an explicit fault flag: `checkLoginAttempts`, `logLoginAttempt` and the session sweep.
- Columns and tables the modelled code does not read or decide on are not modelled. These include `profile_image`, `rating`, `product_images`, and the `search_history` and `recently_viewed` inserts.
- ProductQuery: `MATCH ... AGAINST` relevance ordering, the row order ORDER BY produces, and which rows LIMIT/OFFSET pick are not modelled. The model states which rows a statement selects and what text and parameters it carries, not their order.
- ProductQuery: `LIKE` treats the `%` and `_` characters inside user text as wildcards. The model reads a LIKE pattern as plain containment of the text between the outer `%` signs.
- ProductQuery: query-string values are single strings. Express's arrays and nested objects for repeated or bracketed keys are not modelled.
- Text comparison in SQL: `=` on a text column is modelled as exact equality of the character sequences. MySQL's default `utf8mb4` collation ignores letter case and trailing spaces, so the program also matches rows whose text differs only in those. This affects AuthRoutes.EmailInUse, AuthRoutes.UsernameInUse, AuthRoutes.ActiveUserByEmail, Security.RecentFailures, ProductRoutes.ProductDetail and ProductRoutes.OwnerGuard. AuthRoutes.RegisterKeepsKeysUnique states uniqueness under exact equality only: after `A@x.com` has registered, the model accepts `a@x.com`, where the program refuses it as taken. `LIKE` ignores letter case under the same collation. The listing, count and search use it, together with `category = ?`; the ProductQuery lines below say what that leaves out.
- ProductQuery.LikeContains: a `LIKE` pattern is read as containment with exact letter case. Under the program's case-insensitive collation, `iPhone 14` matches `%iphone%`; in the model it does not.
- ProductQuery.FiltersMeaning: the `category = ?` filter and the `location LIKE ?` filter are exact-case in the model, while the program's collation ignores case, so the program admits rows such as category `Electronics` for `category=electronics` that the model leaves out.
- ProductQuery.ListingSelectsMeaning: "exactly the rows" holds for exact-case category equality and location containment. Under the program's collation, the listing also selects rows whose category or location differs from the query only in letter case.
- ProductQuery.CountSelectsMeaning: the count has the same exact-case gap as the listing, in category and location.
- ProductQuery.SearchSelectsMeaning: title and description containment, category equality and location containment are exact-case in the model. The program's collation ignores case, so `?q=iphone` finds an `iPhone 14` row in the program and nothing in the model.
- JSON numbers are modelled as exact reals, not IEEE doubles. Rounding, `Infinity` and the difference between `1` and `1.0` are not modelled.
- ProductQuery: a NaN price bound selects no row. MySQL would receive `NaN` bound as a value, and its comparison is not modelled further.
- ProductQuery.ListingQuery: the statement orders by the corrected sort lookup (`ProductQuery.OrderBy`, see Findings). With `sort=constructor`, `toString` or another inherited member, the program puts that member's text into ORDER BY and the statement fails; the model builds the ordinary `latest` statement.
- ProductQuery.ListProducts: for `sort=constructor` and the other inherited names the program answers 500, while the model answers with the `latest` listing. Bad paging values do answer 500 in the model as well.
- AuthRoutes.ThrottleEmail: an email that is not a text matches no attempt row. How MySQL compares a number or another JSON value with the text column is not modelled.
- ProductQuery.Filters: the order of the clauses (category, lowest price, highest price, location) is fixed by its definition. No lemma states membership and order of the clause list separately; `FiltersMeaning` states which rows the clauses admit.
- Validation: the schema library is reduced to the rules these schemas use. Its default conversions are left out: numeric strings to numbers, and the strings `"true"` and `"false"` to booleans for `Joi.boolean()`. So numbers and flags must arrive as JSON numbers and booleans. The error message texts are left out too. The email and GUID formats are parameters.
- Validation.Validate: a body that sends a number or a flag as a string, such as `is_negotiable: "true"`, is refused, where the schema library converts it and accepts the body.
- Security.ValidateInput: the same conversions are missing, so the same bodies are answered 400 where the program passes them on.
- Rate limiters (`express-rate-limit`), helmet, the security headers, CORS, cookie sessions, body parsing and compression: configuration of libraries. The general limiter appears only as a flag saying whether it answers 429.
- `generateCSRFToken` and where the session token is stored: only the comparison is modelled.
- `validateImageMetadata` always answers true in the source and is not modelled.
- multer's disk storage, dated upload directories, `fs.mkdir` and `fs.unlink`: file-system effects. The unlink result is a parameter of `FileUpload.DeleteFile`. multer's own enforcement of the size and count limits appears only through the error kinds it reports.
- FileUpload.ExtName: a name ending in a separator is handled like any other name. Node's `path.extname` strips trailing separators first.
- FileUpload.FileFilter: the MIME type is the one the client declares, as in the source. The file's contents are not inspected.
- Server: the `setInterval` scheduling of the session sweep, graceful shutdown, the `unhandledRejection` handler and the request log line are timers and I/O. The sweep itself is `AuthRoutes.CleanExpiredSessions`.
- Server: Express's routing details are not modelled. These include case-insensitive mount matching, trailing-slash tolerance, static-file serving beyond whether a file exists, and an `err.statusCode` that is not a valid HTTP status.
- Client.BuildHeaders: custom headers are a plain string map. The other `HeadersInit` forms, and merging header names that differ only in case, are not modelled.
- The front end's `fetch`, `localStorage`, `response.json` handling in `apiRequest`, alert texts, rendering, and the mock catalogue and notification data are I/O and presentation.
- Concurrency: the read-then-update of `view_count` and other races are not handled by the source and not modelled.
- The front-end components that hold only mock data or alert-based form checks are not modelled. These are ProductDetail, Chat, MyPage, Register, Login, ReportDialog, PriceSuggestion, Header, SellerProfile and CustomerService.

Behaviour the model makes visible without it being an error:

- `AuthRoutes.LoginThenAuthenticate`: login does not check that the account is verified, but `authenticateToken` does. A fresh account can log in and is refused on every authenticated route.
- `ProductRoutes.UpdateResetsStock`: the product schema's default for `stock` is applied on update too. An update that leaves stock out sets it back to 1.
- `ProductRoutes.DeletedStaysEditable`: the owner can still update a soft-deleted product, and its detail page still answers.
- `Security.DefaultTypesRefuseGif`: the default types of `validateFileUpload` are JPEG and PNG only, narrower than the upload filter's five.
- `Validation.PasswordTailUnrestricted`: the password pattern has no end anchor. Only the first character is held to the permitted character class.
- `FileUpload.UpperCaseExtensionStays`: an upper-case extension is not removed from the stem.
- `CartPage.AddIgnoresCap`: the cart page caps a quantity at 99, but adding the same product from a product page counts past it.
- `App.LoggedOutSendsNoCredential`: logging out clears the credential whether or not the server call fails.
- `ProductRoutes.CreateWithoutLocation`: the product schema gives `location` and `condition_status` no default, so a body that passes validation without them makes the insert fail and is answered 500. The same holds for an update.
- Search reads `limit` straight from the query without the search schema, so it has no upper bound.

## Findings

| source | as written | input that shows it | evidently intended | confidence | as-written member | corrected member |
|---|---|---|---|---|---|---|
| Webserver/src/backend-secure/middleware/security.js:108-121 | the escape map sends `&`, `<` and `>` to themselves, so only quotes and `/` are rewritten | `<img src=x onerror=alert(1)>` passes through `escapeHtml` unchanged | `&` to `&amp;`, `<` to `&lt;`, `>` to `&gt;`, which makes the escape reversible and free of markup | not executed | Security.EscapeAsWrittenKeepsTags | Security.UnescapeEscape |
| Web/src/backend-secure/routes/products.js:35-43 | `allowedSorts[sort]` also finds members inherited from `Object.prototype`, and they are truthy | `?sort=constructor` puts `function Object() { [native code] }` into ORDER BY | any key outside the five falls back to `latest` | not executed | ProductQuery.OrderByAsWrittenLeavesTable | ProductQuery.OrderBy |
| Webserver/src/backend-secure/utils/fileUpload.js:119-135 | the guard compares plain string prefixes, without a separator after the directory | `uploads-old/a.jpg` with the upload directory `./uploads` passes the guard | only paths inside the upload directory are deleted | not executed | FileUpload.AsWrittenAdmitsSibling | FileUpload.DeleteGuardMeansInside |

The request pipeline runs `escapeHtml` as written (`Security.EscapeValue`, `Security.SanitizeInput`), since that is what the handlers receive. The corrected table is stated beside it, with its round trip proved. The listing uses the corrected sort lookup, and the two `ProductQuery` lines under "Left out" name what that leaves out. `FileUpload.DeleteFile` uses the corrected guard, beside `FileUpload.DeleteFileAsWritten`.
