/** What a request handler sees and answers: JSON values, the fixed messages
    the backend sends, and the two ways a middleware can finish (pass control
    on, or answer with a status code). */
module Http {

  /** A JSON value as Express hands it over after body parsing. Arrays and
      objects are not looked into by the modelled code and stay opaque. */
  datatype Json = JStr(s: string) | JNum(x: real) | JBool(b: bool) | JNull | JOther

  /** JavaScript truthiness of a JSON value. */
  predicate Truthy(v: Json)
  {
    match v
    case JStr(s) => |s| > 0
    case JNum(x) => x != 0.0
    case JBool(b) => b
    case JNull => false
    case JOther => true
  }

  /** A string field of a validated body (empty when the body has none). */
  function StrOf(b: map<string, Json>, k: string): (s: string)
    ensures k in b && b[k].JStr? ==> s == b[k].s
  {
    if k in b && b[k].JStr? then b[k].s else ""
  }

  /** The fixed response messages, named after what they say. */
  datatype Message =
    // auth middleware
    | TokenRequired | TokenExpired | TokenInvalid | SessionInvalid | UserNotFound
    | EmailNotVerified | AdminRequired | Forbidden
    // security middleware
    | CsrfInvalid | InvalidInput | TooManyLoginAttempts | FileTypeNotAllowed(mime: string)
    | FileTooLarge(maxBytes: int) | InvalidFilename | AccessDenied
    // auth routes
    | EmailTaken | UsernameTaken | Registered | BadCredentials | LoginSucceeded
    | LoggedOut | WrongCurrentPassword | PasswordChanged | ServerError
    // product routes
    | QueryRequired | InvalidProductId | ProductNotFound | ProductCreated
    | ProductUpdated | ProductDeleted
    // upload utilities
    | UploadTooLarge(maxBytes: int) | TooManyFiles | UploadFailed(detail: string)
    | FileExtensionNotAllowed(ext: string)
    | ErrorText(text: string)
    // server
    | RouteNotFound | AuthenticationRequired | DuplicateEntry | ServerRunning | TooManyRequests
    // a success answer whose body carries data and no message
    | NoMessage

  datatype Reply = Reply(status: nat, message: Message)

  /** The parts of an Express request the modelled code reads. Header names
      are lower-case, as Node delivers them; `ip` is `req.ip` (or the socket's
      remote address when that is unset). */
  datatype Request = Request(
    verb: string,
    path: string,
    headers: map<string, string>,
    body: map<string, Json>,
    query: map<string, Json>,
    ip: string)

  /** How a middleware ends: `next()` or a response. */
  datatype Outcome = Next | Halt(reply: Reply)
}
