/**
  The application's error type and its rendering as an HTTP response: a
  status code, a client-facing message and a "type" string (the error's
  Display text). Every variant carries the text of the error it wraps; for
  the variants that wrap a library error that text is the library's own
  description.
 */
module Errors {

  datatype AppError =
    | Database(msg: string)
    | Auth(msg: string)
    | Validation(msg: string)
    | Jwt(msg: string)
    | Json(msg: string)
    | Scheduler(msg: string)
    | Bcrypt(msg: string)
    | Config(msg: string)
    | Io(msg: string)
    | Migration(msg: string)
    | NotFound(msg: string)
    | Conflict(msg: string)
    | Internal(msg: string)
    | Anyhow(msg: string)
    | Reqwest(msg: string)
    | Multipart(msg: string)

  /** `AppResult<T>`. */
  datatype Result<+T> = Ok(value: T) | Err(error: AppError)

  /** What a call does when Rust code may panic: it returns normally, or it panics. */
  datatype Outcome<+T> = Returned(result: Result<T>) | Panicked

  /** The variants whose client-facing message is their own text. */
  predicate ExposesMessage(e: AppError) {
    e.Validation? || e.NotFound? || e.Conflict? || e.Internal?
  }

  /** The HTTP status of an error response. */
  function Status(e: AppError): (code: int)
    ensures code == 400 <==> e.Validation? || e.Multipart?
    ensures code == 401 <==> e.Auth? || e.Jwt?
    ensures code == 404 <==> e.NotFound?
    ensures code == 409 <==> e.Conflict?
    ensures code == 500 <==> !(e.Validation? || e.Multipart? || e.Auth? || e.Jwt? || e.NotFound? || e.Conflict?)
  {
    match e
    case Database(_) => 500
    case Auth(_) => 401
    case Validation(_) => 400
    case Jwt(_) => 401
    case Bcrypt(_) => 500
    case Config(_) => 500
    case Io(_) => 500
    case Migration(_) => 500
    case NotFound(_) => 404
    case Conflict(_) => 409
    case Internal(_) => 500
    case Anyhow(_) => 500
    case Reqwest(_) => 500
    case Multipart(_) => 400
    case Json(_) => 500
    case Scheduler(_) => 500
  }

  /** The "message" field of the error body. */
  function Message(e: AppError): (m: string)
    ensures ExposesMessage(e) ==> m == e.msg
  {
    match e
    case Database(_) => "Database error"
    case Auth(_) => "Authentication failed"
    case Validation(msg) => msg
    case Jwt(_) => "Invalid token"
    case Bcrypt(_) => "Password hashing error"
    case Config(_) => "Configuration error"
    case Io(_) => "IO error"
    case Migration(_) => "Migration error"
    case NotFound(msg) => msg
    case Conflict(msg) => msg
    case Internal(msg) => msg
    case Anyhow(_) => "Internal error"
    case Reqwest(_) => "HTTP request error"
    case Multipart(_) => "Multipart form error"
    case Json(_) => "JSON processing error"
    case Scheduler(_) => "Scheduler error"
  }

  /** The Display text of the error, used as the body's "type" field. */
  function Display(e: AppError): string {
    match e
    case Database(m) => "Database error: " + m
    case Auth(m) => "Authentication error: " + m
    case Validation(m) => "Validation error: " + m
    case Jwt(m) => "JWT error: " + m
    case Json(m) => "JSON error: " + m
    case Scheduler(m) => "Scheduler error: " + m
    case Bcrypt(m) => "Bcrypt error: " + m
    case Config(m) => "Configuration error: " + m
    case Io(m) => "IO error: " + m
    case Migration(m) => "Migration error: " + m
    case NotFound(m) => "Not found: " + m
    case Conflict(m) => "Conflict: " + m
    case Internal(_) => "Internal server error"
    case Anyhow(m) => "Anyhow error: " + m
    case Reqwest(m) => "HTTP request error: " + m
    case Multipart(m) => "Multipart error: " + m
  }

  /** The JSON body `{"error": {"message": …, "type": …}}` with its status. */
  datatype ErrorResponse = ErrorResponse(status: int, message: string, kind: string)

  function IntoResponse(e: AppError): (r: ErrorResponse)
    ensures r.status in {400, 401, 404, 409, 500} && r.status == Status(e)
    ensures ExposesMessage(e) ==> r.message == e.msg
    ensures r.kind == Display(e)
  {
    ErrorResponse(Status(e), Message(e), Display(e))
  }

  /**
    Errors that wrap another error never leak its text into "message": the
    response is the same whatever text the error carries. The status never
    depends on the text either, and an internal error's "type" is fixed.
   */
  lemma MessageIndependentOfPayload(e: AppError, other: string)
    ensures IntoResponse(e.(msg := other)).status == IntoResponse(e).status
    ensures !ExposesMessage(e) ==> IntoResponse(e.(msg := other)).message == IntoResponse(e).message
    ensures e.Internal? ==> IntoResponse(e.(msg := other)).kind == IntoResponse(e).kind == "Internal server error"
  {
  }
}
