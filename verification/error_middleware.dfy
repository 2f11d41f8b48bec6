/**
 * The central error middleware of the API: the operational `AppError`, the mapping from
 * a thrown error to an HTTP response, and the handler for unknown routes.
 */
module ErrorMiddleware {
  import opened Wrappers

  /** An error a handler throws on purpose, carrying its own HTTP status. */
  datatype AppError = AppError(message: string, statusCode: int, isOperational: bool)

  /** `new AppError(message, statusCode)`. */
  function NewAppError(message: string, statusCode: int): (e: AppError)
    ensures e.message == message && e.statusCode == statusCode
    ensures e.isOperational
  {
    AppError(message, statusCode, true)
  }

  /** What can reach the middleware. */
  datatype Error =
    | KnownRequestError(code: string, detail: string)  // the ORM's known request error, with its code
    | Operational(app: AppError)                        // an `AppError`
    | Unexpected(detail: string)                        // any other exception

  /** The JSON error body together with its status. `error` is absent (`undefined`) when None. */
  datatype ErrorResponse = ErrorResponse(status: int, success: bool, message: string, error: Option<string>)

  const UniqueViolation := "P2002"
  const RecordNotFound := "P2025"
  /** The ORM's code for a foreign-key failure; the middleware answers it with 500. */
  const ForeignKeyViolation := "P2003"

  /** The status chosen for an error. */
  function StatusCode(err: Error): (status: int)
    ensures err.KnownRequestError? && err.code == UniqueViolation ==> status == 409
    ensures err.KnownRequestError? && err.code == RecordNotFound ==> status == 404
    ensures err.Operational? ==> status == err.app.statusCode
    ensures err.Unexpected? ==> status == 500
    ensures err.KnownRequestError? && err.code != UniqueViolation && err.code != RecordNotFound ==> status == 500
  {
    match err
    case KnownRequestError(code, _) =>
      if code == UniqueViolation then 409 else if code == RecordNotFound then 404 else 500
    case Operational(app) => app.statusCode
    case Unexpected(_) => 500
  }

  /** `errorHandler`: every response is a failure; raw detail is shown only in development. */
  function ErrorHandler(err: Error, nodeEnv: string): (r: ErrorResponse)
    ensures r.status == StatusCode(err)
    ensures !r.success
    ensures err.Operational? ==> r.message == err.app.message && r.error.None?
    ensures err.KnownRequestError? && err.code == UniqueViolation ==>
      r.message == "Data sudah ada. Silakan gunakan data yang berbeda."
    ensures err.KnownRequestError? && err.code == RecordNotFound ==> r.message == "Data tidak ditemukan"
    ensures !err.Operational? && r.status == 500 ==> r.message == "Terjadi kesalahan pada server"
    ensures r.error.Some? <==> nodeEnv == "development" && !err.Operational?
    ensures r.error.Some? ==> r.error.value == err.detail
  {
    var detail := if nodeEnv == "development" && !err.Operational? then
      Some(match err case KnownRequestError(_, d) => d case Unexpected(d) => d case Operational(_) => "")
    else None;
    match err
    case KnownRequestError(code, _) =>
      if code == UniqueViolation then
        ErrorResponse(409, false, "Data sudah ada. Silakan gunakan data yang berbeda.", detail)
      else if code == RecordNotFound then
        ErrorResponse(404, false, "Data tidak ditemukan", detail)
      else
        ErrorResponse(500, false, "Terjadi kesalahan pada server", detail)
    case Operational(app) => ErrorResponse(app.statusCode, false, app.message, None)
    case Unexpected(_) => ErrorResponse(500, false, "Terjadi kesalahan pada server", detail)
  }

  /** `notFoundHandler`: 404 naming the requested URL. */
  function NotFoundHandler(originalUrl: string): (r: ErrorResponse)
    ensures r.status == 404 && !r.success && r.error.None?
    ensures |r.message| == |originalUrl| + 22
    ensures r.message[6..|r.message| - 16] == originalUrl
  {
    ErrorResponse(404, false, "Route " + originalUrl + " tidak ditemukan", None)
  }

  /** The outcome of a handler: a value, or the error it throws to the middleware. */
  datatype Outcome<T> = Ok(value: T) | Thrown(error: Error)

  /** `throw new AppError(message, statusCode)`. */
  function Throw<T>(message: string, statusCode: int): (o: Outcome<T>)
    ensures o.Thrown? && StatusCode(o.error) == statusCode
  {
    Thrown(Operational(NewAppError(message, statusCode)))
  }

  /** The handler failed and the middleware answers `status` with `message`. */
  predicate FailsWith<T>(o: Outcome<T>, status: int, message: string) {
    o.Thrown? && StatusCode(o.error) == status && ErrorHandler(o.error, "production").message == message
  }

  /** An update or delete of a row that is not there (P2025), as the middleware answers it. */
  function RowNotFound<T>(): (o: Outcome<T>)
    ensures FailsWith(o, 404, "Data tidak ditemukan")
  {
    Thrown(KnownRequestError(RecordNotFound, "Record to update not found."))
  }
}
