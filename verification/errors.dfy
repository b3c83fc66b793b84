/**
 * The error values that cross the service boundary.
 *
 * `ServiceError` is the service's own error enum. `SqlxError` is a
 * driver-agnostic stand-in for the database client's error: a database error
 * carrying the server's message and optional detail, "no row returned", and
 * every other (non-database) client failure folded into one case. `Failure`
 * plays the part of the dynamically typed error the service returns, which is
 * either one of its own errors or a propagated driver error.
 */
module Errors {
  import opened Wrappers

  datatype ServiceError =
    | FailedToParse(url: string)
    | NotFound(id: string)
    | CannotShorten(url: string)
    | DbError(message: string)
    | RetryFailed
    | Unknown

  /** The detail line of a database error. Only the primary-key collision on a
      given key is distinguished; any other detail text is opaque. */
  datatype Detail = IdAlreadyExists(key: string) | OtherDetail(text: string)

  datatype DbFailure = DbFailure(message: string, detail: Option<Detail>)

  datatype SqlxError =
    | Database(failure: DbFailure)
    | RowNotFound
    | NonDatabase(message: string)

  datatype Failure = Service(error: ServiceError) | Sqlx(cause: SqlxError)

  /** A failure of one statement that does not come from the table's contents:
      the server rejecting it for another reason, or the connection failing. */
  datatype Fault = ServerFault(message: string) | ConnectionFault(message: string)

  /** The error a faulted statement reports: a server fault is a database
      error without detail, a connection fault is not a database error. */
  function FaultError(f: Fault): SqlxError
  {
    match f
    case ServerFault(m) => Database(DbFailure(m, None))
    case ConnectionFault(m) => NonDatabase(m)
  }
}
