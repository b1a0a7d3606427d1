/** Errors and the two result shapes of the Go code: a bare `error`, or a value with an `error`. */
module Wrappers {

  /** Every error the modelled code can return, by where it comes from. */
  datatype Error =
    | NotBasicType                  // printLiteral: the value has no SQL literal
    | IndexNotFound(index: string)  // SQL.Update: the index key is not among the fields
    | ConnectionFailed              // the connection provider could not open a connection
    | Rejected(table: string)       // the database refused a statement on this table
    | NoRows                        // a single-row SELECT matched no row
    | InvalidAuthorization          // ParseAuthorization: not of the form `AuthType Token`
    | UnsupportedScheme             // CheckAuthorization: a scheme other than `Bearer`
    | InvalidSessionToken           // CheckAuthorization: the session's token does not match
    | SessionExpired                // CheckAuthorization: the session has expired
    | EmptyField(field: string)     // Users: a required request field is empty
    | Foreign(reason: string)       // an error raised by a package outside this model

  /** Go's `error` result: nil (Pass) or an error. */
  datatype Outcome = Pass | Fail(error: Error)

  /** Go's `(T, error)` result when the value is meaningless on error. */
  datatype Result<+T> = Ok(value: T) | Err(error: Error)

  datatype Option<+T> = None | Some(value: T)

  function ToOutcome<T>(r: Result<T>): (o: Outcome)
    ensures o.Pass? <==> r.Ok?
    ensures r.Err? ==> o == Fail(r.error)
  {
    match r
    case Ok(_) => Pass
    case Err(e) => Fail(e)
  }
}
