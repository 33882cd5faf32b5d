/** Option, Result and Outcome values used for the error returns of the migration engine. */
module Common {

  datatype Option<+T> = None | Some(value: T)

  /** A value or the error a call returned instead (Go's `(T, error)` pairs). */
  datatype Result<+T> = Ok(value: T) | Err(error: string)

  /** The outcome of a call that returns only a Go `error`: nil (Pass) or an error. */
  datatype Outcome = Pass | Fail(error: string)
}
