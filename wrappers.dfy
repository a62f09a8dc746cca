// Result shapes for the Go `(value, error)` and `error` returns of the model.
module Wrappers {

  /** A value the source may leave absent (a failed decode, a missing key). */
  datatype Option<+T> = None | Some(value: T)

  /** A `(value, error)` pair where exactly one side is meaningful. */
  datatype Result<+T> = Ok(value: T) | Err(message: string)

  /** A bare Go `error`: nil (`Pass`) or an error carrying its message. */
  datatype Outcome = Pass | Fail(message: string)
}
