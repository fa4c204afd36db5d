/** Result shapes used by the handlers. */
module Wrappers {

  /** A value that may be absent: a decoded request body, a parsed number, a found position. */
  datatype Option<+T> = None | Some(value: T)

  /** A handler outcome that carries a value on success. */
  datatype Result<+R, +E> = Success(value: R) | Failure(error: E)

  /** A handler outcome that carries no value on success. */
  datatype Outcome<+E> = Pass | Fail(error: E)
}
