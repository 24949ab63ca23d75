/** Failure-carrying datatypes used for the Python code's None results and raised exceptions. */
module Wrappers {

  /** A value that may be absent (Python's `None`). */
  datatype Option<+T> = None | Some(value: T) {
    function GetOr(default: T): T {
      match this
      case Some(v) => v
      case None => default
    }
  }

  /** A computation that either returns a value or raises an error. */
  datatype Result<+R, +E> = Ok(value: R) | Err(error: E)

  /** A computation with no return value that either completes or raises an error. */
  datatype Outcome<+E> = Pass | Fail(error: E)
}
