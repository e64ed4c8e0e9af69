/** Failure-compatible wrappers for the tool's absent values and raised errors. */
module Wrappers {

  /** A value that may be absent; Python's `None` is `None` here. */
  datatype Option<+T> = None | Some(value: T)

  /** A computed value, or the exception that computing it raises. */
  datatype Result<+T, +E> = Ok(value: T) | Err(error: E)

  /** An operation run only for its effect: it completes, or it raises. */
  datatype Outcome<+E> = Pass | Fail(error: E)
}
