/** Option, Result and Outcome: the error paths that the Python code expresses with `None` and exceptions. */
module Wrappers {

  datatype Option<+T> = None | Some(value: T)

  /** A computed value or the exception that the Python code raises instead. */
  datatype Result<+T, +E> = Success(value: T) | Failure(error: E)

  /** The outcome of a step that returns nothing but may raise. */
  datatype Outcome<+E> = Pass | Fail(error: E)
}
