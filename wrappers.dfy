/** Option and Result values standing for Java's nullable references and thrown exceptions. */
module Wrappers {

  /** A nullable value: `None` is Java's `null`. */
  datatype Option<+T> = None | Some(value: T)

  /** The outcome of an operation that either returns a value or throws. */
  datatype Result<+T, +E> = Success(value: T) | Failure(error: E)

  /** The outcome of a check that returns normally or throws. */
  datatype Outcome<+E> = Pass | Fail(error: E)
}
