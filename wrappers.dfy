/** Option and Result, used for Java's nullable references and thrown exceptions. */
module Wrappers {

  /** A reference that may be null: None is Java's null. */
  datatype Option<+T> = None | Some(value: T)

  /** The outcome of a Java method that either returns a value or throws. */
  datatype Result<+R, +E> = Success(value: R) | Failure(error: E)
}
