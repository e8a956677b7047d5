/** Option and Result values standing in for Java's nullable references and thrown exceptions. */
module Wrappers {

  /** A slot that is either empty (Java `null`) or holds a value. */
  datatype Option<+T> = None | Some(value: T)

  /** The outcome of an operation that either returns a value or fails with an error. */
  datatype Result<+R, +E> = Success(value: R) | Failure(error: E)
}
