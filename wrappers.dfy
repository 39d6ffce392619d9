/** Option and Result: the shapes Ruby's nil and raised exceptions take in this model. */
module Wrappers {

  /** A value that Ruby may leave as nil. */
  datatype Option<+T> = None | Some(value: T)

  /** The value of an expression, or the exception that it raises. */
  datatype Result<+T, +E> = Success(value: T) | Failure(error: E)
}
