/** Option and Result, the failure-carrying datatypes used across the model. */
module Wrappers {

  /** A nullable reference: `None` plays the part of Java's `null`. */
  datatype Option<+T> = None | Some(value: T)

  /** The outcome of an operation that may throw. */
  datatype Result<+R, +E> = Success(value: R) | Failure(error: E)
}
