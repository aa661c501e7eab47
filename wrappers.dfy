/** Option and Result values shared by the modules of the model. */
module Wrappers {

  /** A value that may be missing, as Python's `None` stands for a missing value. */
  datatype Option<+T> = None | Some(value: T)

  /** The outcome of an operation that either produces a value or stops with an error. */
  datatype Result<+T, +E> = Success(value: T) | Failure(error: E)
}
