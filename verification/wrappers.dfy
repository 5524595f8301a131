/** Option and Result types used throughout the model: `None` stands for
    Python's null reference, and `Failure` for an exception the source raises. */
module Wrappers {

  datatype Option<+T> = None | Some(value: T)

  datatype Result<+T, +E> = Success(value: T) | Failure(error: E)
}
