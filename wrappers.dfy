/** Option and Result values used throughout the model for Python's `None`
    and for exceptions that end an operation. */
module Wrappers {

  datatype Option<+T> = None | Some(value: T)

  datatype Result<+R, +E> = Success(value: R) | Failure(error: E)
}
