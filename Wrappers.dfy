/** Failure-compatible wrappers used throughout the model: an optional value
    (a Python value that may be `None` or missing) and a result that is either
    a value or an error message (a raised `ValueError`). */
module Wrappers {

  datatype Option<+T> = None | Some(value: T)

  datatype Result<+T, +E> = Success(value: T) | Failure(error: E)
}
