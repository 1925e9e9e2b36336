/** Option and Result, the shapes in which the model reports a missing value
    (Python's None) and a raised exception. */
module Wrappers {

  datatype Option<+T> = None | Some(value: T)

  datatype Result<+R, +E> = Success(value: R) | Failure(error: E)
}
