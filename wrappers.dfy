/** Option and Result, for the values the parser may leave undefined and the
    inputs on which the original code throws. */
module Wrappers {
  datatype Option<+T> = None | Some(value: T)

  datatype Result<+T, +E> = Success(value: T) | Failure(error: E)
}
