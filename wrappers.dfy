/** Option and Result, for the values the page keeps as `null`/`undefined` and for rejected saves. */
module Wrappers {

  datatype Option<+T> = None | Some(value: T)

  datatype Result<+T, +E> = Success(value: T) | Failure(error: E)
}
