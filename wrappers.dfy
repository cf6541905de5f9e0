/** Option and Result: the absent value (JavaScript's NaN from parseFloat) and the rejected form. */
module Wrappers {

  datatype Option<+T> = None | Some(value: T)

  datatype Result<+R, +E> = Success(value: R) | Failure(error: E)
}
