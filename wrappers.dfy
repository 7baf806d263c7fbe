/** Optional values and success/failure results, standing in for the
    `null` returns and thrown errors of the data layer. */
module Wrappers {

  datatype Option<+T> = None | Some(value: T)

  datatype Result<+R, +E> = Success(value: R) | Failure(error: E)
}
