/** Optional cells and error-carrying results, used for missing data and HTTP errors. */
module Wrappers {

  /** A possibly missing value: pandas' NaN / None cell, or an optional query parameter. */
  datatype Option<+T> = None | Some(value: T)

  /** The outcome of an operation that can fail with an error value. */
  datatype Result<+R, +E> = Success(value: R) | Failure(error: E)
}
