/** Option and Result: missing values (pandas NaN) and raised errors. */
module Wrappers {

  /** `None` stands for a missing value. */
  datatype Option<+T> = None | Some(value: T)

  /** `Failure` stands for an exception raised to the caller. */
  datatype Result<+R, +E> = Success(value: R) | Failure(error: E)
}
