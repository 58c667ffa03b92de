/** Option and Result: the absent value and the raised exception of the PHP code, as values. */
module Wrappers {

  /** `None` stands for PHP's `false` failure result (and for "no regex match"). */
  datatype Option<+T> = None | Some(value: T)

  /** `Failure` stands for an exception thrown to the caller. */
  datatype Result<+R, +E> = Success(value: R) | Failure(error: E)
}
