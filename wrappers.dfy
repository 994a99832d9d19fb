/** Option and Result, the failure-carrying values used in place of the
    source's `(success, value_or_exception)` pairs. */
module Wrappers {

  datatype Option<+T> = None | Some(value: T)

  datatype Result<+R, +E> = Success(value: R) | Failure(error: E)
}
