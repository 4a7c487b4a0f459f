/** Failure-carrying values shared by the other modules. */
module Wrappers {

  /** Python's `Optional[T]`: `None` or a present value. */
  datatype Option<+T> = None | Some(value: T)

  /** The value of a computation that either succeeds or raises. */
  datatype Result<+R, +E> = Success(value: R) | Failure(error: E)
}
