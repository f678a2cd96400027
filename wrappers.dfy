/** Optional and fallible values shared by every module of the model. */
module Wrappers {

  /** Python's `None` versus a present value (a pandas NaN cell is `None` too). */
  datatype Option<+T> = None | Some(value: T)

  /** A step that either yields a value or raises. */
  datatype Result<+R, +E> = Success(value: R) | Failure(error: E)
}
