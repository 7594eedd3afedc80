/** Optional values and results with an error branch, shared by every module of the model. */
module Wrappers {

  /** Java's `null` / Python's `None` versus a present value. */
  datatype Option<+T> = None | Some(value: T)

  /** A value, or the exception the source would raise instead. */
  datatype Result<+T, +E> = Ok(value: T) | Err(error: E)
}
