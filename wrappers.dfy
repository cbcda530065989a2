/** Optional values and results that carry either a value or an error. */
module Wrappers {

  /** Java's null reference, and a present value. */
  datatype Option<+T> = None | Some(value: T)

  /** A computation that returned a value or threw. */
  datatype Result<+T, +E> = Ok(value: T) | Err(error: E)
}
