/** Optional values (Java `null`) and results of operations that may throw. */
module Wrappers {

  /** A possibly-null reference: `None` stands for Java's `null`. */
  datatype Option<+T> = None | Some(value: T)

  /** The value of an operation, or the exception it throws. */
  datatype Result<+T, +E> = Ok(value: T) | Err(error: E)
}
