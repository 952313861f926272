/** Optional values and the results of operations that can throw. */
module Outcomes {

  /** A value that may be absent (a Java null). */
  datatype Option<+T> = None | Some(value: T)

  /** Either the value an operation returns or the exception it throws. */
  datatype Result<+T, +E> = Ok(value: T) | Err(error: E)
}
