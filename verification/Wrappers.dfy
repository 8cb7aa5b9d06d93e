/** Results that may be missing, and results of operations that may raise. */
module Wrappers {

  datatype Option<+T> = None | Some(value: T)

  /** The result of an operation that may raise an exception. */
  datatype Result<+T> = Ok(value: T) | Raises
}
