/** Option and Result values used for the program's error paths. */
module Outcomes {

  datatype Option<+T> = None | Some(value: T)

  /** The value of a computation that either succeeds or raises. */
  datatype Result<+T, +E> = Ok(value: T) | Err(error: E)
}
