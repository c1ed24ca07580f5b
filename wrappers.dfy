/** Failure-carrying return types standing in for Python's falsy returns and exceptions. */
module Wrappers {

  datatype Option<+T> = None | Some(value: T)

  datatype Result<+T, +E> = Ok(value: T) | Err(error: E)

  /** The Python exceptions the core raises on misuse. */
  datatype Exception = ValueError | IndexError | RuntimeError
}
