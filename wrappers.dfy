/** Failure-carrying result types shared by every module of the model. */
module Wrappers {

  /** A value that may be missing: the model's stand-in for a C# null or a Python None. */
  datatype Option<+T> = None | Some(value: T)

  /** The value of an operation that either succeeds or raises an error of kind E. */
  datatype Result<+T, +E> = Ok(value: T) | Err(error: E)
}
