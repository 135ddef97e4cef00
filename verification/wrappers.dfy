/** Failure-carrying result types shared by every module of the model. */
module Wrappers {

  /** A value that may be absent: pandas' NaN / <NA> is `None`. */
  datatype Option<+T> = None | Some(value: T)

  /** The outcome of an operation that may raise: `Err` carries the exception. */
  datatype Result<+T, +E> = Ok(value: T) | Err(error: E)
  datatype Outcome<+E> = Pass | Fail(error: E)
}
