/** Failure-carrying result types shared by the parsers. */
module Wrappers {

  /** A value that may be absent, such as the match object of a regular expression. */
  datatype Option<+T> = None | Some(value: T)

  /** A computed value, or the error that stopped the computation. */
  datatype Result<+R, +E> = Success(value: R) | Failure(error: E)
}
