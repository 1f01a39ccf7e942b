/** Option and Result, the two failure-carrying shapes the colour model needs. */
module Wrappers {

  /** A slot that may or may not hold a value (an absent property of a JavaScript object). */
  datatype Option<+T> = None | Some(value: T)

  /** The outcome of an operation that either yields a value or raises an error. */
  datatype Result<+T, +E> = Success(value: T) | Failure(error: E)
}
