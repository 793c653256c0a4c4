/** Option and Result, the two failure-carrying shapes the model uses. */
module Wrappers {

  datatype Option<+T> = None | Some(value: T)

  /** The outcome of a call that may throw: a value, or the thrown message. */
  datatype Result<+R> = Success(value: R) | Failure(error: string)
}
