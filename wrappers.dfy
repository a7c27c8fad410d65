/** Option and Result, used for the values a JavaScript call may throw instead of return. */
module Wrappers {

  datatype Option<+T> = None | Some(value: T)

  /** `Failure(error)` stands for a JavaScript exception thrown with the message `error`. */
  datatype Result<+R, +E> = Success(value: R) | Failure(error: E)
}
