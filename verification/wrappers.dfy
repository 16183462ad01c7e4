/** Failure-carrying result types shared by the model. */
module Wrappers {

  /** An optional value; `None` plays the role of Python's `None`. */
  datatype Option<+T> = None | Some(value: T)

  /** A computation that either succeeds with a value or fails with an error message. */
  datatype Result<+R> = Success(value: R) | Failure(error: string)
}
