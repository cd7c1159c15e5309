/** Option and Result, the failure-carrying values used throughout the model.
    `None` stands for Java's `null` and JavaScript's `undefined`; `Failure` for a
    thrown exception. */
module Wrappers {

  datatype Option<+T> = None | Some(value: T)

  datatype Result<+R, +E> = Success(value: R) | Failure(error: E)
}
