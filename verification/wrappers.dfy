/** Failure-compatible wrappers used across the model: an optional value
    (JavaScript's `undefined`/`null`) and a success-or-error result (a thrown
    exception). */
module Wrappers {

  datatype Option<+T> = None | Some(value: T)

  datatype Result<+R, +E> = Success(value: R) | Failure(error: E)
}
