/** Failure-carrying wrappers used across the model: `Option` for JavaScript's
    `null`/`NaN` outcomes and `Result` for an action that either builds a record
    or throws a validation error. */
module Wrappers {

  datatype Option<+T> = None | Some(value: T)

  datatype Result<+R, +E> = Success(value: R) | Failure(error: E)
}
