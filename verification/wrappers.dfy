/** Failure-compatible wrappers: JavaScript's `undefined`/`null` results become
    `None`, and thrown errors become `Failure`. */
module Wrappers {

  datatype Option<+T> = None | Some(value: T)

  datatype Result<+R, +E> = Success(value: R) | Failure(error: E)
}
