/** Option and Result, the failure-compatible wrappers used across the model:
    `undefined`/`null` results become `None`, thrown errors become `Failure`. */
module Wrappers {

  datatype Option<+T> = None | Some(value: T) {
    function GetOr(default: T): T {
      match this
      case Some(v) => v
      case None => default
    }
  }

  datatype Result<+T, +E> = Success(value: T) | Failure(error: E)
}
