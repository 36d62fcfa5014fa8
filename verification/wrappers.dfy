/** Failure-compatible wrappers used throughout the model: `Option` for the
    source's `undefined`/`null`-or-value results and `Result` for the one
    place the source throws (the ANN input-size check). */
module Wrappers {

  datatype Option<+T> = None | Some(value: T) {

    /** The wrapped value, or `default` when there is none (the `??` operator). */
    function GetOr(default: T): T {
      match this
      case Some(v) => v
      case None => default
    }
  }

  datatype Result<+R, +E> = Success(value: R) | Failure(error: E)
}
