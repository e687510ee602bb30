/** Option and Result, the failure-compatible wrappers the rest of the model uses
    for JavaScript's `null`/`undefined` and for rejected promises. */
module Wrappers {

  /** `None` stands for a missing value: `null` or `undefined` in the source. */
  datatype Option<+T> = None | Some(value: T) {

    /** The encapsulated value, or `default` when there is none. */
    function GetOr(default: T): T {
      match this
      case Some(v) => v
      case None => default
    }
  }

  /** The outcome of an operation that can throw: a value or an error. */
  datatype Result<+R, +E> = Success(value: R) | Failure(error: E)
}
