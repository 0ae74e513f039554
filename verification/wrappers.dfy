/** An optional value (a JavaScript property that may be `undefined`) and a
    success-or-error result (a Node-style `(err, value)` callback), used
    throughout the model. */
module Wrappers {

  datatype Option<+T> = None | Some(value: T) {

    /** The wrapped value, or `default` when there is none. */
    function GetOr(default: T): T {
      match this
      case Some(v) => v
      case None => default
    }
  }

  /** Outcome of an asynchronous call whose callback receives `(err, value)`. */
  datatype Result<+T, +E> = Success(value: T) | Failure(error: E)
}
