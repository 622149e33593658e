/** Optional values, standing in for JavaScript's `undefined`/`null`, and the
    outcome of calls that may throw. */
module Wrappers {

  datatype Option<+T> = None | Some(value: T) {

    /** The value, or `default` when there is none (the `x ?? default` idiom). */
    function GetOr(default: T): T {
      match this
      case Some(v) => v
      case None => default
    }
  }

  /** The outcome of a call that may throw: a value, or the thrown error's message. */
  datatype Result<+T> = Success(value: T) | Failure(error: string)
}
