/** Optional values and pass/fail outcomes used across the model. */
module Wrappers {

  /** A value that may be absent (Kotlin's nullable `T?`). */
  datatype Option<+T> = None | Some(value: T) {
    function GetOr(default: T): T {
      match this
      case Some(v) => v
      case None => default
    }
  }

  /** The outcome of an operation that may fail with a message (Kotlin's `error(...)`). */
  datatype Outcome = Pass | Fail(message: string)
}
