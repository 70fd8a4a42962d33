/** Option and Result, the two wrappers the model uses for JavaScript's
    null/undefined and for a thrown exception. */
module Wrappers {

  /** A value that may be null or undefined in the source. */
  datatype Option<+T> = None | Some(value: T) {
    function GetOr(default: T): T {
      match this
      case Some(v) => v
      case None => default
    }
  }

  /** The outcome of a computation that may throw: `Err` carries the
      name of the error the JavaScript runtime would raise. */
  datatype Result<+T> = Ok(value: T) | Err(error: string)
}
