/** Option and Result, the failure-carrying types used throughout the model. */
module Wrappers {

  /** A value that may be absent: an optional request field, a lookup that may miss. */
  datatype Option<+T> = None | Some(value: T) {

    /** The carried value, or `default` when absent. */
    function GetOr(default: T): T {
      match this
      case Some(v) => v
      case None => default
    }
  }

  /** A validator's verdict: the (possibly normalised) value or an error message. */
  datatype Result<+T, +E> = Success(value: T) | Failure(error: E)
}
