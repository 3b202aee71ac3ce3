/** The optional value and the success-or-error value used across the model. */
module Wrappers {

  /** A JavaScript value that may be `null` or `undefined`. */
  datatype Option<+T> = None | Some(value: T) {

    /** The value, or `default` when there is none (the `||` fallback of the source). */
    function GetOr(default: T): T {
      match this
      case Some(v) => v
      case None => default
    }
  }

  /** The outcome of a validation that either yields a value or a list of errors. */
  datatype Result<+T, +E> = Ok(value: T) | Err(error: E)
}
