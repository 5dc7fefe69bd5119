/** Option and Result, the failure-carrying values used across the bot's model. */
module Wrappers {

  /** A value that may be missing: a dictionary key that is absent, a lookup that finds nothing. */
  datatype Option<+T> = None | Some(value: T) {
    function GetOr(default: T): T {
      match this
      case Some(v) => v
      case None => default
    }
  }

  /** The outcome of a command handler: a value, or the refusal it replies with. */
  datatype Result<+R, +E> = Ok(value: R) | Err(error: E)
}
