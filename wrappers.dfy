/** Failure-carrying return values shared by every module of the model. */
module Wrappers {

  datatype Option<+T> = None | Some(value: T) {
    function GetOr(default: T): T {
      if Some? then value else default
    }
  }

  /** A JavaScript function that either returns a value or throws an Error with a message. */
  datatype Result<+T, +E> = Success(value: T) | Failure(error: E)
}
