/** Failure-carrying values shared by every module of the model. Errors are
    the human-readable strings the back end hands to its caller. */
module Wrappers {

  datatype Option<+T> = None | Some(value: T) {
    function GetOr(default: T): T {
      match this
      case Some(v) => v
      case None => default
    }
  }

  /** `Result<T, String>` of the back end. */
  datatype Result<+T> = Ok(value: T) | Err(error: string)

  /** `Result<(), String>` of the back end. */
  datatype Outcome = Pass | Fail(error: string)
}
