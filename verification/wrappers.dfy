/** Option and Result, the failure-carrying values used throughout the model.
    A Python exception that the executor lets escape is an `Err` here. */
module Wrappers {

  datatype Option<+T> = None | Some(value: T) {
    function GetOr(default: T): T {
      match this
      case Some(v) => v
      case None => default
    }
  }

  datatype Result<+T> = Ok(value: T) | Err(error: string)
}
