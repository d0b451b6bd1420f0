/** Failure-carrying datatypes shared by every module of the model. */
module Wrappers {

  /** A value that may be absent: `null`/`undefined` in TypeScript, `None` in Python. */
  datatype Option<+T> = None | Some(value: T) {
    function GetOr(default: T): T {
      match this
      case Some(v) => v
      case None => default
    }
  }

  /** An HTTP-style outcome: a success value or an error status with a message. */
  datatype Outcome<+R> = Ok(value: R) | Err(status: int, message: string)
}
