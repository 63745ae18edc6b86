/** Failure-carrying wrappers shared by the model. */
module Wrappers {

  /** Python's `Optional[T]`: a value or `None`. */
  datatype Option<+T> = None | Some(value: T) {
    function GetOr(default: T): T {
      match this
      case Some(v) => v
      case None => default
    }
  }

  /** The result of a call that may raise: the value it returned, or the
      message (`str(e)`) of the exception it raised. */
  datatype Outcome<+T> = Returned(value: T) | Raised(message: string)
}
