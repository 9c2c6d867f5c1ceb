/** Option and Result values shared by every module of the model. */
module Wrappers {

  /** A value that may be absent: JavaScript's null/undefined, Python's None. */
  datatype Option<+T> = None | Some(value: T) {
    function GetOr(default: T): T {
      match this
      case Some(v) => v
      case None => default
    }
  }

  /** The exceptions a Python routine of the model can raise. */
  datatype PyError = KeyError | ValueError | TypeError | AttributeError

  /** The outcome of a Python routine that either returns a value or raises. */
  datatype Result<+T> = Ok(value: T) | Raised(error: PyError)
}
