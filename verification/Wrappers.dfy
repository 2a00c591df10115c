/** Failure-aware results shared by the models. */
module Wrappers {

  /** A value that may be absent (Python's `None`). */
  datatype Option<+T> = None | Some(value: T) {
    function GetOr(default: T): T {
      match this
      case None => default
      case Some(v) => v
    }
  }

  /** A text that Python takes as true: there, and not empty. */
  predicate Present(text: Option<string>) {
    text.Some? && text.value != ""
  }

  /** The value an operation returns, or the error it raises instead. */
  datatype Result<+T, +E> = Ok(value: T) | Err(error: E)
}
