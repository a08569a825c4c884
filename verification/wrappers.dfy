/** Failure-compatible wrappers shared by the whole model: `Option` stands for
    the source's optional fields, `undefined` and `null`; `Result` stands for a
    call that returns a value or throws an `Error`. */
module Wrappers {

  datatype Option<+T> = None | Some(value: T) {

    /** The wrapped value, or `default` when there is none. */
    function GetOr(default: T): T {
      match this
      case Some(v) => v
      case None => default
    }
  }

  datatype Result<+R, +E> = Success(value: R) | Failure(error: E)
}
