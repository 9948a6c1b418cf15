/** The Option and Result types shared by every module of the model. */
module Wrappers {

  datatype Option<+T> = None | Some(value: T) {

    /** The wrapped value, or `default` when there is none. */
    function GetOr(default: T): T {
      match this
      case Some(v) => v
      case None => default
    }
  }

  /** The outcome of a service call or a validation: a value, or the error the source throws. */
  datatype Result<+R, +E> = Success(value: R) | Failure(error: E)
}
