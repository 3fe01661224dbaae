/** Option and Result, the two wrapper types the model uses. */
module Wrappers {

  /** `None` stands for Go's nil; `Some(v)` for a present value. */
  datatype Option<+T> = None | Some(value: T)
  {
    /** The wrapped value, or `default` when there is none. */
    function GetOr(default: T): T
    {
      match this
      case Some(v) => v
      case None => default
    }
  }

  /** The outcome of an operation that can fail with an error value of type `E`. */
  datatype Result<+R, +E> = Success(value: R) | Failure(error: E)
}
