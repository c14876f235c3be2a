/** The optional-value and result wrappers shared by the other modules. */
module Wrappers {

  /** A value that may be absent: JavaScript's `undefined` or `NaN` is `None`. */
  datatype Option<+T> = None | Some(value: T) {

    /** The wrapped value, or `default` when there is none. */
    function GetOr(default: T): (r: T)
      ensures Some? ==> r == value
      ensures None? ==> r == default
    {
      match this
      case Some(v) => v
      case None => default
    }
  }

  /** Either a value or the error that prevented computing it. */
  datatype Result<+R, +E> = Success(value: R) | Failure(error: E)
}
