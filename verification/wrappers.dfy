/** Optional values and results with an error, for the places where the
    JavaScript source uses `undefined` or throws. */
module Wrappers {

  /** `None` stands for an absent value (`undefined`, or NaN for numbers). */
  datatype Option<+T> = None | Some(value: T) {
    function GetOr(default: T): T
    {
      match this
      case Some(v) => v
      case None => default
    }
  }

  /** `Failure` stands for an exception thrown before anything else happens. */
  datatype Result<+R, +E> = Success(value: R) | Failure(error: E)
}
