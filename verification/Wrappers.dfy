/** Optional values and results: the source's `None` and its raised errors. */
module Wrappers {

  datatype Option<+T> = None | Some(value: T) {
    function GetOr(default: T): T {
      if Some? then value else default
    }
  }

  /** `Failure` carries which of the source's errors is raised. */
  datatype Result<+R, +E> = Success(value: R) | Failure(error: E)
}
