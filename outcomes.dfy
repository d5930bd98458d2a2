/** Failure-carrying values used in place of the script's exceptions. */
module Outcomes {

  datatype Option<+T> = None | Some(value: T) {
    /** `value if present else default`, as `dict.get(key, default)` answers. */
    function GetOr(default: T): T {
      match this
      case Some(v) => v
      case None => default
    }
  }

  /** The two conditions the core raises as `KeyError`. */
  datatype Error = NotEnoughThumbnails | NoSourceFound

  datatype Result<+T> = Success(value: T) | Failure(error: Error)
}
