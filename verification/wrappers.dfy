/** Optional values and error-carrying results.

    The JavaScript sources read fields that may be `undefined`; every such
    field is an `Option` here, so each `||` / `??` fallback is an explicit
    case split. Operations that throw in the source return a `Result`. */
module Wrappers {

  datatype Option<+T> = None | Some(value: T) {
    /** The value, or `default` when absent (the `??` operator). */
    function GetOr(default: T): T {
      match this
      case Some(v) => v
      case None => default
    }
  }

  datatype Result<+T, +E> = Success(value: T) | Failure(error: E)
}
