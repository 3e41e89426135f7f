/** Small value wrappers shared by the whole model. */
module Wrappers {

  /** An optional value: TypeScript's `T | undefined` for optional fields. */
  datatype Option<+T> = None | Some(value: T) {
    function GetOr(default: T): T {
      match this
      case Some(v) => v
      case None => default
    }
  }

  /** How a remote call settles: it emits a value, or it errors. */
  datatype Response<+T> = Success(value: T) | Failure
}
