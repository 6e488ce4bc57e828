/** Optional values and success/failure results shared by every module of the model. */
module Wrappers {

  /** A value that may be absent (PHP `null`, a missing form field, JavaScript `NaN`). */
  datatype Option<+T> = None | Some(value: T) {
    function GetOr(default: T): T {
      match this
      case Some(v) => v
      case None => default
    }
  }

  /** Either normalised data or an error description. */
  datatype Result<+T, +E> = Ok(value: T) | Err(error: E) {
    predicate IsFailure() { Err? }
  }
}
