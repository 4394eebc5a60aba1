/**
 * Optional values and outcomes: the model's rendering of TypeScript's
 * `T | undefined` / `T | null`, and of a call that either returns or throws.
 */
module Wrappers {

  datatype Option<+T> = None | Some(value: T) {

    /** Returns the value in Some, or the given default when None. */
    function GetOr(default: T): T {
      match this
      case Some(v) => v
      case None => default
    }
  }

  /** A value, or the reason it could not be produced (a thrown error). */
  datatype Result<+T, +E> = Success(value: T) | Failure(error: E)
}
