/** Kotlin's nullable values and `Result`, as failure-compatible datatypes. */
module Outcomes {

  /** A Kotlin `T?`: `None` stands for `null`. */
  datatype Option<+T> = None | Some(value: T) {
    /** The elvis operator `this ?: default`. */
    function GetOr(default: T): T {
      match this
      case Some(v) => v
      case None => default
    }
  }

  /** A Kotlin `Result<T>` (from `runCatching`), the exception being an `E`. */
  datatype Result<+T, +E> = Success(value: T) | Failure(error: E) {
    /** `getOrNull()` */
    function ToOption(): Option<T> {
      match this
      case Success(v) => Some(v)
      case Failure(_) => None
    }
  }
}
