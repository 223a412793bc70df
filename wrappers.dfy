/** Failure-carrying values shared by every module of the model. A Kotlin
    nullable `T?` becomes `Option<T>`; a Kotlin `Result<T>` or a thrown
    exception that callers catch becomes `Result<T, E>`. */
module Wrappers {

  datatype Option<+T> = None | Some(value: T) {
    /** Kotlin's `?:` (elvis) operator. */
    function GetOr(default: T): T {
      match this
      case Some(v) => v
      case None => default
    }
  }

  datatype Result<+T, +E> = Ok(value: T) | Err(error: E)

  /** Kotlin's `a ?: b` when both sides are nullable. */
  function OrElse<T>(a: Option<T>, b: Option<T>): Option<T> {
    if a.Some? then a else b
  }
}
