/** Nullable values and thrown-or-returned results, as the Java code uses them. */
module Wrappers {

  /** A Java reference that may be null: `None` is null. */
  datatype Option<+T> = None | Some(value: T) {

    /** `Optional.orElse`: the value, or `other` when null. */
    function GetOr(other: T): T {
      match this
      case Some(v) => v
      case None => other
    }
  }

  /** A call that either returns a value or throws an exception. */
  datatype Result<+T, +E> = Success(value: T) | Failure(error: E)

  /** A `void` call that either returns normally or throws. */
  datatype Outcome<+E> = Pass | Fail(error: E)
}
