/** Failure-compatible wrappers used in place of Java's nulls and exceptions. */
module Wrappers {

  /** A value that may be absent; a `null` entry of a `Double[]` is `None`. */
  datatype Option<+T> = None | Some(value: T)

  /** The outcome of an operation that returns a value or throws. */
  datatype Result<+R, +E> = Success(value: R) | Failure(error: E)

  /** The outcome of a `void` operation that may throw. */
  datatype Outcome<+E> = Pass | Fail(error: E)
}
