/** Failure-carrying values used where the Java code throws an exception or returns null. */
module Wrappers {

  /** A value that may be missing (Java's null). */
  datatype Option<+T> = None | Some(value: T)

  /** Either a value or the error that the Java code would have thrown. */
  datatype Result<+R, +E> = Ok(value: R) | Err(error: E)

  /** Success of a void Java method, or the error it would have thrown. */
  datatype Outcome<+E> = Pass | Fail(error: E)
}
