/** Absent values and failures, in place of Java's null and thrown exceptions. */
module Wrappers {

  /** A Java reference that may be null. */
  datatype Option<+T> = None | Some(value: T)

  /** A result, or the exception the Java code would throw instead. */
  datatype Result<+R, +E> = Success(value: R) | Failure(error: E)
}
