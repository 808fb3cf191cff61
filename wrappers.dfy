/** Result types standing for the Java exceptions and null returns of the source. */
module Wrappers {

  /** A value or nothing: a nullable Java reference. */
  datatype Option<+T> = None | Some(value: T)

  /** A value or the exception the Java code would throw instead. */
  datatype Result<+T, +E> = Success(value: T) | Failure(error: E)

  /** Normal completion of a void Java method, or the exception it throws. */
  datatype Outcome<+E> = Pass | Fail(error: E)
}
