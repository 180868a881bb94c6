/** Absent values (Java's null) and error results (Java's thrown exceptions). */
module Wrappers {

  /** A possibly absent value: None stands for a Java null reference. */
  datatype Option<+T> = None | Some(value: T)

  /** The outcome of an operation that either returns a value or throws. */
  datatype Result<+T, +E> = Success(value: T) | Failure(error: E)
}
