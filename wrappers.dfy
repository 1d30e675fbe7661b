/** Failure-compatible wrappers used across the model. */
module Wrappers {

  /** A value that may be absent (a C# `null` reference or nullable value). */
  datatype Option<+T> = None | Some(value: T)

  /** The outcome of an operation that can throw: a value or the exception it raises. */
  datatype Result<+T, +E> = Success(value: T) | Failure(error: E)
}
