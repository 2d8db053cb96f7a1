/** Optional values and results with an error path, as used across the model. */
module Wrappers {

  /** A value that may be absent: C#'s `Guid?`, or a column holding SQL NULL. */
  datatype Option<+T> = None | Some(value: T)

  /** The outcome of an operation that can throw: its value or the error it raises. */
  datatype Result<+T, +E> = Success(value: T) | Failure(error: E)
}
