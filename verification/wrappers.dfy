/** Optional values and results with an error, standing for C#'s null and thrown exceptions. */
module Wrappers {

  /** `None` stands for a C# null reference. */
  datatype Option<+T> = None | Some(value: T)

  /** `Fail` stands for an exception that aborts the operation. */
  datatype Outcome<+E> = Pass | Fail(error: E)

  /** A value or the exception that prevented it. */
  datatype Result<+T, +E> = Success(value: T) | Failure(error: E)
}
