/** Optional values and success-or-error results, standing in for C# null
    references, failed `TryParse` calls and thrown exceptions. */
module Wrappers {

  /** `None` stands for a C# `null` reference or a failed `TryParse`. */
  datatype Option<+T> = None | Some(value: T)

  /** `Failure` stands for an exception the source lets escape. */
  datatype Result<+R, +E> = Success(value: R) | Failure(error: E)
}
