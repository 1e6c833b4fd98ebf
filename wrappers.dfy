/** Option and Result: Ruby's `nil` and raised errors, as values. */
module Wrappers {

  /** `None` stands for Ruby's `nil`. */
  datatype Option<+T> = None | Some(value: T)

  /** `Failure` stands for an exception raised to the caller. */
  datatype Result<+T, +E> = Success(value: T) | Failure(error: E)
}
