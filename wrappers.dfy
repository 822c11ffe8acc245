/** Plain optional-value and success-or-error datatypes shared by the other modules. */
module Wrappers {

  /** A value that may be absent: Python's `Optional[T]`, with `None` for absence. */
  datatype Option<+T> = None | Some(value: T)

  /** The outcome of a validation step: the accepted value or the reason for refusal. */
  datatype Result<+T, +E> = Ok(value: T) | Err(error: E)
}
