/** `Option` and `Result`, shared by the modules of this model. */
module Wrappers {

  /** Python's `None` or a present value. */
  datatype Option<+T> = None | Some(value: T)

  /** A value, or the exception that Python would raise instead of producing it. */
  datatype Result<+T, +E> = Success(value: T) | Failure(error: E)
}
