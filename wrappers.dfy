/** Plain optional and result values used across the model (no `:-` support). */
module Wrappers {

  /** An optional value: the store's "not found" signal and partial results. */
  datatype Option<+T> = None | Some(value: T)

  /** A value or an error, for the source's exceptions. */
  datatype Result<+R, +E> = Success(value: R) | Failure(error: E)
}
