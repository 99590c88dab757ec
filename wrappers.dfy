/** Failure-compatible wrappers shared by the model. */
module Wrappers {

  /** A value that may be absent: pandas' NaN / NaT, or a lookup that found nothing. */
  datatype Option<+T> = None | Some(value: T)

  /** The outcome of an operation that the source lets raise an exception. */
  datatype Result<+T, +E> = Ok(value: T) | Err(error: E)
}
