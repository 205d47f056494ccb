/** Failure-carrying wrappers shared by every module of the model. */
module Wrappers {

  /** A value that may be absent: a NULL column, a missing cookie, an absent JSON field. */
  datatype Option<+T> = None | Some(value: T)

  /** The outcome of an operation that can be refused with an error value. */
  datatype Result<+T, +E> = Ok(value: T) | Err(error: E)
}
