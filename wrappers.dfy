/** Failure-carrying wrappers shared by the inventory modules. */
module Wrappers {

  /** A value that may be absent (an optional request field, a record not found). */
  datatype Option<+T> = None | Some(value: T)

  /** The outcome of a validation: the accepted value, or what was wrong with it. */
  datatype Result<+R, +E> = Success(value: R) | Failure(error: E)
}
