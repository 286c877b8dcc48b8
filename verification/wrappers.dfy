/** Failure-carrying wrappers shared by the other modules. */
module Wrappers {

  /** An optional value: a repository answer that may be missing. */
  datatype Option<+T> = None | Some(value: T)

  /** A value or the error that stopped it from being computed. */
  datatype Result<+R, +E> = Success(value: R) | Failure(error: E)
}
