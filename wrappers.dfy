/** Option and Result, shared by the other modules. */
module Wrappers {

  /** A value that may be absent: `None` is pandas' "not a number". */
  datatype Option<+T> = None | Some(value: T)

  /** The outcome of a stage that may fail with an error payload. */
  datatype Result<+R, +E> = Success(value: R) | Failure(error: E)
}
