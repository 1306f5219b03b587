/** Option and Result datatypes shared by the other modules. */
module Wrappers {

  /** A value that may be absent: a missing file, a JSON key that is not there or holds null. */
  datatype Option<+T> = None | Some(value: T)

  /** The outcome of an operation that can raise. */
  datatype Result<+R, +E> = Success(value: R) | Failure(error: E)
}
