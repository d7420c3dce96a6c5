/** Option and Result, the shapes for "may be absent" and "may fail". */
module Wrappers {

  /** A value that may be absent: a nullable column, a `FirstOrDefault` that found nothing. */
  datatype Option<+T> = None | Some(value: T)

  /** The outcome of an operation that either returns a value or throws. */
  datatype Result<+R, +E> = Success(value: R) | Failure(error: E)
}
