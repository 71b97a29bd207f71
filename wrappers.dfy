/** Option and Result: the absent value of a Python `None` and the raised
    exception of a Python call, as values. */
module Wrappers {

  datatype Option<+T> = None | Some(value: T)

  datatype Result<+R, +E> = Success(value: R) | Failure(error: E)

  /** A step that either passes or raises. */
  datatype Outcome<+E> = Pass | Fail(error: E)
}
