/** Option and Result, and the Python exceptions that the model's error paths stand for. */
module Wrappers {

  datatype Option<+T> = None | Some(value: T)

  datatype Result<+R, +E> = Success(value: R) | Failure(error: E)

  /** The exceptions the modelled code can raise. */
  datatype Exception = IndexError | ValueError | ZeroDivisionError
}
