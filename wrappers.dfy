/** Option and Result values used where the source returns null or throws. */
module Wrappers {

  datatype Option<+T> = None | Some(value: T)

  datatype Result<+R, +E> = Success(value: R) | Failure(error: E)

  /** The Java runtime exceptions the modelled code can raise. */
  datatype Exception = NullPointer | IndexOutOfBounds
}
