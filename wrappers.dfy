/** Small failure-carrying datatypes shared by the two modules of the model. */
module Wrappers {

  /** A value that may be missing. */
  datatype Option<+T> = None | Some(value: T)

  /** Either a computed value or the reason none could be computed. */
  datatype Result<+R, +E> = Success(value: R) | Failure(error: E)
}
