/** The Option and Result datatypes used across the model. */
module Wrappers {

  datatype Option<+T> = None | Some(value: T)

  /** Either a computed value or a configuration error that aborts resolution. */
  datatype Result<+R, +E> = Success(value: R) | Failure(error: E)
}
