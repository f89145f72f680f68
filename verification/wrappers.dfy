/** Optional values and success/failure results shared by the posture model. */
module Wrappers {

  /** An optional value: the model's stand-in for Python's `None`. */
  datatype Option<+T> = None | Some(value: T)

  /** A value or an error, for operations that bail out with a message. */
  datatype Result<+R, +E> = Success(value: R) | Failure(error: E)
}
