/** Failure-carrying result types shared by the modules of this model. */
module Wrappers {

  /** A value that may be absent. */
  datatype Option<+T> = None | Some(value: T)

  /** Either a value or the error that replaced it (an exception, a fatal exit). */
  datatype Result<+T, +E> = Ok(value: T) | Err(error: E)
}
