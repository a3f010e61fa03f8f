/** Failure-carrying results shared by the modules of the model. */
module Wrappers {

  /** A value that may be missing, in place of Java's null. */
  datatype Option<+T> = None | Some(value: T)

  /** The outcome of an operation that the source lets throw. */
  datatype Result<+T, +E> = Ok(value: T) | Err(error: E)
}
