/** Option and Result datatypes shared by the todo model. */
module Wrappers {

  /** A value that may be absent; plays the part of JavaScript's `undefined`. */
  datatype Option<+T> = None | Some(value: T)

  /** Either a value or the reason why none could be produced. */
  datatype Result<+R, +E> = Ok(value: R) | Err(error: E)
}
