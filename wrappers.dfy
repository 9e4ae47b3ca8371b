/** Option and Result, the two failure-carrying values the rest of the model uses. */
module Wrappers {

  /** A value that may be absent: a null pointer, or a producer that returns nothing. */
  datatype Option<+T> = None | Some(value: T)

  /** The outcome of an evaluation that the source may reject (a throw during constant evaluation). */
  datatype Result<+T, +E> = Ok(value: T) | Err(error: E)
}
