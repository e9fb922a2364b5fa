/** Option and Result values shared by every module of the model. */
module Wrappers {
  datatype Option<T> = None | Some(value: T)

  /** The outcome of an operation that throws in the source: `Err` carries what was thrown. */
  datatype Result<T, E> = Ok(value: T) | Err(error: E)
}
