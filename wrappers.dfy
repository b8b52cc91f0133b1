/** Option and Result: `undefined`/`null` references and thrown errors. */
module Wrappers {

  datatype Option<T> = None | Some(value: T)

  /** The outcome of an operation that either returns a value or throws an error. */
  datatype Result<T, E> = Ok(value: T) | Err(error: E)
}
