/** Option and Result values shared by the modules of this model. */
module Wrappers {

  datatype Option<+T> = None | Some(value: T)

  /** The outcome of an operation that may raise: Ok carries the result,
      Err the exception the Python code raises. */
  datatype Result<+T, +E> = Ok(value: T) | Err(error: E)
}
