/** Option and Result, as the generated code uses them. */
module Wrappers {

  datatype Option<+T> = None | Some(value: T)

  /** The `Result<T, E>` of the generated stubs: a value or an error. */
  datatype Result<+T, +E> = Ok(value: T) | Err(error: E)
}
