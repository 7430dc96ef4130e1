/** Option and Result values standing for the source's null pointers,
    absent fields and thrown exceptions. */
module Wrappers {
  datatype Option<+T> = None | Some(value: T)

  datatype Result<+T, +E> = Ok(value: T) | Err(error: E)
}
