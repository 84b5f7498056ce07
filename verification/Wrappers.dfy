/** The optional values and error values shared by every model. */
module Wrappers {

  datatype Option<+T> = None | Some(value: T)

  datatype Result<+T, +E> = Ok(value: T) | Err(error: E)

  /** One octet of a wire format. */
  newtype byte = x: int | 0 <= x < 256
}
