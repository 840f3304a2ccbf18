/** Shared result types. */
module Wrappers {

  /** A nullable column or an optional value. */
  datatype Option<+T> = None | Some(value: T)

  /** A value, or the error the source throws. */
  datatype Result<+T, +E> = Ok(value: T) | Err(error: E)
}
