/** Option and Result, the two shapes the modelled Go functions use for
    "value or nothing" and "value or error". */
module Wrappers {

  datatype Option<+T> = None | Some(value: T)

  datatype Result<+T, +E> = Ok(value: T) | Err(error: E)
}
