/** Option and Result, used wherever the services return None or raise, and truth values as
    numbers. */
module Wrappers {

  datatype Option<+T> = None | Some(value: T)

  datatype Result<+T, +E> = Ok(value: T) | Err(error: E)

  function Bit(b: bool): nat {
    if b then 1 else 0
  }
}
