/** Result shapes shared by every component of the model. */
module Wrappers {

  /** An optional value. */
  datatype Option<+T> = None | Some(value: T)

  /** A successful value or the error that replaced it. */
  datatype Result<+T, +E> = Ok(value: T) | Err(error: E)

  function Min(a: int, b: int): int {
    if a <= b then a else b
  }

  function Max(a: int, b: int): int {
    if a <= b then b else a
  }

  /** Subtraction that stops at zero, as `saturating_sub` does on an unsigned integer. */
  function Monus(a: nat, b: nat): nat {
    if a < b then 0 else a - b
  }

  type Byte = b: int | 0 <= b < 256
}
