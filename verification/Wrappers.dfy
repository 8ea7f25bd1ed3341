/** Option and Result, and the positive naturals the configuration fields range over. */
module Wrappers {

  datatype Option<+T> = None | Some(value: T) {
    function GetOr(default: T): T {
      match this
      case Some(v) => v
      case None => default
    }
  }

  datatype Result<+R, +E> = Ok(value: R) | Err(error: E)

  type pos = n: nat | n > 0 witness 1

  function Min(a: int, b: int): int {
    if a <= b then a else b
  }
}
