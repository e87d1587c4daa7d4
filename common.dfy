/** Small value types shared by every module of the model. */
module Common {

  /** Python's `X | None`: a value that may be missing. */
  datatype Option<+T> = None | Some(value: T) {

    /** Python's `d.get(key, default)` once the key lookup has produced this option. */
    function GetOr(default: T): T {
      match this
      case Some(v) => v
      case None => default
    }
  }

  /** A computation that either produces a value or raises an error. */
  datatype Result<+T, +E> = Ok(value: T) | Err(error: E)

  function Max(a: int, b: int): int { if a < b then b else a }

  function Min(a: int, b: int): int { if a < b then a else b }
}
