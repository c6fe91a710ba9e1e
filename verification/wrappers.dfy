/** The two sum types the model uses for optional values and for error returns. */
module Wrappers {
  datatype Option<+T> = None | Some(value: T)

  datatype Result<+T, +E> = Success(value: T) | Failure(error: E)

  /** Arithmetic that stops at the largest number below a limit. */
  function Saturated(n: nat, limit: nat): nat
    requires 0 < limit
  {
    if n < limit then n else limit - 1
  }
}
