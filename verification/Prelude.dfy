/** Small vocabulary shared by every module: optional values, instants and durations. */
module Prelude {
  datatype Option<+T> = None | Some(value: T)

  /** Instants and durations are whole nanoseconds, as in time.Time and time.Duration. */
  const SECOND: nat := 1_000_000_000

  function Seconds(n: int): int {
    n * SECOND
  }

  function Min(a: int, b: int): int {
    if a <= b then a else b
  }

  function Max(a: int, b: int): int {
    if a <= b then b else a
  }

  function Power(b: nat, k: nat): nat {
    if k == 0 then 1 else b * Power(b, k - 1)
  }

  /** Go's conversion of a float64 to an integer type: the fraction is dropped. */
  function Truncate(x: real): int {
    if x >= 0.0 then x.Floor else -((-x).Floor)
  }
}
