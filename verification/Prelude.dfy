/** Values shared by every module: optional columns, results, and the database clock. */
module Prelude {

  /** A nullable column or an optional answer. */
  datatype Option<+T> = None | Some(value: T)

  /** The value a service call returns, or the error it raises. */
  datatype Result<+T, +E> = Ok(value: T) | Err(error: E)

  /** A database timestamp, in microseconds. */
  type Time = int

  const SECOND: int := 1_000_000
  const HOUR: int := 3600 * SECOND
  const DAY: int := 24 * HOUR

  function Min(a: int, b: int): int {
    if a <= b then a else b
  }

  function Max(a: int, b: int): int {
    if a <= b then b else a
  }

  /** The last element, or `default` when there is none. */
  function LastOr<T>(s: seq<T>, default: T): T {
    if s == [] then default else s[|s| - 1]
  }
}
