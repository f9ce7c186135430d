/** Values and small facts shared by the models of Hook's protocols. */
module Common {

  datatype Option<+T> = None | Some(value: T)

  datatype Result<+T, +E> = Ok(value: T) | Err(error: E)

  /** An instant or a duration, in nanoseconds. */
  type Instant = int

  const SECOND: Instant := 1_000_000_000
  const MINUTE: Instant := 60 * SECOND
  const DAY: Instant := 86_400 * SECOND

  /** The first and the last instant a timestamp can hold (years -9999 and 9999). */
  const FIRST_INSTANT: Instant := -377_705_116_800 * SECOND
  const LAST_INSTANT: Instant := 253_402_300_800 * SECOND - 1

  type Byte = b: int | 0 <= b < 256

  const U32_MAX: nat := 0xFFFF_FFFF

  function Min(a: int, b: int): int {
    if a <= b then a else b
  }

  /** Adding stops at a limit. */
  function SaturatingAdd(a: int, b: int, limit: int): int {
    Min(a + b, limit)
  }

  function Max(a: int, b: int): int {
    if a <= b then b else a
  }

  ghost predicate NonDecreasing(times: seq<Instant>) {
    forall i, j :: 0 <= i <= j < |times| ==> times[i] <= times[j]
  }
}
