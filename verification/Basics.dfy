/** Values shared by every part of the model. */
module Basics {

  datatype Option<+T> = None | Some(value: T)

  /** An instant, in nanoseconds since 1 January of year 1 UTC. The zero instant is Go's
      zero `time.Time`, which the program reads as "unset". */
  type Time = int

  const SECOND: int := 1_000_000_000
  const DAY: int := 86400 * SECOND

  /** The longest reset, cooldown or suspension that is ever accepted: 366 days. */
  const LONGEST: int := 366 * DAY

  /** Seconds from year 1 to the Unix epoch. */
  const UNIX_EPOCH: int := 62135596800

  const TWO64: int := 0x1_0000_0000_0000_0000

  /** A `uint64` counter. */
  type Counter = n: nat | n < TWO64

  /** `n++` on a `uint64`, which wraps. */
  function Bump(n: Counter): (r: Counter)
    ensures r == n + 1 || (n == TWO64 - 1 && r == n + 1 - TWO64)
  {
    if n + 1 == TWO64 then 0 else n + 1
  }

  predicate IsHexDigit(c: char) {
    '0' <= c <= '9' || 'a' <= c <= 'f'
  }

  /** The pattern that state.go requires of every key identity: 64 lower-case hex digits. */
  predicate IsHash(s: string) {
    |s| == 64 && forall i :: 0 <= i < |s| ==> IsHexDigit(s[i])
  }

  function Max(a: int, b: int): int {
    if a < b then b else a
  }
}
