/** Instants are nanoseconds since the Unix epoch and durations are nanoseconds,
    both unbounded. Go's zero `time.Time` is one particular instant (the start of
    year 1), so `IsZero` is an ordinary comparison and a zero instant still takes
    part in `Before`/`After`. */
module Times {
  const SECOND: int := 1_000_000_000
  const MILLISECOND: int := 1_000_000
  const MINUTE: int := 60 * SECOND
  const ZERO_TIME: int := -62_135_596_800 * SECOND

  /** Seconds since the epoch, rounded down (`Time.Unix`). */
  function UnixSeconds(at: int): int {
    at / SECOND
  }

  /** Milliseconds since the epoch, rounded down (`Time.UnixMilli`). */
  function UnixMillis(at: int): int {
    at / MILLISECOND
  }

  function Max(a: int, b: int): int {
    if a >= b then a else b
  }

  function Min(a: int, b: int): int {
    if a <= b then a else b
  }

  /** Go's integer division: truncation toward zero. */
  function Quotient(a: int, b: int): int
    requires b > 0
  {
    if a >= 0 then a / b else -((-a) / b)
  }

  function Power2(n: nat): (p: nat)
    ensures p > 0
  {
    if n == 0 then 1 else 2 * Power2(n - 1)
  }

  lemma Doubling(base: int, i: nat)
    ensures base * Power2(i + 1) == 2 * (base * Power2(i))
  {
  }
}
