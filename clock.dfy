// Time as the services see it. Instants and durations are integer
// nanoseconds, as Go's time.Time and time.Duration are; the calendar day and
// the hour are those of UTC, the one boundary the model uses both for
// `DATE(check_in_time)` and for the day of `time.Now()`.

module Clock {

  /** Nanoseconds since the Unix epoch. */
  type Instant = int

  /** A signed span of nanoseconds (time.Duration). */
  type Duration = int

  const Minute: int := 60_000_000_000
  const Hour: int := 3_600_000_000_000
  const Day: int := 86_400_000_000_000

  /** The calendar day an instant falls on (the SQL `DATE(...)` of it). */
  function DayOf(t: Instant): int
  {
    t / Day
  }

  /** time.Time.Hour(): the hour of the day, 0 to 23. */
  function HourOf(t: Instant): (h: int)
    ensures 0 <= h < 24
  {
    (t % Day) / Hour
  }

  /** Go's integer division, which truncates toward zero. */
  function TruncDiv(a: int, b: int): (q: int)
    requires b > 0
    ensures a >= 0 ==> 0 <= a - q * b < b
    ensures a < 0 ==> -b < a - q * b <= 0
  {
    if a >= 0 then a / b else -((-a) / b)
  }

  /** Go's `%`, whose result takes the sign of the dividend. */
  function TruncRem(a: int, b: int): (r: int)
    requires b > 0
    ensures a == TruncDiv(a, b) * b + r
    ensures a >= 0 ==> 0 <= r < b
    ensures a < 0 ==> -b < r <= 0
  {
    a - TruncDiv(a, b) * b
  }
}
