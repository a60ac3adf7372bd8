/** Clock readings and durations, with the 64-bit behaviour of the conversions between them. */
module Time {
  import opened Prelude

  const I64_MIN: int := -0x8000_0000_0000_0000
  const I64_MAX: int := 0x7fff_ffff_ffff_ffff
  const U64_RANGE: int := 0x1_0000_0000_0000_0000
  const NANOS_PER_SECOND: int := 1_000_000_000
  const NANOS_PER_MILLI: int := 1_000_000

  type i64 = x: int | I64_MIN <= x <= I64_MAX
  type u64 = x: int | 0 <= x < U64_RANGE

  /** std::time::Duration, in nanoseconds. */
  type Duration = x: int | 0 <= x < U64_RANGE * NANOS_PER_SECOND

  /** What now_ms can return: milliseconds since the epoch. */
  type Clock = x: int | 0 <= x <= I64_MAX

  /** Whole milliseconds, or an error when they do not fit. */
  function DurationMs(d: Duration): (r: Result<i64>)
    ensures r.Ok? ==> r.value >= 0 && r.value * NANOS_PER_MILLI <= d < (r.value + 1) * NANOS_PER_MILLI
    ensures r.Err? ==> r.error == DurationOutOfRange && d >= (I64_MAX + 1) * NANOS_PER_MILLI
  {
    var ms := d / NANOS_PER_MILLI;
    if ms <= I64_MAX then Ok(ms) else Err(DurationOutOfRange)
  }

  function CheckedAdd(a: i64, b: i64): Result<i64> {
    if I64_MIN <= a + b <= I64_MAX then Ok(a + b) else Err(DurationOutOfRange)
  }

  function AddDuration(timestamp: i64, d: Duration): Result<i64> {
    match DurationMs(d)
    case Err(e) => Err(e)
    case Ok(ms) => CheckedAdd(timestamp, ms)
  }

  function SaturatingSubI64(a: int, b: int): i64 {
    if a - b < I64_MIN then I64_MIN else if a - b > I64_MAX then I64_MAX else a - b
  }

  /** An `as u64` cast: two's complement. */
  function AsU64(x: i64): u64 {
    if x < 0 then x + U64_RANGE else x
  }

  function DurationUntil(timestamp: int, now: Clock): Duration {
    AsU64(SaturatingSubI64(timestamp, now)) * NANOS_PER_MILLI
  }

  /** How long an empty poll sleeps at most: to its deadline, the cross-process interval, or the next visible row. */
  function SleepFor(remaining: Duration, interval: Duration, nextVisibleAt: Option<int>, now: Clock): Duration {
    var bound := Min(remaining, interval);
    match nextVisibleAt
    case None => bound
    case Some(t) => Min(bound, DurationUntil(t, now))
  }

  /** A deadline is moved on by the duration rounded down to milliseconds, never wrapped. */
  lemma AddDurationIsExact(timestamp: i64, d: Duration)
    ensures var r := AddDuration(timestamp, d);
      && (r.Ok? <==> timestamp + d / NANOS_PER_MILLI <= I64_MAX && d / NANOS_PER_MILLI <= I64_MAX)
      && (r.Ok? ==> timestamp <= r.value && (r.value - timestamp) * NANOS_PER_MILLI <= d < (r.value - timestamp + 1) * NANOS_PER_MILLI)
      && (r.Err? ==> r.error == DurationOutOfRange)
  {
    hide DurationMs;
    var ms := DurationMs(d);
    Milliseconds(d);
  }

  lemma Milliseconds(d: Duration)
    ensures DurationMs(d) == if d / NANOS_PER_MILLI <= I64_MAX then Ok(d / NANOS_PER_MILLI) else Err(DurationOutOfRange)
  {
  }

  /**
   The time until a deadline is right exactly when the deadline has not passed. For every
   deadline in the past the cast turns a negative count into one of at least 2^63.
   */
  lemma UntilIsExact(timestamp: i64, now: Clock)
    ensures DurationUntil(timestamp, now) == Max(0, timestamp - now) * NANOS_PER_MILLI <==> now <= timestamp
    ensures timestamp < now ==> DurationUntil(timestamp, now) > I64_MAX * NANOS_PER_MILLI
  {
    hide DurationUntil;
    UntilIs(timestamp, now);
    if timestamp < now {
      assert AsU64(SaturatingSubI64(timestamp, now)) > I64_MAX;
    }
  }

  lemma UntilIs(timestamp: int, now: Clock)
    ensures DurationUntil(timestamp, now) == AsU64(SaturatingSubI64(timestamp, now)) * NANOS_PER_MILLI
  {
  }

  /** A sleep never outlasts the poll's own deadline or the cross-process interval. */
  lemma SleepIsBounded(remaining: Duration, interval: Duration, nextVisibleAt: Option<int>, now: Clock)
    ensures SleepFor(remaining, interval, nextVisibleAt, now) <= Min(remaining, interval)
    ensures nextVisibleAt.None? ==> SleepFor(remaining, interval, nextVisibleAt, now) == Min(remaining, interval)
  {
  }

  /**
   A sleeper is up by the next visible row unless that row became visible before the clock
   was read again: exactly then, if there was anything to sleep for, it oversleeps, by the
   whole interval (or the rest of its wait).
   */
  lemma SleepsUntilVisible(remaining: Duration, interval: Duration, t: i64, now: Clock)
    ensures now <= t ==> SleepFor(remaining, interval, Some(t), now) == Min(Min(remaining, interval), (t - now) * NANOS_PER_MILLI)
    ensures SleepFor(remaining, interval, Some(t), now) <= Max(0, t - now) * NANOS_PER_MILLI <==> now <= t || Min(remaining, interval) == 0
    ensures t < now && Min(remaining, interval) <= I64_MAX * NANOS_PER_MILLI ==> SleepFor(remaining, interval, Some(t), now) == Min(remaining, interval)
  {
    hide DurationUntil;
    UntilIsExact(t, now);
  }
}
