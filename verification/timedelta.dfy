/**
  Naive `datetime` values and the `timedelta` that subtracting two of them
  yields. A datetime is a count of microseconds from a fixed epoch, which is
  the resolution at which Python subtracts datetimes exactly.

  Python normalises a timedelta so that `seconds` lies in [0, 86400) and
  `microseconds` in [0, 10^6), with the sign carried entirely by `days`:
  `days` is the floor of the difference in whole days. Dafny's `/` and `%`
  are Euclidean, which for a positive divisor coincide with Python's floor
  division and modulo, so `divmod` is written with them directly.
*/
module TimeDeltas {

  const MicrosPerSecond: int := 1_000_000
  const SecondsPerDay: int := 86400
  const MicrosPerDay: int := 86_400_000_000

  /** A naive datetime, in microseconds since a fixed epoch. */
  type Instant = int

  datatype TimeDelta = TimeDelta(days: int, seconds: int, microseconds: int)

  /** The canonical form Python keeps every timedelta in. */
  predicate Normalized(d: TimeDelta) {
    && 0 <= d.seconds < SecondsPerDay
    && 0 <= d.microseconds < MicrosPerSecond
  }

  /** The signed length of a timedelta, in microseconds. */
  function TotalMicros(d: TimeDelta): int {
    d.days * MicrosPerDay + d.seconds * MicrosPerSecond + d.microseconds
  }

  /** `a - b` on two naive datetimes. */
  function Subtract(a: Instant, b: Instant): (d: TimeDelta)
    ensures Normalized(d)
    ensures TotalMicros(d) == a - b
  {
    var total := a - b;
    var days := total / MicrosPerDay;
    var rem := total % MicrosPerDay;
    TimeDelta(days, rem / MicrosPerSecond, rem % MicrosPerSecond)
  }

  /** The day component of a normalised timedelta is its length floored to
      whole days. */
  lemma DaysIsFloor(d: TimeDelta)
    requires Normalized(d)
    ensures d.days * MicrosPerDay <= TotalMicros(d) < (d.days + 1) * MicrosPerDay
  {
  }

  /** A normalised timedelta is determined by its length: two with the same
      length are the same value. */
  lemma {:induction false} NormalizedUnique(d1: TimeDelta, d2: TimeDelta)
    requires Normalized(d1) && Normalized(d2)
    requires TotalMicros(d1) == TotalMicros(d2)
    ensures d1 == d2
  {
    DaysIsFloor(d1);
    DaysIsFloor(d2);
  }

  /** Subtraction inverts `TotalMicros`: measuring a normalised timedelta from
      the epoch gives that timedelta back. */
  lemma SubtractRoundTrip(d: TimeDelta)
    requires Normalized(d)
    ensures Subtract(TotalMicros(d), 0) == d
  {
    NormalizedUnique(Subtract(TotalMicros(d), 0), d);
  }

  /** The day component is negative exactly when the later operand is earlier. */
  lemma DaysNegativeIffEarlier(a: Instant, b: Instant)
    ensures Subtract(a, b).days < 0 <==> a < b
  {
    DaysIsFloor(Subtract(a, b));
  }

  /** The seconds component is always less than a day, so floor-dividing it by
      the number of seconds in a day always gives zero. */
  lemma SecondsComponentHasNoWholeDays(a: Instant, b: Instant)
    ensures Subtract(a, b).seconds / SecondsPerDay == 0
  {
  }
}
