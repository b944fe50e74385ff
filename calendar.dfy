/**
 * The time model behind the scheduler's `Date` arithmetic.
 *
 * A timestamp is a whole number of milliseconds since 1970-01-01T00:00 in a
 * single time zone without daylight-saving changes, so a calendar day is
 * always `MsPerDay` long and `d.setDate(d.getDate() + n)` adds `n` days.
 * Calendar-month stepping (`d.setMonth(d.getMonth() + i)`) depends on month
 * lengths and is kept abstract: a `MonthStep` is any function that leaves a
 * timestamp alone for zero months and strictly increases with the number of
 * months. `setMonth` has that shape because its result is the first day of the
 * target month plus a fixed offset (the original day of the month less one, and
 * the time of day). The offset can carry past the end of a short month, as
 * January 31 plus one month lands on March 2 or 3, but it is the same for
 * every `i` while the target month's first day grows with `i`, so the results
 * still grow with the number of months.
 */
module Calendar {

  type Time = int

  const MsPerMinute: int := 60_000
  const MsPerHour: int := 3_600_000
  const MsPerDay: int := 86_400_000

  /** Midnight at the start of the day holding `t`. */
  function DayStart(t: Time): (r: Time)
    ensures r <= t < r + MsPerDay
    ensures r % MsPerDay == 0
  {
    (t / MsPerDay) * MsPerDay
  }

  /** `d.setDate(d.getDate() + n)`: `n` days on, at the same time of day. */
  function AddDays(t: Time, n: int): (r: Time)
    ensures DayStart(r) == DayStart(t) + n * MsPerDay
    ensures r - DayStart(r) == t - DayStart(t)
  {
    assert (t + n * MsPerDay) / MsPerDay == t / MsPerDay + n;
    t + n * MsPerDay
  }

  /** `d.getDay()`: 0 is Sunday; 1970-01-01 was a Thursday. */
  function Weekday(t: Time): (d: int)
    ensures 0 <= d < 7
  {
    (t / MsPerDay + 4) % 7
  }

  /** Moving `n` whole days moves the weekday `n` places round the week. */
  lemma WeekdayAfter(t: Time, n: int)
    ensures Weekday(AddDays(t, n)) == (Weekday(t) + n) % 7
  {
    assert AddDays(t, n) / MsPerDay == t / MsPerDay + n;
  }

  /** JavaScript's `a % b`, whose remainder takes the sign of `a`. */
  function TruncRem(a: int, b: int): (r: int)
    requires b > 0
    ensures a >= 0 ==> r == a % b
    ensures a < 0 ==> r <= 0
    ensures -b < r < b
  {
    if a >= 0 then a % b else -((-a) % b)
  }

  /** `Math.ceil(ms / (1000 * 60 * 60 * 24))`: elapsed days, rounded up. */
  function CeilDays(ms: int): (r: int)
    ensures (r - 1) * MsPerDay < ms <= r * MsPerDay
  {
    var q := (-ms) / MsPerDay;
    assert -ms == q * MsPerDay + (-ms) % MsPerDay;
    -q
  }

  /** A whole number of days lies below the rounded-up day count exactly when it is shorter than `ms`. */
  lemma CeilDaysBound(ms: int, i: int)
    ensures i < CeilDays(ms) <==> i * MsPerDay < ms
  {
    var q := (-ms) / MsPerDay;
    assert -ms == q * MsPerDay + (-ms) % MsPerDay;
  }

  ghost predicate MonthStepLaw(f: (Time, nat) -> Time) {
    && (forall t: Time :: f(t, 0) == t)
    && (forall t: Time, i: nat, j: nat :: i < j ==> f(t, i) < f(t, j))
  }

  /** `t` moved forward by `i` calendar months, as `setMonth(getMonth() + i)` does. */
  type MonthStep = f: (Time, nat) -> Time | MonthStepLaw(f)
    witness (t: Time, i: nat) => t + i
}
