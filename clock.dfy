/** Time as integer milliseconds since the epoch, with an abstract calendar:
    a day is a block of 86 400 000 ms and day 0 of the epoch was a Thursday.
    Time zones and daylight-saving shifts are not modelled. */
module Clock {

  const MinuteMs: int := 60000
  const DayMs: int := 86400000
  const WeekMs: int := 7 * DayMs

  /** The day an instant falls on (floor division, also for instants before the epoch). */
  function DayOf(t: int): int
  {
    t / DayMs
  }

  /** Day of the week of an instant, 0 = Sunday .. 6 = Saturday. */
  function Weekday(t: int): (w: int)
    ensures 0 <= w < 7
  {
    (DayOf(t) + 4) % 7
  }

  /** date-fns `isToday(d)` evaluated at instant `now`. */
  predicate IsToday(d: int, now: int)
  {
    DayOf(d) == DayOf(now)
  }

  /** date-fns `isFuture(d)` evaluated at instant `now`. */
  predicate IsFuture(d: int, now: int)
  {
    d > now
  }

  lemma DayOfBounds(t: int)
    ensures DayOf(t) * DayMs <= t < DayOf(t) * DayMs + DayMs
  {
  }

  lemma DayOfMultiple(k: int, r: int)
    requires 0 <= r < DayMs
    ensures DayOf(k * DayMs + r) == k
  {
    DayOfBounds(k * DayMs + r);
  }

  /** Days compare like the instants they contain. */
  lemma DayOfMonotone(a: int, b: int)
    requires a <= b
    ensures DayOf(a) <= DayOf(b)
  {
    DayOfBounds(a);
    DayOfBounds(b);
  }

  /** date-fns `startOfWeek(t, { weekStartsOn: 0 })`: the Sunday 00:00 that opens the week of `t`. */
  function StartOfWeek(t: int): (s: int)
    ensures s <= t < s + WeekMs
    ensures s % DayMs == 0 && Weekday(s) == 0
    ensures DayOf(t) - DayOf(s) == Weekday(t)
  {
    var k := DayOf(t) - Weekday(t);
    DayOfBounds(t);
    DayOfMultiple(k, 0);
    assert (k + 4) % 7 == 0 by {
      assert k + 4 == DayOf(t) + 4 - (DayOf(t) + 4) % 7;
    }
    k * DayMs
  }

  /** The instant the weekly reset timer aims at, as written:
      `startOfWeek(now).setHours(24, 0, 0, 0)` moves the Sunday 00:00 on to the
      next midnight, that is Monday 00:00 of the current week. */
  function ResetInstant(now: int): (r: int)
    ensures r == StartOfWeek(now) + DayMs
    ensures r % DayMs == 0 && Weekday(r) == 1
  {
    var s := StartOfWeek(now);
    DayOfMultiple(DayOf(s) + 1, 0);
    assert s == DayOf(s) * DayMs by { DayOfBounds(s); }
    s + DayMs
  }

  /** `differenceInMilliseconds(nextSundayMidnight, now)`: the delay handed to `setTimeout`. */
  function ResetDelay(now: int): (d: int)
    ensures (now + d) % DayMs == 0 && Weekday(now + d) == 1
    ensures DayOf(now + d) == DayOf(now) - Weekday(now) + 1
  {
    var s := StartOfWeek(now);
    DayOfMultiple(DayOf(s) + 1, 0);
    assert s == DayOf(s) * DayMs by { DayOfBounds(s); }
    ResetInstant(now) - now
  }

  /** The delay is positive exactly when `now` is a Sunday; on every other day it is
      zero or negative, so the reset timer fires at once. */
  lemma ResetDelayPositiveIffSunday(now: int)
    ensures ResetDelay(now) > 0 <==> Weekday(now) == 0
    ensures -6 * DayMs < ResetDelay(now) <= DayMs
  {
    var s := StartOfWeek(now);
    DayOfBounds(now);
    DayOfMultiple(DayOf(s), 0);
    assert s == DayOf(s) * DayMs by { DayOfBounds(s); }
    if Weekday(now) == 0 {
      assert DayOf(now) == DayOf(s);
    } else {
      assert DayOf(now) >= DayOf(s) + 1;
      assert now >= (DayOf(s) + 1) * DayMs;
    }
  }

  /** A concrete Monday: 1970-01-05 12:00. The reset delay there is negative. */
  lemma ResetDelayOnMonday()
    ensures Weekday(4 * DayMs + DayMs / 2) == 1
    ensures ResetDelay(4 * DayMs + DayMs / 2) == -DayMs / 2
  {
    DayOfMultiple(4, DayMs / 2);
    DayOfMultiple(0, 0);
    assert DayOf(4 * DayMs + DayMs / 2) == 4;
  }

  /** The evidently intended delay: up to the next Sunday 00:00, one week after the
      start of the current week. */
  function NextWeekResetDelay(now: int): (d: int)
    ensures 0 < d <= WeekMs
    ensures (now + d) % DayMs == 0 && Weekday(now + d) == 0
  {
    var s := StartOfWeek(now);
    DayOfMultiple(DayOf(s) + 7, 0);
    assert s == DayOf(s) * DayMs by { DayOfBounds(s); }
    assert s + WeekMs == (DayOf(s) + 7) * DayMs;
    s + WeekMs - now
  }
}
