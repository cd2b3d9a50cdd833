/**
  Instants as whole milliseconds on the garages' local clock. The local epoch
  (instant 0) is midnight at the start of a Thursday, as 1 January 1970 was, so the
  JavaScript `Date` operations the optimizers use on local time become arithmetic.
 */
module Clock {

  const MS_PER_MINUTE: int := 60000
  const MS_PER_HOUR: int := 3600000
  const MS_PER_DAY: int := 86400000

  /** `date.getDay()`: 0 = Sunday, 1 = Monday, ..., 6 = Saturday. */
  function DayOfWeek(t: int): (d: int)
    ensures 0 <= d < 7
  {
    (t / MS_PER_DAY + 4) % 7
  }

  /** The epoch is a Thursday, and each later day is the next day of the week. */
  lemma DayOfWeekSteps(t: int)
    ensures DayOfWeek(0) == 4
    ensures DayOfWeek(t + MS_PER_DAY) == (DayOfWeek(t) + 1) % 7
  {
    assert (t + MS_PER_DAY) / MS_PER_DAY == t / MS_PER_DAY + 1;
  }

  /** Local midnight at the start of the date that holds `t`. */
  function StartOfDay(t: int): (r: int)
    ensures r <= t < r + MS_PER_DAY
    ensures r % MS_PER_DAY == 0
  {
    (t / MS_PER_DAY) * MS_PER_DAY
  }

  /**
    `d = new Date(base); d.setHours(h, m, 0, 0)`: `h` hours and `m` minutes after the
    local midnight of `base`'s date. Values past 23:59 run on into the following
    days, as `setHours` lets them.
   */
  function AtLocalTime(base: int, h: int, m: int): int {
    StartOfDay(base) + h * MS_PER_HOUR + m * MS_PER_MINUTE
  }

  /** Midnight is the start of its own date, and two instants of a date share their midnight. */
  lemma StartOfDayOf(t: int, u: int)
    requires StartOfDay(t) <= u < StartOfDay(t) + MS_PER_DAY
    ensures StartOfDay(u) == StartOfDay(t)
    ensures DayOfWeek(u) == DayOfWeek(t)
  {
    var q := t / MS_PER_DAY;
    assert q * MS_PER_DAY <= u < q * MS_PER_DAY + MS_PER_DAY;
    assert u / MS_PER_DAY == q;
  }

  /** A time of day inside 00:00-23:59 stays on `base`'s date and on its day of the week. */
  lemma AtLocalTimeSameDate(base: int, h: int, m: int)
    requires 0 <= h < 24 && 0 <= m < 60
    ensures StartOfDay(AtLocalTime(base, h, m)) == StartOfDay(base)
    ensures DayOfWeek(AtLocalTime(base, h, m)) == DayOfWeek(base)
    ensures AtLocalTime(base, h, m) - StartOfDay(base) == (h * 60 + m) * MS_PER_MINUTE
  {
    StartOfDayOf(base, AtLocalTime(base, h, m));
  }
}
