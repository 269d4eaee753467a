/**
 * Instants are integer milliseconds since the epoch, as JavaScript `Date` values are. A day is a
 * fixed 24 hours: no time zone and no daylight-saving shift.
 */
module Clock {

  const SECOND: int := 1000
  const MINUTE: int := 60 * SECOND
  const HOUR: int := 60 * MINUTE
  const DAY: int := 24 * HOUR

  /** The first instant of the day that holds `t`. */
  function DayStart(t: int): int {
    t - t % DAY
  }

  /** `date.getHours()` */
  function HourOfDay(t: int): nat {
    (t % DAY) / HOUR
  }

  /** `date.getMinutes()` */
  function MinuteOfHour(t: int): nat {
    (t % HOUR) / MINUTE
  }

  /** An hour divides a day, so the time of day and the instant agree on the time within the
      hour. */
  lemma DayModHour(t: int)
    ensures (t % DAY) % HOUR == t % HOUR
  {
    var q, p := t / DAY, t / HOUR;
    assert t == p * HOUR + t % HOUR;
    assert q * DAY == (q * 24) * HOUR;
    assert t % DAY == (p - q * 24) * HOUR + t % HOUR;
    HourOffset(p - q * 24, t % HOUR);
  }

  lemma HourOffset(k: int, x: int)
    requires 0 <= x < HOUR
    ensures (k * HOUR + x) % HOUR == x
  {
  }
}
