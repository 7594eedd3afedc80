/**
 * Instants as local-time milliseconds: the epoch millisecond count shifted by
 * a fixed zone offset, with every day exactly 86 400 000 ms long. The calendar
 * fields the scheduler reads and writes (date, hour, minute, second,
 * millisecond) are quotients and remainders of that count.
 */
module LocalTime {

  const SECOND_MS: int := 1000
  const MINUTE_MS: int := 60_000
  const HOUR_MS: int := 3_600_000
  const DAY_MS: int := 86_400_000

  /** The calendar date, as a count of days (floor division, so earlier instants get smaller days). */
  function DayNumber(t: int): int { t / DAY_MS }
  /** The instant at midnight starting t's date. */
  function Midnight(t: int): int { DayNumber(t) * DAY_MS }
  function HourOfDay(t: int): (r: int) ensures 0 <= r < 24 { (t % DAY_MS) / HOUR_MS }
  function MinuteOfHour(t: int): (r: int) ensures 0 <= r < 60 { (t % HOUR_MS) / MINUTE_MS }
  function SecondOfMinute(t: int): (r: int) ensures 0 <= r < 60 { (t % MINUTE_MS) / SECOND_MS }
  function MillisOfSecond(t: int): (r: int) ensures 0 <= r < 1000 { t % SECOND_MS }

  /** The instant with the given calendar fields: with the fields in range, it lies within the given day. */
  function Compose(day: int, hour: int, minute: int, second: int, millis: int): (r: int)
    ensures FieldsInRange(hour, minute, second, millis) ==> day * DAY_MS <= r < day * DAY_MS + DAY_MS
  {
    day * DAY_MS + hour * HOUR_MS + minute * MINUTE_MS + second * SECOND_MS + millis
  }

  predicate FieldsInRange(hour: int, minute: int, second: int, millis: int)
  {
    0 <= hour < 24 && 0 <= minute < 60 && 0 <= second < 60 && 0 <= millis < 1000
  }

  /** The quotient and remainder of Euclidean division are the only ones with the remainder in range. */
  lemma DivModUnique(t: int, k: int, rem: int, m: int)
    requires m > 0 && 0 <= rem < m && t == k * m + rem
    ensures t / m == k && t % m == rem
  {
    var q := t / m;
    assert t == q * m + t % m;
    var x := k - q;
    assert x * m == k * m - q * m;
    assert x * m == t % m - rem;
    MulBounds(x, m);
  }

  /** A non-zero multiple of a positive number is at least that number in magnitude. */
  lemma MulBounds(x: int, m: int)
    requires m > 0
    ensures x >= 1 ==> x * m >= m
    ensures x <= -1 ==> x * m <= -m
  {
    if x >= 1 {
      assert x * m == (x - 1) * m + m;
      assert (x - 1) * m >= 0;
    } else if x <= -1 {
      assert -x * m == (-x - 1) * m + m;
      assert (-x - 1) * m >= 0;
    }
  }

  /** Every instant's fields are in range and compose back to that instant. */
  lemma Decompose(t: int)
    ensures FieldsInRange(HourOfDay(t), MinuteOfHour(t), SecondOfMinute(t), MillisOfSecond(t))
    ensures t == Compose(DayNumber(t), HourOfDay(t), MinuteOfHour(t), SecondOfMinute(t), MillisOfSecond(t))
  {
    var d, r1 := t / DAY_MS, t % DAY_MS;
    var h, r2 := r1 / HOUR_MS, r1 % HOUR_MS;
    assert 0 <= h < 24;
    DivModUnique(t, d * 24 + h, r2, HOUR_MS);
    var m, r3 := r2 / MINUTE_MS, r2 % MINUTE_MS;
    assert 0 <= m < 60;
    DivModUnique(t, (d * 24 + h) * 60 + m, r3, MINUTE_MS);
    var s, ms := r3 / SECOND_MS, r3 % SECOND_MS;
    assert 0 <= s < 60;
    DivModUnique(t, ((d * 24 + h) * 60 + m) * 60 + s, ms, SECOND_MS);
  }

  /** Reading the fields back from a composed instant gives the fields it was built from. */
  lemma ComposeFields(day: int, hour: int, minute: int, second: int, millis: int)
    requires FieldsInRange(hour, minute, second, millis)
    ensures var t := Compose(day, hour, minute, second, millis);
      DayNumber(t) == day && HourOfDay(t) == hour && MinuteOfHour(t) == minute
      && SecondOfMinute(t) == second && MillisOfSecond(t) == millis
  {
    var t := Compose(day, hour, minute, second, millis);
    var inMinute := second * SECOND_MS + millis;
    var inHour := minute * MINUTE_MS + inMinute;
    var inDay := hour * HOUR_MS + inHour;
    DivModUnique(t, day, inDay, DAY_MS);
    DivModUnique(inDay, hour, inHour, HOUR_MS);
    DivModUnique(t, day * 24 + hour, inHour, HOUR_MS);
    DivModUnique(inHour, minute, inMinute, MINUTE_MS);
    DivModUnique(t, (day * 24 + hour) * 60 + minute, inMinute, MINUTE_MS);
    DivModUnique(inMinute, second, millis, SECOND_MS);
    DivModUnique(t, ((day * 24 + hour) * 60 + minute) * 60 + second, millis, SECOND_MS);
  }

  /**
   * `timeOnDay(time, day)` in SampleScheduler.java: a calendar set to `day`
   * whose hour, minute and second are overwritten with those of `time`. The
   * date and the millisecond of `day` survive.
   */
  function TimeOnDay(time: int, day: int): (r: int)
    ensures DayNumber(r) == DayNumber(day)
    ensures MillisOfSecond(r) == MillisOfSecond(day)
    ensures HourOfDay(r) == HourOfDay(time)
    ensures MinuteOfHour(r) == MinuteOfHour(time)
    ensures SecondOfMinute(r) == SecondOfMinute(time)
    ensures Midnight(day) <= r < Midnight(day) + DAY_MS
  {
    Decompose(time);
    Decompose(day);
    ComposeFields(DayNumber(day), HourOfDay(time), MinuteOfHour(time), SecondOfMinute(time), MillisOfSecond(day));
    Compose(DayNumber(day), HourOfDay(time), MinuteOfHour(time), SecondOfMinute(time), MillisOfSecond(day))
  }

  /** An instant lies within the day that starts at its midnight. */
  lemma MidnightBounds(t: int)
    ensures Midnight(t) <= t < Midnight(t) + DAY_MS
  {
    assert t == DayNumber(t) * DAY_MS + t % DAY_MS;
  }

  /** Moving an instant by whole days changes its date and nothing else (`Calendar.add(DATE, 1)`). */
  lemma AddDayFields(t: int)
    ensures DayNumber(t + DAY_MS) == DayNumber(t) + 1
    ensures HourOfDay(t + DAY_MS) == HourOfDay(t)
    ensures MinuteOfHour(t + DAY_MS) == MinuteOfHour(t)
    ensures SecondOfMinute(t + DAY_MS) == SecondOfMinute(t)
    ensures MillisOfSecond(t + DAY_MS) == MillisOfSecond(t)
  {
    var u := t + DAY_MS;
    assert u % DAY_MS == t % DAY_MS;
    assert u == t + 24 * HOUR_MS;
    assert u % HOUR_MS == t % HOUR_MS;
    assert u == t + 1440 * MINUTE_MS;
    assert u % MINUTE_MS == t % MINUTE_MS;
    assert u == t + 86400 * SECOND_MS;
    assert u % SECOND_MS == t % SECOND_MS;
  }
}
