/**
 * The next-sample scheduler of the Android client (SampleScheduler.java):
 * a daily window [start, end) is cut into `samplesPerDay` equal slots, the
 * slot after a probe instant is chosen (rolling over to the next day's window
 * when the probe is in or past the last slot), an instant is drawn inside it,
 * and the single alarm is set to that instant or cancelled.
 *
 * Instants are local-time milliseconds (see LocalTime). Every `long` and
 * `int` operation of the source is written with its wrap-around, and the
 * lemmas show that for instants away from the ends of the `long` range
 * (SafeInstant) no wrap-around happens.
 */
module Scheduler {
  import opened Wrappers
  import opened JavaMath
  import opened LocalTime
  import opened Intervals

  /**
   * `PrefsVO`: the start and end of the daily window as `java.sql.Time`
   * instants (only their hour, minute and second are read) and the number of
   * slots per day.
   */
  datatype Prefs = Prefs(startTime: int, endTime: int, samplesPerDay: int)

  /** The unchecked exceptions the scheduler can raise. */
  datatype JavaError = ArithmeticException | NumberFormatException

  /** The request code of the one pending intent, hence of the one alarm. */
  const REQUEST_CODE: int := 0

  // ---------------------------------------------------------------------------
  // Java `long` and `int` operators
  // ---------------------------------------------------------------------------

  function LongAdd(a: int, b: int): (r: int)
    ensures IsLong(a + b) ==> r == a + b
  {
    Wrap64(a + b)
  }

  function LongSub(a: int, b: int): (r: int)
    ensures IsLong(a - b) ==> r == a - b
  {
    Wrap64(a - b)
  }

  function LongMul(a: int, b: int): (r: int)
    ensures IsLong(a * b) ==> r == a * b
  {
    Wrap64(a * b)
  }

  /** `long / long`; the only overflow is `Long.MIN_VALUE / -1`. */
  function LongDiv(a: int, b: int): (r: int)
    requires b != 0
    ensures IsLong(JavaDiv(a, b)) ==> r == JavaDiv(a, b)
  {
    Wrap64(JavaDiv(a, b))
  }

  function IntAdd(a: int, b: int): (r: int)
    ensures IsInt(a + b) ==> r == a + b
  {
    Wrap32(a + b)
  }

  // ---------------------------------------------------------------------------
  // getNextInterval
  // ---------------------------------------------------------------------------

  /** `start`: the window's start time of day on the probe's date. */
  function WindowStart(prefs: Prefs, probe: int): (r: int)
    ensures DayNumber(r) == DayNumber(probe)
    ensures HourOfDay(r) == HourOfDay(prefs.startTime) && MinuteOfHour(r) == MinuteOfHour(prefs.startTime)
    ensures SecondOfMinute(r) == SecondOfMinute(prefs.startTime) && MillisOfSecond(r) == MillisOfSecond(probe)
  {
    TimeOnDay(prefs.startTime, probe)
  }

  /** `end`: the window's end time of day on the probe's date. */
  function WindowEnd(prefs: Prefs, probe: int): (r: int)
    ensures DayNumber(r) == DayNumber(probe)
    ensures HourOfDay(r) == HourOfDay(prefs.endTime) && MinuteOfHour(r) == MinuteOfHour(prefs.endTime)
    ensures SecondOfMinute(r) == SecondOfMinute(prefs.endTime) && MillisOfSecond(r) == MillisOfSecond(probe)
  {
    TimeOnDay(prefs.endTime, probe)
  }

  /**
   * `duration`: the slot length, the window length divided (toward zero) by
   * the slot count. Both ends lie on the probe's date, so neither the
   * subtraction nor the division wraps, whatever the probe.
   */
  function Duration(prefs: Prefs, probe: int): (r: int)
    requires prefs.samplesPerDay != 0
    ensures r == JavaDiv(WindowEnd(prefs, probe) - WindowStart(prefs, probe), prefs.samplesPerDay)
    ensures Abs(r) < DAY_MS
  {
    var s, e := WindowStart(prefs, probe), WindowEnd(prefs, probe);
    assert Abs(e - s) < DAY_MS;
    QuotientAtMost(e - s, prefs.samplesPerDay);
    LongDiv(LongSub(WindowEnd(prefs, probe), WindowStart(prefs, probe)), prefs.samplesPerDay)
  }

  /** The rollover test: the probe lies in or after the last slot of its day's window. */
  predicate RollsOver(prefs: Prefs, probe: int)
    requires prefs.samplesPerDay != 0
    ensures IsLong(WindowEnd(prefs, probe) - Duration(prefs, probe)) ==>
      (RollsOver(prefs, probe) <==> probe >= WindowEnd(prefs, probe) - Duration(prefs, probe))
  {
    probe >= LongSub(WindowEnd(prefs, probe), Duration(prefs, probe))
  }

  /** `startMs` after the rollover test: the start of the window the slot is taken from. */
  function Base(prefs: Prefs, probe: int): int
    requires prefs.samplesPerDay != 0
  {
    if RollsOver(prefs, probe) then WindowStart(prefs, probe) + DAY_MS else WindowStart(prefs, probe)
  }

  /**
   * The base is the window's start time of day, on the probe's date or,
   * after the rollover, on the next one; its millisecond is the probe's.
   */
  lemma BaseFields(prefs: Prefs, probe: int)
    requires prefs.samplesPerDay != 0
    ensures var b := Base(prefs, probe);
      DayNumber(b) == DayNumber(probe) + (if RollsOver(prefs, probe) then 1 else 0)
      && HourOfDay(b) == HourOfDay(prefs.startTime) && MinuteOfHour(b) == MinuteOfHour(prefs.startTime)
      && SecondOfMinute(b) == SecondOfMinute(prefs.startTime) && MillisOfSecond(b) == MillisOfSecond(probe)
  {
    AddDayFields(WindowStart(prefs, probe));
  }

  /**
   * `getNextInterval(probeTime)`. Both divisions can throw: by
   * `samplesPerDay` when it is 0, and by `duration` when the window is
   * shorter than `samplesPerDay` milliseconds.
   */
  function NextInterval(prefs: Prefs, probe: int): (r: Result<Interval, JavaError>)
    ensures r.Err? <==> prefs.samplesPerDay == 0 || Duration(prefs, probe) == 0
    ensures r.Err? ==> r.error == ArithmeticException
    ensures r.Ok? ==> WellFormed(r.value)
  {
    if prefs.samplesPerDay == 0 then Err(ArithmeticException)
    else
      var duration := Duration(prefs, probe);
      var startMs := Base(prefs, probe);
      if duration == 0 then Err(ArithmeticException)
      else
        var slot := IntAdd(Wrap32(Max(LongDiv(LongSub(probe, startMs), duration), -1)), 1);
        Ok(Interval(LongAdd(startMs, LongMul(duration, slot)), LongAdd(startMs, LongMul(duration, IntAdd(slot, 1))), slot))
  }

  /** Instants at least eight days away from both ends of the `long` range. */
  predicate SafeInstant(t: int)
  {
    LONG_MIN + 8 * DAY_MS <= t <= LONG_MAX - 8 * DAY_MS
  }

  /** The slot number without wrap-around: one more than the truncated quotient, clamped below at 0. */
  function SlotNumber(offset: int, duration: int): (r: int)
    requires duration != 0
    ensures r >= 0
    ensures r == 0 <==> JavaDiv(offset, duration) < 0
  {
    Max(JavaDiv(offset, duration), -1) + 1
  }

  /** A truncated quotient is no larger in magnitude than its dividend. */
  lemma QuotientAtMost(a: int, b: int)
    requires b != 0
    ensures Abs(JavaDiv(a, b)) <= Abs(a)
    ensures Abs(JavaDiv(a, b)) * Abs(b) <= Abs(a)
  {
    var x: int, y: int := Abs(a), Abs(b);
    var m: int := x / y;
    assert x == m * y + x % y;
    assert m * y >= m by { MulAtLeast(y, m); }
  }

  /** The slot arithmetic of getNextInterval on an offset under two days and a duration under one day. */
  lemma SlotInRange(x: int, d: int)
    requires d != 0 && Abs(x) < 2 * DAY_MS && Abs(d) < DAY_MS
    ensures Abs(JavaDiv(x, d)) < 2 * DAY_MS
    ensures 0 <= SlotNumber(x, d) <= 2 * DAY_MS
    ensures Abs(d * SlotNumber(x, d)) < 3 * DAY_MS
    ensures Abs(d * (SlotNumber(x, d) + 1)) < 4 * DAY_MS
  {
    var q := JavaDiv(x, d);
    QuotientAtMost(x, d);
    var slot := Max(q, -1) + 1;
    var ad: int, aslot: int := Abs(d), Abs(slot);
    assert aslot <= Abs(q) + 1;
    assert Abs(q) * ad <= Abs(x);
    assert Abs(d * slot) == ad * aslot;
    assert ad * aslot <= ad * (Abs(q) + 1) by { MulMonotone(ad, aslot, Abs(q) + 1); }
    assert ad * (Abs(q) + 1) == Abs(q) * ad + ad by { MulSucc(ad, Abs(q)); }
    assert Abs(d * slot) < 3 * DAY_MS;
    assert d * (slot + 1) == d * slot + d;
  }

  lemma MulSucc(a: int, b: int)
    ensures a * (b + 1) == b * a + a
  {
  }

  lemma MulMonotone(a: nat, b: nat, c: nat)
    requires b <= c
    ensures a * b <= a * c
  {
    assert a * c == a * b + a * (c - b);
  }

  /** The window length, the duration and the offset of the probe from the base are all small. */
  lemma WindowInRange(prefs: Prefs, probe: int)
    requires SafeInstant(probe) && prefs.samplesPerDay != 0
    ensures var s, e := WindowStart(prefs, probe), WindowEnd(prefs, probe);
      var d := Duration(prefs, probe);
      Abs(e - s) < DAY_MS && d == JavaDiv(e - s, prefs.samplesPerDay) && Abs(d) < DAY_MS
      && (RollsOver(prefs, probe) <==> probe >= e - d)
      && Abs(probe - Base(prefs, probe)) < 2 * DAY_MS
  {
    var s, e := WindowStart(prefs, probe), WindowEnd(prefs, probe);
    var m := Midnight(probe);
    assert m <= s < m + DAY_MS && m <= e < m + DAY_MS;
    MidnightBounds(probe);
    assert Abs(e - s) < DAY_MS;
    QuotientAtMost(e - s, prefs.samplesPerDay);
    assert Abs(probe - Base(prefs, probe)) < 2 * DAY_MS;
  }

  /**
   * For a safe probe every `long` and `int` operation of getNextInterval
   * stays in range: the duration is the exact truncated quotient and the
   * result is `base + d * slot` up to `base + d * (slot + 1)`.
   */
  lemma NoOverflow(prefs: Prefs, probe: int)
    requires SafeInstant(probe) && prefs.samplesPerDay != 0
    ensures var d := Duration(prefs, probe);
      d == JavaDiv(WindowEnd(prefs, probe) - WindowStart(prefs, probe), prefs.samplesPerDay)
      && Abs(d) < DAY_MS
      && (RollsOver(prefs, probe) <==> probe >= WindowEnd(prefs, probe) - d)
      && (d != 0 ==>
        var b := Base(prefs, probe);
        var slot := SlotNumber(probe - b, d);
        NextInterval(prefs, probe) == Ok(Interval(b + d * slot, b + d * (slot + 1), slot)))
  {
    WindowInRange(prefs, probe);
    if Duration(prefs, probe) != 0 {
      IntervalInRange(prefs, probe);
    }
  }

  /** For a safe probe and a non-zero duration, the interval is `base + d * slot` up to `base + d * (slot + 1)`. */
  lemma IntervalInRange(prefs: Prefs, probe: int)
    requires SafeInstant(probe) && prefs.samplesPerDay != 0 && Duration(prefs, probe) != 0
    ensures var d := Duration(prefs, probe);
      var b := Base(prefs, probe);
      var slot := SlotNumber(probe - b, d);
      NextInterval(prefs, probe) == Ok(Interval(b + d * slot, b + d * (slot + 1), slot))
  {
    var b, d := Base(prefs, probe), Duration(prefs, probe);
    WindowInRange(prefs, probe);
    var slot := IntAdd(Wrap32(Max(LongDiv(LongSub(probe, b), d), -1)), 1);
    NextIntervalOfSlot(prefs, probe, b, d, slot);
    SlotOperations(probe, b, d);
  }

  /** getNextInterval with a non-zero duration, written out in its `long` and `int` operations. */
  lemma NextIntervalOfSlot(prefs: Prefs, probe: int, b: int, d: int, slot: int)
    requires prefs.samplesPerDay != 0 && d == Duration(prefs, probe) != 0 && b == Base(prefs, probe)
    requires slot == IntAdd(Wrap32(Max(LongDiv(LongSub(probe, b), d), -1)), 1)
    ensures NextInterval(prefs, probe) == Ok(Interval(LongAdd(b, LongMul(d, slot)), LongAdd(b, LongMul(d, IntAdd(slot, 1))), slot))
  {
  }

  /** The `long` and `int` operations computing the slot and its bounds, on a small offset and duration. */
  lemma SlotOperations(probe: int, b: int, d: int)
    requires SafeInstant(probe) && d != 0 && Abs(probe - b) < 2 * DAY_MS && Abs(d) < DAY_MS
    ensures var slot := IntAdd(Wrap32(Max(LongDiv(LongSub(probe, b), d), -1)), 1);
      slot == SlotNumber(probe - b, d)
      && LongAdd(b, LongMul(d, slot)) == b + d * slot
      && LongAdd(b, LongMul(d, IntAdd(slot, 1))) == b + d * (slot + 1)
  {
    SlotInRange(probe - b, d);
    var slot := SlotNumber(probe - b, d);
    assert LongSub(probe, b) == probe - b;
    assert LongDiv(probe - b, d) == JavaDiv(probe - b, d);
    assert IntAdd(Wrap32(Max(JavaDiv(probe - b, d), -1)), 1) == slot;
    assert IntAdd(slot, 1) == slot + 1;
    assert LongMul(d, slot) == d * slot;
    assert LongMul(d, slot + 1) == d * (slot + 1);
  }

  /** The slot number on a positive duration, by the position of the offset relative to the window start. */
  lemma SlotCases(x: int, d: int)
    requires d > 0
    ensures x <= -d ==> SlotNumber(x, d) == 0
    ensures -d < x < 0 ==> SlotNumber(x, d) == 1
    ensures x >= 0 ==> (SlotNumber(x, d) - 1) * d <= x < SlotNumber(x, d) * d
    ensures SlotNumber(x, d) >= 0 && SlotNumber(x, d) * d > x
  {
    var q := JavaDiv(x, d);
    if x <= -d {
      JavaDivNegative(x, d);
    } else if x < 0 {
      JavaDivNegative(x, d);
    } else {
      JavaDivNonNegative(x, d);
      assert x == q * d + x % d;
      assert (q + 1) * d == q * d + d;
    }
  }

  /**
   * The interval getNextInterval hands out, for a positive duration: it is
   * one duration long, starts `slot` durations after the base, and starts
   * strictly after the probe. A probe at least one duration before the base
   * gets slot 0; a probe less than one duration before it gets slot 1 (the
   * quotient truncates toward 0, so slot 0 is skipped); a probe in
   * `[base + k*d, base + (k+1)*d)` gets slot k+1.
   */
  lemma NextIntervalSlot(prefs: Prefs, probe: int)
    requires SafeInstant(probe) && prefs.samplesPerDay != 0 && Duration(prefs, probe) > 0
    ensures NextInterval(prefs, probe).Ok?
    ensures var i := NextInterval(prefs, probe).value;
      var b, d := Base(prefs, probe), Duration(prefs, probe);
      i.endTime - i.startTime == d
      && i.startTime == b + d * i.sequenceID
      && i.sequenceID >= 0
      && i.startTime > probe
      && (probe <= b - d ==> i.sequenceID == 0)
      && (b - d < probe < b ==> i.sequenceID == 1)
      && (b <= probe ==> b + (i.sequenceID - 1) * d <= probe < i.startTime)
  {
    var b, d := Base(prefs, probe), Duration(prefs, probe);
    IntervalInRange(prefs, probe);
    SlotPlacement(probe, b, d);
    assert SlotFacts(NextInterval(prefs, probe).value, probe, b, d);
  }

  /** The interval NextIntervalSlot describes, for a probe, a base and a duration. */
  predicate SlotFacts(i: Interval, probe: int, b: int, d: int)
  {
    i.endTime - i.startTime == d
    && i.startTime == b + d * i.sequenceID
    && i.sequenceID >= 0
    && i.startTime > probe
    && (probe <= b - d ==> i.sequenceID == 0)
    && (b - d < probe < b ==> i.sequenceID == 1)
    && (b <= probe ==> b + (i.sequenceID - 1) * d <= probe < i.startTime)
  }

  /** NextIntervalSlot on plain numbers: the slot interval for a probe, a base and a positive duration. */
  lemma SlotPlacement(probe: int, b: int, d: int)
    requires d > 0
    ensures var slot := SlotNumber(probe - b, d);
      SlotFacts(Interval(b + d * slot, b + d * (slot + 1), slot), probe, b, d)
  {
    SlotCases(probe - b, d);
    var slot := SlotNumber(probe - b, d);
    assert d * (slot + 1) == d * slot + d;
    assert (slot - 1) * d == d * slot - d;
  }

  /**
   * The rollover: when the probe is at or past `end - duration` the base is
   * the window start on the next date, otherwise on the probe's date; in
   * both cases it has the start time's hour, minute and second and the
   * probe's millisecond.
   */
  lemma RolloverBase(prefs: Prefs, probe: int)
    requires SafeInstant(probe) && prefs.samplesPerDay != 0
    ensures var b := Base(prefs, probe);
      var rolled := probe >= WindowEnd(prefs, probe) - Duration(prefs, probe);
      (rolled ==> b == WindowStart(prefs, probe) + DAY_MS && DayNumber(b) == DayNumber(probe) + 1)
      && (!rolled ==> b == WindowStart(prefs, probe) && DayNumber(b) == DayNumber(probe))
      && HourOfDay(b) == HourOfDay(prefs.startTime)
      && MinuteOfHour(b) == MinuteOfHour(prefs.startTime)
      && SecondOfMinute(b) == SecondOfMinute(prefs.startTime)
      && MillisOfSecond(b) == MillisOfSecond(probe)
  {
    NoOverflow(prefs, probe);
    AddDayFields(WindowStart(prefs, probe));
  }

  /**
   * After a rollover the probe lies before the next day's window, so the slot
   * is 0 or 1, and it is 0 exactly when the probe is at least one duration
   * before the next day's start.
   */
  lemma RolloverSlot(prefs: Prefs, probe: int)
    requires SafeInstant(probe) && prefs.samplesPerDay != 0 && Duration(prefs, probe) > 0
    requires RollsOver(prefs, probe)
    ensures var i := NextInterval(prefs, probe).value;
      (i.sequenceID == 0 || i.sequenceID == 1)
      && (i.sequenceID == 0 <==> probe <= WindowStart(prefs, probe) + DAY_MS - Duration(prefs, probe))
  {
    NextIntervalSlot(prefs, probe);
    assert Base(prefs, probe) == WindowStart(prefs, probe) + DAY_MS;
    assert probe < Base(prefs, probe);
  }

  lemma MulStrictCancel(a: int, b: int, d: int)
    requires d > 0 && a * d < b * d
    ensures a < b
  {
  }

  /**
   * When the window divides exactly into `n >= 2` slots and the probe does
   * not roll over, the interval is one of that day's slots: its number is at
   * most `n - 1` and it lies inside the window.
   */
  lemma ExactSlotsStayInWindow(prefs: Prefs, probe: int)
    requires SafeInstant(probe) && prefs.samplesPerDay >= 2
    requires WindowStart(prefs, probe) < WindowEnd(prefs, probe)
    requires (WindowEnd(prefs, probe) - WindowStart(prefs, probe)) % prefs.samplesPerDay == 0
    requires !RollsOver(prefs, probe)
    ensures NextInterval(prefs, probe).Ok?
    ensures var i := NextInterval(prefs, probe).value;
      i.sequenceID <= prefs.samplesPerDay - 1
      && WindowStart(prefs, probe) <= i.startTime
      && i.endTime <= WindowEnd(prefs, probe)
  {
    var s, e, n := WindowStart(prefs, probe), WindowEnd(prefs, probe), prefs.samplesPerDay;
    NoOverflow(prefs, probe);
    var d := Duration(prefs, probe);
    ExactQuotient(e - s, n);
    assert Base(prefs, probe) == s;
    ExactSlotBound(probe, s, e, n, d);
  }

  lemma ExactQuotient(w: int, n: int)
    requires w > 0 && n > 0 && w % n == 0
    ensures w == n * JavaDiv(w, n) && JavaDiv(w, n) > 0
  {
    JavaDivNonNegative(w, n);
    assert w == (w / n) * n + w % n;
  }

  /** ExactSlotsStayInWindow on plain numbers: a window of `n` whole slots of length `d` starting at `s`. */
  lemma ExactSlotBound(probe: int, s: int, e: int, n: int, d: int)
    requires d > 0 && n >= 2 && e - s == n * d && probe < e - d
    ensures var slot := SlotNumber(probe - s, d);
      0 <= slot <= n - 1 && s <= s + d * slot && s + d * (slot + 1) <= e
  {
    SlotCases(probe - s, d);
    SlotBoundPieces(probe - s, SlotNumber(probe - s, d), n, d);
  }

  /** ExactSlotBound on a slot number k known only through the bounds SlotCases gives. */
  lemma SlotBoundPieces(x: int, k: int, n: int, d: int)
    requires d > 0 && n >= 2 && x < n * d - d && k >= 0
    requires x >= 0 ==> (k - 1) * d <= x
    requires x < 0 ==> k <= 1
    ensures 0 <= k <= n - 1 && d * (k + 1) <= n * d && d * k >= 0
  {
    assert (n - 1) * d == n * d - d;
    if x >= 0 {
      assert (k - 1) * d < (n - 1) * d;
      MulStrictCancel(k - 1, n - 1, d);
    }
    MulMonotone(d, k + 1, n);
  }

  // ---------------------------------------------------------------------------
  // The scheduler tests' window: 08:00 to 22:00 on 1 January 2009
  // ---------------------------------------------------------------------------

  /** 1 January 2009 as a day number (days since 1 January 1970). */
  const JAN_1_2009: int := 14245

  /** The local instant `day` at hh:mm. */
  function At(day: int, hh: int, mm: int): int
  {
    day * DAY_MS + hh * HOUR_MS + mm * MINUTE_MS
  }

  /** Setting the clock of `t` to h:m:00 gives h:m on t's date, plus t's millisecond. */
  lemma TimeOnDayAt(other: int, h: int, m: int, t: int)
    requires 0 <= h < 24 && 0 <= m < 60
    ensures TimeOnDay(At(other, h, m), t) == At(DayNumber(t), h, m) + MillisOfSecond(t)
  {
    ComposeFields(other, h, m, 0, 0);
    assert At(other, h, m) == Compose(other, h, m, 0, 0);
  }

  /** `TestUtils.makePrefs`: always 08:00 to 22:00, whatever window it is asked for. */
  function TestPrefs(samplesPerDay: int): Prefs
  {
    Prefs(At(JAN_1_2009, 8, 0), At(JAN_1_2009, 22, 0), samplesPerDay)
  }

  /**
   * `testIntervalVO`, with the zone offset taken as 0 so that local and
   * epoch milliseconds agree: equal intervals are equal and hash alike, and
   * a different sequence number or a start one minute later makes both
   * `equals` and `hashCode` differ.
   */
  lemma IntervalValueObjects()
    ensures var vo1 := Interval(At(JAN_1_2009, 8, 0), At(JAN_1_2009, 10, 0), 0);
      var vo2 := Interval(At(JAN_1_2009, 8, 0), At(JAN_1_2009, 10, 0), 0);
      var vo3 := Interval(At(JAN_1_2009, 8, 0), At(JAN_1_2009, 10, 0), 1);
      var vo4 := Interval(At(JAN_1_2009, 8, 1), At(JAN_1_2009, 10, 0), 0);
      Equals(vo1, Some(vo2)) && HashCode(vo1) == HashCode(vo2)
      && !Equals(vo1, Some(vo3)) && HashCode(vo1) != HashCode(vo3)
      && !Equals(vo1, Some(vo4)) && HashCode(vo1) != HashCode(vo4)
  {
    var vo1 := Interval(At(JAN_1_2009, 8, 0), At(JAN_1_2009, 10, 0), 0);
    var vo3 := Interval(At(JAN_1_2009, 8, 0), At(JAN_1_2009, 10, 0), 1);
    var vo4 := Interval(At(JAN_1_2009, 8, 1), At(JAN_1_2009, 10, 0), 0);
    HashSeparatesSequence(vo1, vo3);
    assert At(JAN_1_2009, 8, 0) == 1_230_796_800_000 && At(JAN_1_2009, 8, 1) == 1_230_796_860_000;
    MinuteApartHashes();
    HashSeparatesStart(vo1, vo4);
  }

  /** `testGetNextInterval`: a probe at 08:53 gets slot 1, 10:00 to 12:00. */
  lemma ProbeInsideWindow()
    ensures NextInterval(TestPrefs(7), At(JAN_1_2009, 8, 53))
         == Ok(Interval(At(JAN_1_2009, 10, 0), At(JAN_1_2009, 12, 0), 1))
  {
    var prefs, probe := TestPrefs(7), At(JAN_1_2009, 8, 53);
    assert DayNumber(probe) == JAN_1_2009 && MillisOfSecond(probe) == 0;
    TimeOnDayAt(JAN_1_2009, 8, 0, probe);
    TimeOnDayAt(JAN_1_2009, 22, 0, probe);
    NoOverflow(prefs, probe);
    assert Duration(prefs, probe) == 2 * HOUR_MS;
    assert Base(prefs, probe) == At(JAN_1_2009, 8, 0);
    NextIntervalSlot(prefs, probe);
    assert NextInterval(prefs, probe).value.sequenceID == 1;
  }

  /** `testGetNextIntervalTomorrow`: a probe at 21:53 rolls over to slot 0 of the next day, 08:00 to 10:00. */
  lemma ProbeInLastSlot()
    ensures NextInterval(TestPrefs(7), At(JAN_1_2009, 21, 53))
         == Ok(Interval(At(JAN_1_2009 + 1, 8, 0), At(JAN_1_2009 + 1, 10, 0), 0))
  {
    var prefs, probe := TestPrefs(7), At(JAN_1_2009, 21, 53);
    assert DayNumber(probe) == JAN_1_2009 && MillisOfSecond(probe) == 0;
    TimeOnDayAt(JAN_1_2009, 8, 0, probe);
    TimeOnDayAt(JAN_1_2009, 22, 0, probe);
    NoOverflow(prefs, probe);
    assert Duration(prefs, probe) == 2 * HOUR_MS;
    assert Base(prefs, probe) == At(JAN_1_2009 + 1, 8, 0);
    NextIntervalSlot(prefs, probe);
    assert NextInterval(prefs, probe).value.sequenceID == 0;
  }

  /**
   * `testGetNextIntervalYesterday`: a probe at 07:53, seven minutes before the
   * window, gets slot 1, 10:00 to 12:00, not slot 0 at 08:00.
   */
  lemma ProbeBeforeWindow()
    ensures NextInterval(TestPrefs(7), At(JAN_1_2009, 7, 53))
         == Ok(Interval(At(JAN_1_2009, 10, 0), At(JAN_1_2009, 12, 0), 1))
  {
    var prefs, probe := TestPrefs(7), At(JAN_1_2009, 7, 53);
    assert DayNumber(probe) == JAN_1_2009 && MillisOfSecond(probe) == 0;
    TimeOnDayAt(JAN_1_2009, 8, 0, probe);
    TimeOnDayAt(JAN_1_2009, 22, 0, probe);
    NoOverflow(prefs, probe);
    assert Duration(prefs, probe) == 2 * HOUR_MS;
    assert Base(prefs, probe) == At(JAN_1_2009, 8, 0);
    NextIntervalSlot(prefs, probe);
    assert NextInterval(prefs, probe).value.sequenceID == 1;
  }

  /** One slot a day and a probe just before the window: slot 1 runs from 22:00 into the next day. */
  lemma SingleSlotOverrun()
    ensures NextInterval(TestPrefs(1), At(JAN_1_2009, 7, 53))
         == Ok(Interval(At(JAN_1_2009, 22, 0), At(JAN_1_2009 + 1, 12, 0), 1))
  {
    var prefs, probe := TestPrefs(1), At(JAN_1_2009, 7, 53);
    assert DayNumber(probe) == JAN_1_2009 && MillisOfSecond(probe) == 0;
    TimeOnDayAt(JAN_1_2009, 8, 0, probe);
    TimeOnDayAt(JAN_1_2009, 22, 0, probe);
    NoOverflow(prefs, probe);
    assert Duration(prefs, probe) == 14 * HOUR_MS;
    assert Base(prefs, probe) == At(JAN_1_2009, 8, 0);
    NextIntervalSlot(prefs, probe);
    assert NextInterval(prefs, probe).value.sequenceID == 1;
  }

  /**
   * One slot a day and a probe at 19:00: the probe rolls over, lies less than
   * one duration before the next day's start, and gets slot 1, which begins
   * at 22:00 the next day, after that day's window.
   */
  lemma SingleSlotLateRollover()
    ensures NextInterval(TestPrefs(1), At(JAN_1_2009, 19, 0))
         == Ok(Interval(At(JAN_1_2009 + 1, 22, 0), At(JAN_1_2009 + 2, 12, 0), 1))
  {
    var prefs, probe := TestPrefs(1), At(JAN_1_2009, 19, 0);
    assert DayNumber(probe) == JAN_1_2009 && MillisOfSecond(probe) == 0;
    TimeOnDayAt(JAN_1_2009, 8, 0, probe);
    TimeOnDayAt(JAN_1_2009, 22, 0, probe);
    NoOverflow(prefs, probe);
    assert Duration(prefs, probe) == 14 * HOUR_MS;
    assert Base(prefs, probe) == At(JAN_1_2009 + 1, 8, 0);
    NextIntervalSlot(prefs, probe);
    assert NextInterval(prefs, probe).value.sequenceID == 1;
  }

  /**
   * 79 slots do not divide the 14-hour window (637 974 ms each, 54 ms left
   * over): a probe at 21:49:22 does not roll over and gets slot 79, one past
   * the last, which ends after 22:00.
   */
  lemma InexactSlotsOverrun()
    ensures var i := NextInterval(TestPrefs(79), At(JAN_1_2009, 8, 0) + 49_762_000);
      i == Ok(Interval(At(JAN_1_2009, 8, 0) + 79 * 637_974, At(JAN_1_2009, 8, 0) + 80 * 637_974, 79))
      && i.value.endTime > At(JAN_1_2009, 22, 0)
  {
    var prefs, probe := TestPrefs(79), At(JAN_1_2009, 8, 0) + 49_762_000;
    assert DayNumber(probe) == JAN_1_2009 && MillisOfSecond(probe) == 0;
    TimeOnDayAt(JAN_1_2009, 8, 0, probe);
    TimeOnDayAt(JAN_1_2009, 22, 0, probe);
    NoOverflow(prefs, probe);
    assert Duration(prefs, probe) == 637_974;
    assert Base(prefs, probe) == At(JAN_1_2009, 8, 0);
    NextIntervalSlot(prefs, probe);
    assert NextInterval(prefs, probe).value.sequenceID == 79;
  }

  // ---------------------------------------------------------------------------
  // randomLong and getNextSampleTime
  // ---------------------------------------------------------------------------

  /** Two `long`s whose wrapped difference is 0 are equal. */
  lemma WrappedDifferenceZero(a: int, b: int)
    requires IsLong(a) && IsLong(b)
    ensures LongSub(a, b) == 0 <==> a == b
  {
    var x := a - b;
    var t := (x - LONG_MIN) / 0x1_0000_0000_0000_0000;
    assert x - LONG_MIN == t * 0x1_0000_0000_0000_0000 + (x - LONG_MIN) % 0x1_0000_0000_0000_0000;
    if LongSub(a, b) == 0 {
      assert x == t * 0x1_0000_0000_0000_0000;
      assert -1 < t < 1;
    }
  }

  /**
   * `randomLong(min, max)` with `draw` standing for `sRandom.nextLong()`:
   * `min + Math.abs(draw) % (max - min)` in `long` arithmetic. An empty range
   * is a division by zero.
   */
  function RandomLong(min: int, max: int, draw: int): (r: Result<int, JavaError>)
    requires IsLong(min) && IsLong(max) && IsLong(draw)
    ensures r.Err? <==> min == max
    ensures r.Err? ==> r.error == ArithmeticException
    ensures r.Ok? ==> IsLong(r.value)
  {
    WrappedDifferenceZero(max, min);
    var range := LongSub(max, min);
    var val := AbsLong(draw);
    if range == 0 then Err(ArithmeticException)
    else Ok(LongAdd(min, JavaRem(val, range)))
  }

  /**
   * For a range that fits in a `long` and any draw but `Long.MIN_VALUE`, the
   * value lies in `[min, max)`, at the draw's magnitude modulo the range.
   */
  lemma RandomLongInRange(min: int, max: int, draw: int)
    requires IsLong(min) && IsLong(max) && IsLong(draw) && draw != LONG_MIN
    requires min < max && max - min <= LONG_MAX
    ensures RandomLong(min, max, draw).Ok?
    ensures var t := RandomLong(min, max, draw).value;
      min <= t < max && t - min == Abs(draw) % (max - min)
  {
  }

  /** Every value of the range is drawn by some draw: the offset from `min` itself. */
  lemma RandomLongReachesAll(min: int, max: int, t: int)
    requires IsLong(min) && IsLong(max) && min <= t < max && max - min <= LONG_MAX
    ensures RandomLong(min, max, t - min) == Ok(t)
  {
    var range, offset := max - min, t - min;
    assert LongSub(max, min) == range && AbsLong(offset) == offset;
    DivModUnique(offset, 0, offset, range);
    assert JavaRem(offset, range) == offset;
  }

  /**
   * The draw `Long.MIN_VALUE` keeps its sign under `Math.abs`, so its
   * remainder is zero or negative and the value is at or below `min`.
   */
  lemma RandomLongMinimumDraw(min: int, max: int)
    requires IsLong(min) && IsLong(max) && min < max && LONG_MIN + (max - min) <= min
    ensures RandomLong(min, max, LONG_MIN).Ok?
    ensures var t := RandomLong(min, max, LONG_MIN).value;
      min - (max - min) < t <= min
  {
    assert AbsLong(LONG_MIN) == LONG_MIN;
  }

  /** The smallest example: `randomLong(0, 3)` with draw `Long.MIN_VALUE` gives -2. */
  lemma RandomLongMinimumDrawExample()
    ensures RandomLong(0, 3, LONG_MIN) == Ok(-2)
  {
    assert AbsLong(LONG_MIN) == LONG_MIN;
    assert Abs(LONG_MIN) % 3 == 2;
    assert JavaRem(LONG_MIN, 3) == -2;
  }

  /**
   * `getNextSampleTime(probeTime)`: no time (null) when there are no
   * alarms, otherwise a random instant of the next interval. Exceptions of
   * getNextInterval and randomLong propagate.
   */
  function NextSampleTime(prefs: Prefs, probe: int, draw: int): (r: Result<Option<int>, JavaError>)
    requires IsLong(draw)
    ensures r == Ok(None) <==> prefs.samplesPerDay == 0
    ensures r.Err? ==> r.error == ArithmeticException
  {
    if prefs.samplesPerDay == 0 then Ok(None)
    else match NextInterval(prefs, probe)
      case Err(e) => Err(e)
      case Ok(i) =>
        match RandomLong(i.startTime, i.endTime, draw)
        case Err(e) => Err(e)
        case Ok(t) => Ok(Some(t))
  }

  /**
   * The sample time lies in the next interval, from its start inclusive to
   * its end exclusive, so `containsTimestamp` holds of it unless it is the
   * start itself.
   */
  lemma SampleInNextInterval(prefs: Prefs, probe: int, draw: int)
    requires SafeInstant(probe) && prefs.samplesPerDay != 0 && Duration(prefs, probe) > 0
    requires IsLong(draw) && draw != LONG_MIN
    ensures NextSampleTime(prefs, probe, draw).Ok? && NextSampleTime(prefs, probe, draw).value.Some?
    ensures var i := NextInterval(prefs, probe).value;
      var t := NextSampleTime(prefs, probe, draw).value.value;
      i.startTime <= t < i.endTime && (ContainsTimestamp(i, t) <==> t != i.startTime)
  {
    NextIntervalSlot(prefs, probe);
    NoOverflow(prefs, probe);
    var i := NextInterval(prefs, probe).value;
    RandomLongInRange(i.startTime, i.endTime, draw);
  }

  /**
   * A draw of 0 lands on the start of the interval, which `containsTimestamp`
   * excludes: the containment `testRandomInInterval` asserts does not hold
   * for every draw.
   */
  lemma ZeroDrawNotContained(prefs: Prefs, probe: int)
    requires SafeInstant(probe) && prefs.samplesPerDay != 0 && Duration(prefs, probe) > 0
    ensures var i := NextInterval(prefs, probe).value;
      NextSampleTime(prefs, probe, 0) == Ok(Some(i.startTime)) && !ContainsTimestamp(i, i.startTime)
  {
    SampleInNextInterval(prefs, probe, 0);
  }

  // ---------------------------------------------------------------------------
  // readPrefs
  // ---------------------------------------------------------------------------

  const START_TIME_KEY: string := "Start time"
  const END_TIME_KEY: string := "End time"
  const FREQUENCY_KEY: string := "Frequency"

  /** `SharedPreferences.getString(key, default)`. */
  function GetString(settings: map<string, string>, key: string, default: string): (v: string)
    ensures key in settings ==> v == settings[key]
    ensures key !in settings ==> v == default
  {
    if key in settings then settings[key] else default
  }

  /** The time `s` denotes, or the fallback when `SimpleDateFormat("HHmm")` cannot parse it. */
  function TimeOrElse(parseTime: string -> Option<int>, s: string, fallback: int): (r: int)
    ensures parseTime(s).Some? ==> Some(r) == parseTime(s)
    ensures parseTime(s).None? ==> r == fallback
  {
    match parseTime(s)
    case Some(t) => t
    case None => fallback
  }

  /**
   * `readPrefs(context)`: two times parsed with fallbacks (`new Time(8, 0, 0)`
   * and `new Time(20, 0, 0)`, i.e. 08:00 and 20:00 on 1 January 1970) and a
   * frequency parsed by `Integer.parseInt`, whose NumberFormatException is
   * not caught.
   */
  function ReadPrefs(settings: map<string, string>, parseTime: string -> Option<int>): (r: Result<Prefs, JavaError>)
    ensures r.Err? ==> r.error == NumberFormatException
    ensures FREQUENCY_KEY !in settings ==> r.Ok? && r.value.samplesPerDay == 4
  {
    assert ParseInt("4") == Some(4);
    var startTime := TimeOrElse(parseTime, GetString(settings, START_TIME_KEY, "0800"), 8 * HOUR_MS);
    var endTime := TimeOrElse(parseTime, GetString(settings, END_TIME_KEY, "2000"), 20 * HOUR_MS);
    match ParseInt(GetString(settings, FREQUENCY_KEY, "4"))
    case None => Err(NumberFormatException)
    case Some(n) => Ok(Prefs(startTime, endTime, n))
  }

  /** With nothing stored, the defaults "0800", "2000" and "4" are used. */
  lemma ReadPrefsDefaults(parseTime: string -> Option<int>)
    ensures ReadPrefs(map[], parseTime)
         == Ok(Prefs(TimeOrElse(parseTime, "0800", 8 * HOUR_MS), TimeOrElse(parseTime, "2000", 20 * HOUR_MS), 4))
  {
    assert ParseInt("4") == Some(4);
  }

  /**
   * A start or end time that cannot be parsed falls back to 08:00:00 or
   * 20:00:00, and the frequency is still read.
   */
  lemma ReadPrefsTimeFallback(settings: map<string, string>, parseTime: string -> Option<int>)
    requires ReadPrefs(settings, parseTime).Ok?
    ensures var p := ReadPrefs(settings, parseTime).value;
      (parseTime(GetString(settings, START_TIME_KEY, "0800")).None? ==> p.startTime == 8 * HOUR_MS && HourOfDay(p.startTime) == 8)
      && (parseTime(GetString(settings, END_TIME_KEY, "2000")).None? ==> p.endTime == 20 * HOUR_MS && HourOfDay(p.endTime) == 20)
  {
  }

  /**
   * For any settings, each time is the stored string parsed, or its default
   * string "0800" or "2000" parsed when nothing is stored, with 08:00:00 or
   * 20:00:00 when parsing fails. A stored time that parses is used as is.
   */
  lemma ReadPrefsTimes(settings: map<string, string>, parseTime: string -> Option<int>)
    requires ReadPrefs(settings, parseTime).Ok?
    ensures var p := ReadPrefs(settings, parseTime).value;
      p.startTime == TimeOrElse(parseTime, GetString(settings, START_TIME_KEY, "0800"), 8 * HOUR_MS)
      && p.endTime == TimeOrElse(parseTime, GetString(settings, END_TIME_KEY, "2000"), 20 * HOUR_MS)
    ensures START_TIME_KEY in settings && parseTime(settings[START_TIME_KEY]).Some? ==>
      Some(ReadPrefs(settings, parseTime).value.startTime) == parseTime(settings[START_TIME_KEY])
    ensures END_TIME_KEY in settings && parseTime(settings[END_TIME_KEY]).Some? ==>
      Some(ReadPrefs(settings, parseTime).value.endTime) == parseTime(settings[END_TIME_KEY])
    ensures START_TIME_KEY !in settings ==>
      ReadPrefs(settings, parseTime).value.startTime == TimeOrElse(parseTime, "0800", 8 * HOUR_MS)
    ensures END_TIME_KEY !in settings ==>
      ReadPrefs(settings, parseTime).value.endTime == TimeOrElse(parseTime, "2000", 20 * HOUR_MS)
  {
  }

  /** A stored frequency is read back as the number it prints; a malformed one raises. */
  lemma ReadPrefsFrequency(settings: map<string, string>, parseTime: string -> Option<int>, n: int)
    requires FREQUENCY_KEY in settings
    ensures IsInt(n) && settings[FREQUENCY_KEY] == IntToString(n) ==>
      ReadPrefs(settings, parseTime).Ok? && ReadPrefs(settings, parseTime).value.samplesPerDay == n
    ensures ParseInt(settings[FREQUENCY_KEY]).None? <==> ReadPrefs(settings, parseTime) == Err(NumberFormatException)
  {
    if IsInt(n) && settings[FREQUENCY_KEY] == IntToString(n) {
      ParseIntRoundTrip(n);
    }
  }

  /** "four" is not a number: the exception escapes readPrefs. */
  lemma ReadPrefsMalformedFrequency(parseTime: string -> Option<int>)
    ensures ReadPrefs(map[FREQUENCY_KEY := "four"], parseTime) == Err(NumberFormatException)
  {
    assert !IsDigit("four"[0]);
  }

  // ---------------------------------------------------------------------------
  // The alarm and scheduleNextSample
  // ---------------------------------------------------------------------------

  /**
   * The system alarm manager, reduced to the one alarm of the scheduler's
   * pending intent (`REQUEST_CODE`): its trigger time, if set, and the
   * `SCHEDULED_AT` extra that the pending intent carries. A matching pending
   * intent is taken to exist exactly while the alarm is set; the extra is
   * fixed when the pending intent is created.
   */
  class AlarmService {
    var alarm: Option<int>
    var scheduledAt: int

    constructor(alarm: Option<int>, scheduledAt: int)
      ensures this.alarm == alarm && this.scheduledAt == scheduledAt
    {
      this.alarm := alarm;
      this.scheduledAt := scheduledAt;
    }

    /**
     * `PendingIntent.getBroadcast(context, REQUEST_CODE, intent, 0)`: with no
     * flags, an existing matching pending intent is handed back unchanged, so
     * the extra of the new intent is dropped; only when none exists is one
     * created, carrying that extra. Returns the extra the pending intent carries.
     */
    method GetBroadcast(extra: int) returns (carried: int)
      modifies this
      ensures carried == if old(alarm).Some? then old(scheduledAt) else extra
      ensures alarm == old(alarm) && scheduledAt == carried
    {
      if alarm.None? {
        scheduledAt := extra;
      }
      carried := scheduledAt;
    }

    /** `AlarmManager.set(RTC_WAKEUP, t, pendingIntent)`: replaces any earlier alarm of the same intent. */
    method Set(t: int)
      modifies this
      ensures alarm == Some(t) && scheduledAt == old(scheduledAt)
    {
      alarm := Some(t);
    }

    /** `AlarmManager.cancel(pendingIntent)`. */
    method Cancel()
      modifies this
      ensures alarm == None && scheduledAt == old(scheduledAt)
    {
      alarm := None;
    }
  }

  /** `SampleScheduler`: the preferences it was built with and the alarm service of its context. */
  class SampleScheduler {
    const prefs: Prefs
    const alarms: AlarmService

    /** `SampleScheduler(context, prefs)`. */
    constructor(prefs: Prefs, alarms: AlarmService)
      ensures this.prefs == prefs && this.alarms == alarms
    {
      this.prefs := prefs;
      this.alarms := alarms;
    }

    /** `noAlarms()`: a frequency of zero switches sampling off. */
    predicate NoAlarms()
      ensures NoAlarms() <==> forall probe: int, draw: int :: IsLong(draw) ==> NextSampleTime(prefs, probe, draw) == Ok(None)
    {
      assert NextSampleTime(prefs, 0, 0) == Ok(None) <==> prefs.samplesPerDay == 0;
      prefs.samplesPerDay == 0
    }

    /**
     * `scheduleNextSample(probeTime)`: with no alarms, cancels the alarm
     * (the new intent carrying -1) and returns null; otherwise sets the alarm
     * to the next sample time, replacing any earlier one, and returns that
     * time. While an alarm is pending its pending intent is reused, so the
     * extra it delivers stays the one of the earlier schedule. An exception
     * from getNextSampleTime leaves the alarm untouched.
     */
    method ScheduleNextSample(probe: int, draw: int) returns (r: Result<Option<int>, JavaError>)
      requires IsLong(draw)
      modifies alarms
      ensures NoAlarms() ==>
        r == Ok(None) && alarms.alarm == None &&
        alarms.scheduledAt == if old(alarms.alarm).Some? then old(alarms.scheduledAt) else -1
      ensures !NoAlarms() ==> r == NextSampleTime(prefs, probe, draw)
      ensures r.Err? ==> unchanged(alarms)
      ensures r.Ok? && r.value.Some? ==>
        alarms.alarm == r.value &&
        alarms.scheduledAt == if old(alarms.alarm).Some? then old(alarms.scheduledAt) else r.value.value
      ensures !NoAlarms() && SafeInstant(probe) && Duration(prefs, probe) > 0 && draw != LONG_MIN ==>
        var i := NextInterval(prefs, probe).value;
        alarms.alarm.Some? && i.startTime <= alarms.alarm.value < i.endTime
    {
      var schedule := NextSampleTime(prefs, probe, draw);
      if !NoAlarms() && SafeInstant(probe) && Duration(prefs, probe) > 0 && draw != LONG_MIN {
        SampleInNextInterval(prefs, probe, draw);
      }
      if schedule.Err? {
        return Err(schedule.error);
      }
      var extra := if NoAlarms() then -1 else schedule.value.value;
      var carried := alarms.GetBroadcast(extra);
      if NoAlarms() {
        alarms.Cancel();
        r := Ok(None);
      } else {
        alarms.Set(schedule.value.value);
        r := schedule;
      }
    }
  }
}
