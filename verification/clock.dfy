/**
 * Time arithmetic of src/services/scheduler.js (lines 1-44): shift-type
 * classification, minutes since midnight and durations with overnight wrap.
 *
 * A station's time text such as "0600-1400" is split on '-' and each half
 * read with `parseInt`; `TimeRange` holds those two integers. Because the
 * split removes every '-', a half never carries a sign, so each is a `nat`.
 */
module Clock {

  datatype TimeRange = TimeRange(start: nat, end: nat)

  const MinutesPerDay: nat := 24 * 60

  /** An HHMM integer whose hour is below 24 and whose minute is below 60. */
  predicate ValidHhmm(t: nat)
  {
    t / 100 < 24 && t % 100 < 60
  }

  predicate Valid(r: TimeRange)
  {
    ValidHhmm(r.start) && ValidHhmm(r.end)
  }

  /** `Math.floor(t / 100) * 60 + t % 100`; a minute of the day for a valid HHMM value. */
  function MinutesOfDay(t: nat): (m: nat)
    ensures ValidHhmm(t) ==> m < MinutesPerDay
  {
    (t / 100) * 60 + t % 100
  }

  /** For a valid HHMM value the hour and minute can be read back from its minute of the day. */
  lemma MinutesOfDayRoundTrip(t: nat)
    requires ValidHhmm(t)
    ensures MinutesOfDay(t) / 60 == t / 100 && MinutesOfDay(t) % 60 == t % 100
    ensures (MinutesOfDay(t) / 60) * 100 + MinutesOfDay(t) % 60 == t
  {
    var h := t / 100;
    var mm := t % 100;
    assert MinutesOfDay(t) == 60 * h + mm;
  }

  /** getShiftStartInMinutes */
  function StartMinutes(r: TimeRange): nat
  {
    MinutesOfDay(r.start)
  }

  /** getShiftEndInMinutes */
  function EndMinutes(r: TimeRange): nat
  {
    MinutesOfDay(r.end)
  }

  /**
   * The distance from minute `a` forward to minute `b`, adding a day when
   * the plain difference is negative (the source does this both for a
   * shift's duration and for the rest gap).
   */
  function Forward(a: nat, b: nat): (d: int)
    ensures a < MinutesPerDay && b < MinutesPerDay ==> 0 <= d < MinutesPerDay
    ensures d == b - a || d == b - a + MinutesPerDay
    ensures a <= b ==> d == b - a
  {
    var diff := b - a;
    if diff < 0 then diff + MinutesPerDay else diff
  }

  /**
   * For minutes of the day, `Forward(a, b)` is the one value in [0, 1440)
   * that carries `a` to `b` round the clock.
   */
  lemma ForwardIsClockDistance(a: nat, b: nat, d: int)
    requires a < MinutesPerDay && b < MinutesPerDay
    requires 0 <= d < MinutesPerDay
    ensures (a + d) % MinutesPerDay == b <==> d == Forward(a, b)
  {
    if a + d < MinutesPerDay {
      assert (a + d) % MinutesPerDay == a + d;
    } else {
      assert (a + d) % MinutesPerDay == a + d - MinutesPerDay;
    }
  }

  /** getShiftDurationInHours, in minutes. */
  function DurationMinutes(r: TimeRange): (d: int)
    ensures Valid(r) ==> 0 <= d < MinutesPerDay
    ensures EndMinutes(r) >= StartMinutes(r) ==> d == EndMinutes(r) - StartMinutes(r)
    ensures EndMinutes(r) < StartMinutes(r) ==> d == EndMinutes(r) - StartMinutes(r) + MinutesPerDay
    ensures r.start == r.end ==> d == 0
  {
    Forward(StartMinutes(r), EndMinutes(r))
  }

  /**
   * getShiftDurationInHours as the source computes it, in exact real
   * arithmetic: the difference in hours, plus 24 when negative.
   */
  function DurationHours(r: TimeRange): (h: real)
    ensures h == DurationMinutes(r) as real / 60.0
    ensures Valid(r) ==> 0.0 <= h < 24.0
  {
    var hours := (EndMinutes(r) - StartMinutes(r)) as real / 60.0;
    if hours < 0.0 then hours + 24.0 else hours
  }

  /** Minutes from the end of `prev` forward to the start of `next` (lines 89-93). */
  function RestMinutes(prev: TimeRange, next: TimeRange): (g: int)
    ensures Valid(prev) && Valid(next) ==> 0 <= g < MinutesPerDay
    ensures StartMinutes(next) >= EndMinutes(prev) ==> g == StartMinutes(next) - EndMinutes(prev)
    ensures StartMinutes(next) < EndMinutes(prev) ==> g == StartMinutes(next) - EndMinutes(prev) + MinutesPerDay
  {
    Forward(EndMinutes(prev), StartMinutes(next))
  }

  datatype ShiftType = Early | Late | Night

  /** The strings getShiftType returns. */
  function ShiftTypeName(t: ShiftType): string
  {
    match t
    case Early => "Early"
    case Late => "Late"
    case Night => "Night"
  }

  /**
   * The lower-case form the allocator compares preferences against. This is
   * `Lower(ShiftTypeName(t))` written out (`Scheduler.ShiftTypeKeyIsLowerName`
   * proves the two agree), so that proofs need not lower-case the names.
   */
  function ShiftTypeKey(t: ShiftType): string
  {
    match t
    case Early => "early"
    case Late => "late"
    case Night => "night"
  }

  /** getShiftType: buckets the raw HHMM start at 600, 1400 and 2200. */
  function ShiftTypeOf(r: TimeRange): ShiftType
  {
    if 600 <= r.start < 1400 then Early
    else if 1400 <= r.start < 2200 then Late
    else Night
  }

  /**
   * For a valid start, the HHMM thresholds are the minute-of-day thresholds
   * 06:00, 14:00 and 22:00.
   */
  lemma ShiftTypeByMinutes(r: TimeRange)
    requires ValidHhmm(r.start)
    ensures ShiftTypeOf(r) == Early <==> 360 <= StartMinutes(r) < 840
    ensures ShiftTypeOf(r) == Late <==> 840 <= StartMinutes(r) < 1320
    ensures ShiftTypeOf(r) == Night <==> StartMinutes(r) < 360 || 1320 <= StartMinutes(r)
  {
  }

  /**
   * The weekly cap test of line 103, `hours + duration > 72`, read in exact
   * arithmetic, is the integer test on minutes that the model uses.
   */
  lemma CapTestInMinutes(totalMinutes: int, r: TimeRange)
    ensures (totalMinutes as real / 60.0 + DurationHours(r) > 72.0) <==> totalMinutes + DurationMinutes(r) > 72 * 60
  {
  }
}
