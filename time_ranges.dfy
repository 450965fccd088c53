/**
 * The query windows of the calendar fetch: `get_tomorrow_range`,
 * `get_this_week_range` and `get_next_week_range`.
 *
 * "Now" is a parameter. Local time is a fixed offset from UTC with no
 * daylight-saving changes, so every local day is exactly 86400 seconds and
 * converting a naive local datetime to an epoch timestamp subtracts the offset.
 */
module TimeRanges {

  const SecondsPerDay: int := 86400

  /** 1970-01-01, local day number 0, was a Thursday (weekday 3 with Monday = 0). */
  const EpochWeekday: int := 3

  /**
   * A reading of the process clock: `local` is the local wall-clock time in
   * seconds since 1970-01-01 00:00 local time; `utcOffset` is how many seconds
   * local time is ahead of UTC.
   */
  datatype Clock = Clock(local: int, utcOffset: int)

  /** A pair of epoch timestamps, as the range functions return them. */
  datatype TimeRange = TimeRange(start: int, end: int)

  /** The local day a local time falls on (floor division). */
  function DayNumber(t: int): int
  {
    t / SecondsPerDay
  }

  /** Seconds since local midnight. */
  function TimeOfDay(t: int): (r: int)
    ensures 0 <= r < SecondsPerDay
    ensures t == DayNumber(t) * SecondsPerDay + r
  {
    t % SecondsPerDay
  }

  /** `datetime.weekday()` of a local time: Monday = 0, ..., Sunday = 6. */
  function Weekday(t: int): (w: int)
    ensures 0 <= w < 7
  {
    (DayNumber(t) + EpochWeekday) % 7
  }

  /** The local midnight that starts the day of `t`. */
  function Midnight(t: int): (r: int)
    ensures r <= t < r + SecondsPerDay
    ensures TimeOfDay(r) == 0 && DayNumber(r) == DayNumber(t)
  {
    ShiftByDays(0, DayNumber(t));
    DayNumber(t) * SecondsPerDay
  }

  /** Naive local datetime to epoch seconds (`datetime.timestamp()` under a fixed offset). */
  function Timestamp(c: Clock, local: int): int
  {
    local - c.utcOffset
  }

  /** Shifting a local time by whole days moves its day number and keeps its time of day. */
  lemma ShiftByDays(t: int, k: int)
    ensures DayNumber(t + k * SecondsPerDay) == DayNumber(t) + k
    ensures TimeOfDay(t + k * SecondsPerDay) == TimeOfDay(t)
  {
    var q, r := DayNumber(t), TimeOfDay(t);
    assert t + k * SecondsPerDay == (q + k) * SecondsPerDay + r;
    DivModUnique(t + k * SecondsPerDay, q + k, r);
  }

  /** Floor division and remainder are determined by any decomposition with 0 <= r < divisor. */
  lemma DivModUnique(t: int, q: int, r: int)
    requires 0 <= r < SecondsPerDay && t == q * SecondsPerDay + r
    ensures DayNumber(t) == q && TimeOfDay(t) == r
  {
  }

  /** Shifting by whole days moves the weekday by the same number of days, modulo 7. */
  lemma WeekdayAfterShift(t: int, k: int)
    ensures Weekday(t + k * SecondsPerDay) == (Weekday(t) + k) % 7
  {
    ShiftByDays(t, k);
    var x := DayNumber(t) + EpochWeekday;
    assert x + k == 7 * (x / 7) + (x % 7 + k);
    ModShift(x % 7 + k, x / 7);
  }

  /** Adding a multiple of 7 does not change the remainder modulo 7. */
  lemma ModShift(y: int, n: int)
    ensures (7 * n + y) % 7 == y % 7
  {
  }

  /**
   * `get_tomorrow_range`: local midnight of the day after now, and one day later.
   * Only this range is truncated to midnight.
   */
  function TomorrowRange(c: Clock): (r: TimeRange)
    ensures r.end - r.start == SecondsPerDay
    ensures TimeOfDay(r.start + c.utcOffset) == 0
    ensures DayNumber(r.start + c.utcOffset) == DayNumber(c.local) + 1
  {
    ShiftByDays(c.local, 1);
    var start := Midnight(c.local + SecondsPerDay);
    var end := start + SecondsPerDay;
    TimeRange(Timestamp(c, start), Timestamp(c, end))
  }

  /**
   * `get_this_week_range`: now moved back to Monday of the current week, keeping
   * the time of day, and six days after that.
   */
  function ThisWeekRange(c: Clock): (r: TimeRange)
    ensures r.end - r.start == 6 * SecondsPerDay
    ensures Weekday(r.start + c.utcOffset) == 0
    ensures TimeOfDay(r.start + c.utcOffset) == TimeOfDay(c.local)
    ensures r.start + c.utcOffset <= c.local < r.start + c.utcOffset + 7 * SecondsPerDay
    ensures c.local - (r.start + c.utcOffset) == Weekday(c.local) * SecondsPerDay
  {
    var w := Weekday(c.local);
    ShiftByDays(c.local, -w);
    WeekdayAfterShift(c.local, -w);
    var start := c.local - w * SecondsPerDay;
    var end := start + 6 * SecondsPerDay;
    TimeRange(Timestamp(c, start), Timestamp(c, end))
  }

  /**
   * `get_next_week_range`: now moved forward to Monday of the following week,
   * keeping the time of day, and six days after that.
   */
  function NextWeekRange(c: Clock): (r: TimeRange)
    ensures r.end - r.start == 6 * SecondsPerDay
    ensures Weekday(r.start + c.utcOffset) == 0
    ensures TimeOfDay(r.start + c.utcOffset) == TimeOfDay(c.local)
    ensures DayNumber(c.local) + 1 <= DayNumber(r.start + c.utcOffset) <= DayNumber(c.local) + 7
    ensures r.start == ThisWeekRange(c).start + 7 * SecondsPerDay
    ensures r.end == ThisWeekRange(c).end + 7 * SecondsPerDay
  {
    var w := Weekday(c.local);
    ShiftByDays(c.local, 7 - w);
    WeekdayAfterShift(c.local, 7 - w);
    var start := c.local + (7 - w) * SecondsPerDay;
    var end := start + 6 * SecondsPerDay;
    TimeRange(Timestamp(c, start), Timestamp(c, end))
  }

  /** `main`'s choice of window: mode "weekly" fetches next week, any other mode tomorrow. */
  function RangeForMode(mode: string, c: Clock): (r: TimeRange)
    ensures mode == "weekly" ==> r == NextWeekRange(c)
    ensures mode != "weekly" ==> r == TomorrowRange(c)
  {
    if mode == "weekly" then NextWeekRange(c) else TomorrowRange(c)
  }

  /** The next-week window starts strictly after the whole of today and is entirely in the future. */
  lemma {:induction false} NextWeekAfterToday(c: Clock)
    ensures Midnight(c.local) + SecondsPerDay <= NextWeekRange(c).start + c.utcOffset
    ensures c.local < NextWeekRange(c).start + c.utcOffset
  {
    var s := NextWeekRange(c).start + c.utcOffset;
    assert DayNumber(s) >= DayNumber(c.local) + 1;
    assert Midnight(s) <= s;
  }

  /** The tomorrow window is exactly the local day after today. */
  lemma {:induction false} TomorrowIsNextDay(c: Clock)
    ensures TomorrowRange(c).start + c.utcOffset == Midnight(c.local) + SecondsPerDay
  {
    var s := TomorrowRange(c).start + c.utcOffset;
    ShiftByDays(Midnight(c.local), 1);
    DivModUnique(s, DayNumber(c.local) + 1, 0);
  }
}
