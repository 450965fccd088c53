/**
 * The parsed start time of an event (a naive `datetime` with whole seconds),
 * Python's proleptic Gregorian calendar arithmetic for it, its ordering, and
 * the `strftime` renderings the summary uses (C locale).
 */
module CivilDate {
  import TimeRanges

  /** A naive `datetime` as `strptime` builds it from the event's start string. */
  datatype DateTime = DateTime(year: int, month: int, day: int, hour: int, minute: int, second: int)

  /** Ordinal of 1970-01-01, the first day of local day number 0. */
  const EpochOrdinal: int := 719163

  predicate IsLeapYear(y: int)
  {
    y % 4 == 0 && (y % 100 != 0 || y % 400 == 0)
  }

  function DaysInMonth(y: int, m: int): (n: int)
    requires 1 <= m <= 12
    ensures 28 <= n <= 31
  {
    if m == 2 then (if IsLeapYear(y) then 29 else 28)
    else if m == 4 || m == 6 || m == 9 || m == 11 then 30
    else 31
  }

  function YearLength(y: int): int
  {
    if IsLeapYear(y) then 366 else 365
  }

  /** The calendar date rules `datetime` enforces when it is constructed. */
  predicate ValidDate(y: int, m: int, d: int)
  {
    1 <= y <= 9999 && 1 <= m <= 12 && 1 <= d <= DaysInMonth(y, m)
  }

  /** The rules for a `datetime` without microseconds. */
  predicate Valid(t: DateTime)
  {
    && ValidDate(t.year, t.month, t.day)
    && 0 <= t.hour < 24 && 0 <= t.minute < 60 && 0 <= t.second < 60
  }

  /** The datetimes `strptime` can return. */
  type ValidDateTime = t: DateTime | Valid(t) witness DateTime(1, 1, 1, 0, 0, 0)

  /** Days in the years before `y` (Python's `_days_before_year`). */
  function DaysBeforeYear(y: int): int
  {
    var p := y - 1;
    p * 365 + p / 4 - p / 100 + p / 400
  }

  /** Days in the months of `y` before `m` (Python's `_days_before_month`). */
  function DaysBeforeMonth(y: int, m: int): (n: int)
    requires 1 <= m <= 12
    ensures 0 <= n <= 335
  {
    var table :=
      if m == 1 then 0 else if m == 2 then 31 else if m == 3 then 59
      else if m == 4 then 90 else if m == 5 then 120 else if m == 6 then 151
      else if m == 7 then 181 else if m == 8 then 212 else if m == 9 then 243
      else if m == 10 then 273 else if m == 11 then 304 else 334;
    table + (if m > 2 && IsLeapYear(y) then 1 else 0)
  }

  /** Day count from 0001-01-01 = 1 (Python's `toordinal`). */
  function Ordinal(y: int, m: int, d: int): int
    requires 1 <= m <= 12
  {
    DaysBeforeYear(y) + DaysBeforeMonth(y, m) + d
  }

  /** `datetime.weekday()`: Monday = 0, ..., Sunday = 6. */
  function DayOfWeek(y: int, m: int, d: int): (w: int)
    requires 1 <= m <= 12
    ensures 0 <= w < 7
  {
    (Ordinal(y, m, d) + 6) % 7
  }

  /** The calendar date after a valid date, by the plain calendar rules. */
  function NextDate(y: int, m: int, d: int): (r: (int, int, int))
    requires ValidDate(y, m, d)
    ensures 1 <= r.1 <= 12
  {
    if d < DaysInMonth(y, m) then (y, m, d + 1)
    else if m < 12 then (y, m + 1, 1)
    else (y + 1, 1, 1)
  }

  /** Seconds since local midnight. */
  function SecondOfDay(t: DateTime): int
  {
    t.hour * 3600 + t.minute * 60 + t.second
  }

  /** The local time of a datetime, in seconds since 1970-01-01 00:00 local. */
  function LocalSeconds(t: DateTime): int
    requires 1 <= t.month <= 12
  {
    (Ordinal(t.year, t.month, t.day) - EpochOrdinal) * TimeRanges.SecondsPerDay + SecondOfDay(t)
  }

  /** Python's datetime comparison: lexicographic on (year, month, day, hour, minute, second). */
  predicate NotAfter(a: DateTime, b: DateTime)
  {
    if a.year != b.year then a.year < b.year
    else if a.month != b.month then a.month < b.month
    else if a.day != b.day then a.day < b.day
    else if a.hour != b.hour then a.hour < b.hour
    else if a.minute != b.minute then a.minute < b.minute
    else a.second <= b.second
  }

  /** NotAfter is a total order. */
  lemma NotAfterTotalOrder(a: DateTime, b: DateTime, c: DateTime)
    ensures NotAfter(a, a)
    ensures NotAfter(a, b) || NotAfter(b, a)
    ensures NotAfter(a, b) && NotAfter(b, a) ==> a == b
    ensures NotAfter(a, b) && NotAfter(b, c) ==> NotAfter(a, c)
  {
  }

  /** A quotient by k steps by one exactly when the dividend reaches a multiple of k. */
  lemma QuotientStep(p: int, k: int)
    requires k == 4 || k == 100 || k == 400
    ensures (p + 1) / k == p / k + (if (p + 1) % k == 0 then 1 else 0)
  {
  }

  /** Consecutive years: the later starts a year's length after the earlier. */
  lemma DaysBeforeNextYear(y: int)
    ensures DaysBeforeYear(y + 1) == DaysBeforeYear(y) + YearLength(y)
  {
    var p := y - 1;
    QuotientStep(p, 4);
    QuotientStep(p, 100);
    QuotientStep(p, 400);
  }

  /** Consecutive months: the later starts the earlier's length after it. */
  lemma DaysBeforeNextMonth(y: int, m: int)
    requires 1 <= m < 12
    ensures DaysBeforeMonth(y, m + 1) == DaysBeforeMonth(y, m) + DaysInMonth(y, m)
  {
  }

  /** The ordinal counts calendar days: the next date has the next ordinal. */
  lemma {:induction false} NextDateOrdinal(y: int, m: int, d: int)
    requires ValidDate(y, m, d)
    ensures var n := NextDate(y, m, d); Ordinal(n.0, n.1, n.2) == Ordinal(y, m, d) + 1
    ensures y < 9999 || m < 12 || d < 31 ==> var n := NextDate(y, m, d); ValidDate(n.0, n.1, n.2)
  {
    if d == DaysInMonth(y, m) {
      if m < 12 {
        DaysBeforeNextMonth(y, m);
      } else {
        DaysBeforeNextYear(y);
      }
    }
  }

  /** Weekdays advance by one, cyclically, from each date to the next. */
  lemma {:induction false} NextDateWeekday(y: int, m: int, d: int)
    requires ValidDate(y, m, d)
    ensures var n := NextDate(y, m, d); DayOfWeek(n.0, n.1, n.2) == (DayOfWeek(y, m, d) + 1) % 7
  {
    NextDateOrdinal(y, m, d);
    var x := Ordinal(y, m, d) + 6;
    assert x + 1 == 7 * (x / 7) + (x % 7 + 1);
    TimeRanges.ModShift(x % 7 + 1, x / 7);
  }

  lemma {:induction false} DaysBeforeYearMonotone(y: int, y': int)
    requires y <= y'
    ensures DaysBeforeYear(y) + YearLength(y) * (if y < y' then 1 else 0) <= DaysBeforeYear(y')
    decreases y' - y
  {
    if y < y' {
      DaysBeforeNextYear(y);
      if y + 1 < y' {
        DaysBeforeYearMonotone(y + 1, y');
      }
    }
  }

  lemma {:induction false} DaysBeforeMonthMonotone(y: int, m: int, m': int)
    requires 1 <= m < m' <= 12
    ensures DaysBeforeMonth(y, m) + DaysInMonth(y, m) <= DaysBeforeMonth(y, m')
    decreases m' - m
  {
    DaysBeforeNextMonth(y, m);
    if m + 1 < m' {
      DaysBeforeMonthMonotone(y, m + 1, m');
    }
  }

  /** Ordinals of valid dates increase in lexicographic date order. */
  lemma {:induction false} OrdinalMonotone(a: DateTime, b: DateTime)
    requires Valid(a) && Valid(b)
    requires a.year < b.year
          || (a.year == b.year && a.month < b.month)
          || (a.year == b.year && a.month == b.month && a.day < b.day)
    ensures Ordinal(a.year, a.month, a.day) < Ordinal(b.year, b.month, b.day)
  {
    if a.year < b.year {
      DaysBeforeYearMonotone(a.year, b.year);
      if a.month < 12 {
        DaysBeforeMonthMonotone(a.year, a.month, 12);
      }
      DaysBeforeNextYear(a.year);
      assert DaysBeforeMonth(a.year, 12) + 31 == YearLength(a.year);
    } else if a.month < b.month {
      DaysBeforeMonthMonotone(a.year, a.month, b.month);
    }
  }

  /**
   * The lexicographic comparison Python uses is chronological order: for valid
   * datetimes it agrees with comparing their local times in seconds.
   */
  lemma {:induction false} NotAfterIsChronological(a: DateTime, b: DateTime)
    requires Valid(a) && Valid(b)
    ensures NotAfter(a, b) <==> LocalSeconds(a) <= LocalSeconds(b)
  {
    if a.year != b.year || a.month != b.month || a.day != b.day {
      if NotAfter(a, b) {
        OrdinalMonotone(a, b);
      } else {
        OrdinalMonotone(b, a);
      }
    }
  }

  /** The weekday `strftime` prints for a date is the weekday the time ranges reckon with. */
  lemma {:induction false} DayOfWeekMatchesClock(t: DateTime)
    requires Valid(t)
    ensures TimeRanges.Weekday(LocalSeconds(t)) == DayOfWeek(t.year, t.month, t.day)
    ensures TimeRanges.TimeOfDay(LocalSeconds(t)) == SecondOfDay(t)
  {
    var o := Ordinal(t.year, t.month, t.day);
    TimeRanges.ShiftByDays(SecondOfDay(t), o - EpochOrdinal);
    TimeRanges.ModShift(o + 6, -102738);
  }

  // ---- strftime renderings (C locale) ----

  /** One decimal digit as a character. */
  function DigitChar(n: int): (c: char)
    requires 0 <= n < 10
    ensures '0' <= c <= '9' && c as int - '0' as int == n
  {
    ('0' as int + n) as char
  }

  /** A number below 100 in two digits with a leading zero (`%02d`). */
  function Pad2(n: int): (s: string)
    requires 0 <= n < 100
    ensures |s| == 2 && forall i :: 0 <= i < 2 ==> '0' <= s[i] <= '9'
    ensures (s[0] as int - '0' as int) * 10 + (s[1] as int - '0' as int) == n
  {
    [DigitChar(n / 10), DigitChar(n % 10)]
  }

  /** A number below 10000 in four digits with leading zeros. */
  function Pad4(n: int): (s: string)
    requires 0 <= n < 10000
    ensures |s| == 4 && forall i :: 0 <= i < 4 ==> '0' <= s[i] <= '9'
    ensures (s[0] as int - '0' as int) * 1000 + (s[1] as int - '0' as int) * 100
          + (s[2] as int - '0' as int) * 10 + (s[3] as int - '0' as int) == n
  {
    Pad2(n / 100) + Pad2(n % 100)
  }

  /** `%a` */
  function WeekdayAbbrev(w: int): (s: string)
    requires 0 <= w < 7
    ensures |s| == 3
  {
    ["Mon", "Tue", "Wed", "Thu", "Fri", "Sat", "Sun"][w]
  }

  /** `%A` */
  function WeekdayName(w: int): (s: string)
    requires 0 <= w < 7
    ensures |s| >= 6 && s[..3] == WeekdayAbbrev(w)
  {
    ["Monday", "Tuesday", "Wednesday", "Thursday", "Friday", "Saturday", "Sunday"][w]
  }

  /** `%b` */
  function MonthAbbrev(m: int): (s: string)
    requires 1 <= m <= 12
    ensures |s| == 3
  {
    ["Jan", "Feb", "Mar", "Apr", "May", "Jun", "Jul", "Aug", "Sep", "Oct", "Nov", "Dec"][m - 1]
  }

  /** `%I`: the hour on a 12-hour clock, where midnight and noon are 12. */
  function Hour12(h: int): (r: int)
    requires 0 <= h < 24
    ensures 1 <= r <= 12
  {
    if h % 12 == 0 then 12 else h % 12
  }

  /** `%p` */
  function Meridiem(h: int): (s: string)
    requires 0 <= h < 24
    ensures |s| == 2
    ensures s == "AM" <==> h < 12
  {
    if h < 12 then "AM" else "PM"
  }

  /** The 12-hour clock with its AM/PM marker loses nothing: the 24-hour hour is recovered. */
  lemma TwelveHourClockRecovers(h: int)
    requires 0 <= h < 24
    ensures h == (Hour12(h) % 12) + (if Meridiem(h) == "PM" then 12 else 0)
  {
  }

  /** `strftime('%a %b %d')`, the date of a header bullet. */
  function ShortDate(t: ValidDateTime): (s: string)
    ensures |s| == 10
    ensures s[..3] == WeekdayAbbrev(DayOfWeek(t.year, t.month, t.day))
    ensures s[4..7] == MonthAbbrev(t.month) && s[8..] == Pad2(t.day)
  {
    WeekdayAbbrev(DayOfWeek(t.year, t.month, t.day)) + " " + MonthAbbrev(t.month) + " " + Pad2(t.day)
  }

  /** `strftime('%A, %b %d at %I:%M %p')`, the date line of a detail block. */
  function LongDate(t: ValidDateTime): (s: string)
    ensures |s| == |WeekdayName(DayOfWeek(t.year, t.month, t.day))| + 20
  {
    var w := WeekdayName(DayOfWeek(t.year, t.month, t.day));
    var date := MonthAbbrev(t.month) + " " + Pad2(t.day);
    var time := Pad2(Hour12(t.hour)) + ":" + Pad2(t.minute) + " " + Meridiem(t.hour);
    (w + ", ") + (date + (" at " + time))
  }

  /**
   * The fields of the detail date line in place: the full weekday name and a
   * comma, the month abbreviation and two-digit day, " at ", then the
   * 12-hour time and its marker as its last eight characters.
   */
  lemma LongDateLayout(t: ValidDateTime)
    ensures var s, w := LongDate(t), WeekdayName(DayOfWeek(t.year, t.month, t.day));
      && s[..|w| + 2] == w + ", "
      && s[|w| + 2..|w| + 8] == MonthAbbrev(t.month) + " " + Pad2(t.day)
      && s[|w| + 8..|w| + 12] == " at "
      && s[|w| + 12..] == Pad2(Hour12(t.hour)) + ":" + Pad2(t.minute) + " " + Meridiem(t.hour)
  {
  }

  /** A detail block's date line and a header bullet name the same weekday, month and day. */
  lemma LongDateMatchesShortDate(t: ValidDateTime)
    ensures var w := WeekdayName(DayOfWeek(t.year, t.month, t.day));
      && LongDate(t)[..3] == ShortDate(t)[..3]
      && LongDate(t)[|w| + 2..|w| + 8] == ShortDate(t)[4..]
  {
    var w := WeekdayName(DayOfWeek(t.year, t.month, t.day));
    LongDateLayout(t);
    assert LongDate(t)[..3] == LongDate(t)[..|w| + 2][..3];
  }

  /** Monday 2025-10-06 at 09:00 in a header bullet. */
  lemma ExampleShortDate()
    ensures DayOfWeek(2025, 10, 6) == 0
    ensures ShortDate(DateTime(2025, 10, 6, 9, 0, 0)) == "Mon Oct 06"
  {
    assert Ordinal(2025, 10, 6) == 739530;
    assert WeekdayAbbrev(0) == "Mon";
    assert MonthAbbrev(10) == "Oct";
    assert Pad2(6) == "06";
  }

  /** The same time in a detail block's date line. */
  lemma ExampleLongDate()
    ensures LongDate(DateTime(2025, 10, 6, 9, 0, 0)) == "Monday, Oct 06 at 09:00 AM"
  {
    assert DayOfWeek(2025, 10, 6) == 0 by { assert Ordinal(2025, 10, 6) == 739530; }
    assert WeekdayName(0) == "Monday";
    assert MonthAbbrev(10) == "Oct";
    assert Pad2(6) == "06";
    assert Pad2(9) == "09";
    assert Pad2(0) == "00";
    assert Hour12(9) == 9;
    assert Meridiem(9) == "AM";
  }

  /** Midnight and noon both read 12 on the 12-hour clock; the marker tells them apart. */
  lemma MidnightAndNoon()
    ensures Hour12(0) == 12 && Meridiem(0) == "AM"
    ensures Hour12(12) == 12 && Meridiem(12) == "PM"
  {
  }
}
