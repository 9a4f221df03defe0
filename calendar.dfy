/**
 * The proleptic Gregorian calendar of Python's `datetime` (years 1 to 9999),
 * a day count and a minute count that place every date-time on one time line,
 * the minute shift that `astimezone` performs for a fixed UTC offset, and the
 * `strftime` formats the converter writes.
 */
module Calendar {
  import opened Wrappers
  import opened Strings

  predicate IsLeapYear(y: int) {
    y % 4 == 0 && (y % 100 != 0 || y % 400 == 0)
  }

  function DaysInMonth(y: int, m: int): (n: int)
    requires 1 <= m <= 12
    ensures 28 <= n <= 31
  {
    if m == 2 then (if IsLeapYear(y) then 29 else 28)
    else if m == 4 || m == 6 || m == 9 || m == 11 then 30
    else 31
  }

  function DaysInYear(y: int): int {
    if IsLeapYear(y) then 366 else 365
  }

  datatype Date = Date(year: int, month: int, day: int)

  /** `datetime.MINYEAR` and `datetime.MAXYEAR` bound the representable dates. */
  predicate ValidDate(d: Date) {
    && 1 <= d.year <= 9999
    && 1 <= d.month <= 12
    && 1 <= d.day <= DaysInMonth(d.year, d.month)
  }

  const FirstDate := Date(1, 1, 1)
  const LastDate := Date(9999, 12, 31)

  /** Days in the years before `y`. */
  function DaysBeforeYear(y: int): int
    requires y >= 1
  {
    var n := y - 1;
    365 * n + n / 4 - n / 100 + n / 400
  }

  /** Days in the months of year `y` before month `m`. */
  function DaysBeforeMonth(y: int, m: int): (n: int)
    requires 1 <= m <= 12
    ensures n >= 0
  {
    if m == 1 then 0 else DaysBeforeMonth(y, m - 1) + DaysInMonth(y, m - 1)
  }

  /** Days from 0001-01-01 to `d` (0 for the first representable date). */
  function DayNumber(d: Date): int
    requires ValidDate(d)
  {
    DaysBeforeYear(d.year) + DaysBeforeMonth(d.year, d.month) + d.day - 1
  }

  /** The twelve months of a year add up to the length of the year. */
  lemma MonthsFillYear(y: int)
    ensures DaysBeforeMonth(y, 12) + DaysInMonth(y, 12) == DaysInYear(y)
  {
    var feb := DaysInMonth(y, 2);
    assert DaysBeforeMonth(y, 2) == 31;
    assert DaysBeforeMonth(y, 3) == 31 + feb;
    assert DaysBeforeMonth(y, 4) == 62 + feb;
    assert DaysBeforeMonth(y, 5) == 92 + feb;
    assert DaysBeforeMonth(y, 6) == 123 + feb;
    assert DaysBeforeMonth(y, 7) == 153 + feb;
    assert DaysBeforeMonth(y, 8) == 184 + feb;
    assert DaysBeforeMonth(y, 9) == 215 + feb;
    assert DaysBeforeMonth(y, 10) == 245 + feb;
    assert DaysBeforeMonth(y, 11) == 276 + feb;
    assert DaysBeforeMonth(y, 12) == 306 + feb;
  }

  /** A month ends no later than the year does. */
  lemma {:induction false} MonthWithinYear(y: int, m: int)
    requires 1 <= m <= 12
    ensures DaysBeforeMonth(y, m) + DaysInMonth(y, m) <= DaysInYear(y)
    decreases 12 - m
  {
    if m == 12 {
      MonthsFillYear(y);
    } else {
      MonthWithinYear(y, m + 1);
    }
  }

  /** Consecutive years start `DaysInYear` days apart. */
  lemma YearStep(y: int)
    requires y >= 1
    ensures DaysBeforeYear(y + 1) == DaysBeforeYear(y) + DaysInYear(y)
  {
    var n := y - 1;
    assert y / 4 - n / 4 == if y % 4 == 0 then 1 else 0;
    assert y / 100 - n / 100 == if y % 100 == 0 then 1 else 0;
    assert y / 400 - n / 400 == if y % 400 == 0 then 1 else 0;
  }

  lemma {:induction false} DaysBeforeYearMonotone(y: int, z: int)
    requires 1 <= y <= z
    ensures DaysBeforeYear(y) <= DaysBeforeYear(z)
    decreases z - y
  {
    if y < z {
      YearStep(y);
      DaysBeforeYearMonotone(y + 1, z);
    }
  }

  /** The day number of 9999-12-31. */
  const LastDayNumber := 3652058

  lemma LastDayNumberValue()
    ensures DayNumber(LastDate) == LastDayNumber
  {
  }

  /** Every representable date lies between the first and the last one on the day line. */
  lemma DayNumberRange(d: Date)
    requires ValidDate(d)
    ensures 0 <= DayNumber(d) <= LastDayNumber
  {
    LastDayNumberValue();
    MonthWithinYear(d.year, d.month);
    YearStep(d.year);
    DaysBeforeYearMonotone(1, d.year);
    DaysBeforeYearMonotone(d.year + 1, 10000);
    YearStep(9999);
    MonthsFillYear(9999);
  }

  /** New Year's Day follows the last day of the year before it. */
  lemma YearBoundary(y: int)
    requires 1 <= y < 9999
    ensures ValidDate(Date(y, 12, 31)) && ValidDate(Date(y + 1, 1, 1))
    ensures DayNumber(Date(y + 1, 1, 1)) == DayNumber(Date(y, 12, 31)) + 1
  {
    YearStep(y);
    MonthsFillYear(y);
  }

  /** The first of a month follows the last day of the month before it. */
  lemma MonthBoundary(y: int, m: int)
    requires 1 <= y <= 9999 && 1 <= m < 12
    ensures ValidDate(Date(y, m, DaysInMonth(y, m))) && ValidDate(Date(y, m + 1, 1))
    ensures DayNumber(Date(y, m + 1, 1)) == DayNumber(Date(y, m, DaysInMonth(y, m))) + 1
  {
  }

  /** A later month of the same year starts no earlier than an earlier month ends. */
  lemma {:induction false} MonthOrder(y: int, m: int, k: int)
    requires 1 <= m < k <= 12
    ensures DaysBeforeMonth(y, m) + DaysInMonth(y, m) <= DaysBeforeMonth(y, k)
    decreases k - m
  {
    if m + 1 < k {
      MonthOrder(y, m, k - 1);
    }
  }

  /** Dates in calendar order. */
  predicate Before(a: Date, b: Date) {
    a.year < b.year || (a.year == b.year && (a.month < b.month || (a.month == b.month && a.day < b.day)))
  }

  /** The day line keeps calendar order. */
  lemma DayNumberOrder(a: Date, b: Date)
    requires ValidDate(a) && ValidDate(b) && Before(a, b)
    ensures DayNumber(a) < DayNumber(b)
  {
    if a.year < b.year {
      MonthWithinYear(a.year, a.month);
      YearStep(a.year);
      DaysBeforeYearMonotone(a.year + 1, b.year);
    } else if a.month < b.month {
      MonthOrder(a.year, a.month, b.month);
    }
  }

  /** No two representable dates share a day number. */
  lemma DayNumberInjective(a: Date, b: Date)
    requires ValidDate(a) && ValidDate(b)
    ensures DayNumber(a) == DayNumber(b) ==> a == b
  {
    if Before(a, b) {
      DayNumberOrder(a, b);
    } else if Before(b, a) {
      DayNumberOrder(b, a);
    }
  }

  /** The calendar day before `d`, across month, year and leap-day boundaries. */
  function PrevDay(d: Date): (r: Date)
    requires ValidDate(d) && d != FirstDate
    ensures ValidDate(r) && DayNumber(r) == DayNumber(d) - 1
  {
    if d.day > 1 then Date(d.year, d.month, d.day - 1)
    else if d.month > 1 then
      MonthBoundary(d.year, d.month - 1);
      Date(d.year, d.month - 1, DaysInMonth(d.year, d.month - 1))
    else
      YearBoundary(d.year - 1);
      Date(d.year - 1, 12, 31)
  }

  /** The calendar day after `d`. */
  function NextDay(d: Date): (r: Date)
    requires ValidDate(d) && d != LastDate
    ensures ValidDate(r) && DayNumber(r) == DayNumber(d) + 1
  {
    if d.day < DaysInMonth(d.year, d.month) then Date(d.year, d.month, d.day + 1)
    else if d.month < 12 then
      MonthBoundary(d.year, d.month);
      Date(d.year, d.month + 1, 1)
    else
      YearBoundary(d.year);
      Date(d.year + 1, 1, 1)
  }

  lemma NextOfPrev(d: Date)
    requires ValidDate(d) && d != FirstDate
    ensures PrevDay(d) != LastDate && NextDay(PrevDay(d)) == d
  {
    DayNumberRange(d);
    DayNumberInjective(NextDay(PrevDay(d)), d);
  }

  lemma PrevOfNext(d: Date)
    requires ValidDate(d) && d != LastDate
    ensures NextDay(d) != FirstDate && PrevDay(NextDay(d)) == d
  {
    DayNumberRange(d);
    DayNumberInjective(PrevDay(NextDay(d)), d);
  }

  // ---- date-times ----

  datatype Civil = Civil(date: Date, hour: int, minute: int, second: int)

  predicate ValidCivil(c: Civil) {
    ValidDate(c.date) && 0 <= c.hour < 24 && 0 <= c.minute < 60 && 0 <= c.second < 60
  }

  /** A naive `datetime` down to the second (Python guarantees its fields are in range). */
  type DateTime = c: Civil | ValidCivil(c) witness Civil(Date(1, 1, 1), 0, 0, 0)

  /** A fixed UTC offset in minutes east of Greenwich; Python requires it strictly within a day. */
  type Offset = m: int | -1440 < m < 1440

  /** Minutes from 0001-01-01 00:00 to `t`, seconds ignored. */
  function MinuteNumber(t: DateTime): int {
    DayNumber(t.date) * 1440 + t.hour * 60 + t.minute
  }

  /** One past the minute number of 9999-12-31 23:59. */
  function MinuteCount(): int {
    (LastDayNumber + 1) * 1440
  }

  /** Minute `m` (negative) of the day before `t`'s date; `None` before 0001-01-01. */
  function OnDayBefore(t: DateTime, m: int): (r: Option<DateTime>)
    requires -1440 < m < 0
    ensures r.Some? ==> MinuteNumber(r.value) == DayNumber(t.date) * 1440 + m && r.value.second == t.second
    ensures r.None? <==> DayNumber(t.date) * 1440 + m < 0
  {
    if t.date == FirstDate then None
    else
      var d := PrevDay(t.date);
      DayNumberRange(d);
      Some(Civil(d, (m + 1440) / 60, (m + 1440) % 60, t.second))
  }

  /** Minute `m` (1440 or more) counted from the start of `t`'s date, on the next day; `None` after 9999-12-31. */
  function OnDayAfter(t: DateTime, m: int): (r: Option<DateTime>)
    requires 1440 <= m < 2880
    ensures r.Some? ==> MinuteNumber(r.value) == DayNumber(t.date) * 1440 + m && r.value.second == t.second
    ensures r.None? <==> DayNumber(t.date) * 1440 + m >= MinuteCount()
  {
    if t.date == LastDate then
      LastDayNumberValue();
      None
    else
      var d := NextDay(t.date);
      DayNumberRange(d);
      Some(Civil(d, (m - 1440) / 60, (m - 1440) % 60, t.second))
  }

  /**
   * `t` moved by `delta` minutes on the time line, seconds kept; `None` when the
   * result falls outside the representable years (Python's `OverflowError`).
   */
  function AddMinutes(t: DateTime, delta: int): (r: Option<DateTime>)
    requires -1440 < delta < 1440
    ensures r.Some? ==> MinuteNumber(r.value) == MinuteNumber(t) + delta && r.value.second == t.second
    ensures r.None? <==> !(0 <= MinuteNumber(t) + delta < MinuteCount())
  {
    DayNumberRange(t.date);
    var m := t.hour * 60 + t.minute + delta;
    if m < 0 then OnDayBefore(t, m)
    else if m >= 1440 then OnDayAfter(t, m)
    else Some(Civil(t.date, m / 60, m % 60, t.second))
  }

  /** A date-time (down to the second) is fixed by its minute number and its second. */
  lemma MinuteNumberInjective(a: DateTime, b: DateTime)
    ensures MinuteNumber(a) == MinuteNumber(b) && a.second == b.second ==> a == b
  {
    if DayNumber(a.date) == DayNumber(b.date) {
      DayNumberInjective(a.date, b.date);
    }
  }

  /** Every representable date-time lies on the minute line. */
  lemma MinuteNumberRange(t: DateTime)
    ensures 0 <= MinuteNumber(t) < MinuteCount()
  {
    DayNumberRange(t.date);
  }

  /** Moving back by the same amount returns to the starting date-time. */
  lemma AddMinutesInverse(t: DateTime, delta: int)
    requires -1440 < delta < 1440
    requires AddMinutes(t, delta).Some?
    ensures AddMinutes(AddMinutes(t, delta).value, -delta) == Some(t)
  {
    var u := AddMinutes(t, delta).value;
    MinuteNumberRange(t);
    var v := AddMinutes(u, -delta).value;
    MinuteNumberInjective(v, t);
  }

  /** The UTC instant of a local date-time at a fixed `offset`: `astimezone(timezone.utc)`. */
  function ToUtc(local: DateTime, offset: Offset): (r: Option<DateTime>)
    ensures r.Some? ==> MinuteNumber(r.value) == MinuteNumber(local) - offset
  {
    AddMinutes(local, -offset)
  }

  // ---- strftime ----

  /** `strftime('%Y%m%d')`. */
  function DateText(t: DateTime): string {
    Pad(t.date.year, 4) + Pad(t.date.month, 2) + Pad(t.date.day, 2)
  }

  /** `strftime('%H%M')`: the seconds are dropped. */
  function HourMinuteText(t: DateTime): string {
    Pad(t.hour, 2) + Pad(t.minute, 2)
  }

  /** `strftime('%Y%m%d%H%M%S')`. */
  function StampText(t: DateTime): string {
    DateText(t) + HourMinuteText(t) + Pad(t.second, 2)
  }

  /** Reads back a `YYYYMMDD` text. */
  function ReadDate(s: string): Option<Date> {
    if |s| == 8 && AllDigits(s) then
      Some(Date(DigitsValue(s[..4]), DigitsValue(s[4..6]), DigitsValue(s[6..])))
    else None
  }

  /** Reads back an `HHMM` text as (hour, minute). */
  function ReadHourMinute(s: string): Option<(int, int)> {
    if |s| == 4 && AllDigits(s) then Some((DigitsValue(s[..2]), DigitsValue(s[2..]))) else None
  }

  /** `QSO_DATE` text is eight digits that give back the date. */
  lemma DateTextRoundTrip(t: DateTime)
    ensures |DateText(t)| == 8 && ReadDate(DateText(t)) == Some(t.date)
  {
    var s := DateText(t);
    PadValue(t.date.year, 4);
    PadValue(t.date.month, 2);
    PadValue(t.date.day, 2);
    assert s[..4] == Pad(t.date.year, 4);
    assert s[4..6] == Pad(t.date.month, 2);
    assert s[6..] == Pad(t.date.day, 2);
  }

  /** `TIME_ON` text is four digits that give back the hour and the minute. */
  lemma HourMinuteTextRoundTrip(t: DateTime)
    ensures |HourMinuteText(t)| == 4 && ReadHourMinute(HourMinuteText(t)) == Some((t.hour, t.minute))
  {
    var s := HourMinuteText(t);
    PadValue(t.hour, 2);
    PadValue(t.minute, 2);
    assert s[..2] == Pad(t.hour, 2);
    assert s[2..] == Pad(t.minute, 2);
  }
}
