/**
 * ISO 8601 local dates and date-times, the values LocalDate.parse and
 * LocalDateTime.parse produce from the forecast service's timestamps
 * ("YYYY-MM-DD" and "YYYY-MM-DDThh:mm"), with the ordering, day-of-week and
 * the two display patterns ("HH:mm", "dd.MM") the forecast code uses.
 * Dates follow the proleptic Gregorian calendar, as java.time does.
 */
module DateTime {

  datatype Date = Date(year: int, month: int, day: int)

  datatype LocalDateTime = LocalDateTime(date: Date, hour: int, minute: int, second: int, nano: int)

  // ---------------------------------------------------------------- calendar

  predicate IsLeapYear(y: int) {
    y % 4 == 0 && (y % 100 != 0 || y % 400 == 0)
  }

  function DaysInMonth(y: int, m: int): (n: int)
    requires 1 <= m <= 12
    ensures 28 <= n <= 31
  {
    if m == 2 then (if IsLeapYear(y) then 29 else 28)
    else if m == 4 || m == 6 || m == 9 || m == 11 then 30
    else 31
  }

  predicate ValidDate(d: Date) {
    1 <= d.month <= 12 && 1 <= d.day <= DaysInMonth(d.year, d.month)
  }

  predicate ValidDateTime(t: LocalDateTime) {
    && ValidDate(t.date)
    && 0 <= t.hour < 24 && 0 <= t.minute < 60 && 0 <= t.second < 60
    && 0 <= t.nano < 1000000000
  }

  // ---------------------------------------------------------------- ordering

  /** Sign of a - b. */
  function Sign(a: int, b: int): int {
    if a < b then -1 else if a > b then 1 else 0
  }

  /** LocalDateTime.compareTo, up to the magnitude of the result: year, month,
    * day, hour, minute, second and nanosecond, lexicographically. */
  function Compare(a: LocalDateTime, b: LocalDateTime): (r: int)
    ensures r == -1 || r == 0 || r == 1
    ensures r == 0 <==> a == b
  {
    if a.date.year != b.date.year then Sign(a.date.year, b.date.year)
    else if a.date.month != b.date.month then Sign(a.date.month, b.date.month)
    else if a.date.day != b.date.day then Sign(a.date.day, b.date.day)
    else if a.hour != b.hour then Sign(a.hour, b.hour)
    else if a.minute != b.minute then Sign(a.minute, b.minute)
    else if a.second != b.second then Sign(a.second, b.second)
    else Sign(a.nano, b.nano)
  }

  /** LocalDateTime.isAfter */
  predicate IsAfter(a: LocalDateTime, b: LocalDateTime)
    ensures IsAfter(a, b) <==> IsBefore(b, a)
  {
    Compare(a, b) > 0
  }

  /** LocalDateTime.isEqual */
  predicate IsEqual(a: LocalDateTime, b: LocalDateTime)
    ensures IsEqual(a, b) <==> a == b
  {
    Compare(a, b) == 0
  }

  /** LocalDateTime.isBefore */
  predicate IsBefore(a: LocalDateTime, b: LocalDateTime)
    ensures IsBefore(a, b) ==> a != b
  {
    Compare(a, b) < 0
  }

  /** The ordering is a strict total order. */
  lemma IsBeforeTransitive(a: LocalDateTime, b: LocalDateTime, c: LocalDateTime)
    requires IsBefore(a, b) && IsBefore(b, c)
    ensures IsBefore(a, c)
  {
  }

  lemma IsBeforeTotal(a: LocalDateTime, b: LocalDateTime)
    ensures IsBefore(a, b) || a == b || IsBefore(b, a)
    ensures !(IsBefore(a, b) && IsBefore(b, a))
  {
  }

  /** "isAfter or isEqual" is exactly "not before". */
  lemma AtOrAfterIsNotBefore(a: LocalDateTime, b: LocalDateTime)
    ensures (IsAfter(a, b) || IsEqual(a, b)) <==> !IsBefore(a, b)
  {
  }

  // ---------------------------------------------------------------- day of week

  /** Days from 1970-01-01 to March 1 of year y (negative before it). The
    * count runs from March so that a leap day is the last day of its year. */
  function MarchFirst(y: int): int {
    365 * y + y / 4 - y / 100 + y / 400 - 719468
  }

  /** Days since 1970-01-01 (negative before it). */
  function EpochDay(d: Date): int {
    var y := if d.month <= 2 then d.year - 1 else d.year;
    var mp := if d.month > 2 then d.month - 3 else d.month + 9;
    MarchFirst(y) + (153 * mp + 2) / 5 + d.day - 1
  }

  /** The year from March 1 of y to the end of February of y + 1 has a
    * leap day exactly when y + 1 is a leap year. */
  lemma {:induction false} MarchToMarch(y: int)
    ensures MarchFirst(y + 1) - MarchFirst(y) == if IsLeapYear(y + 1) then 366 else 365
  {
    StepQuotient4(y);
    StepQuotient100(y);
    StepQuotient400(y);
    MultipleOf400IsMultipleOf100(y + 1);
    MultipleOf100IsMultipleOf4(y + 1);
  }

  lemma MultipleOf400IsMultipleOf100(n: int)
    ensures n % 400 == 0 ==> n % 100 == 0
  {
    if n % 400 == 0 {
      assert n == 100 * (4 * (n / 400));
    }
  }

  lemma MultipleOf100IsMultipleOf4(n: int)
    ensures n % 100 == 0 ==> n % 4 == 0
  {
    if n % 100 == 0 {
      assert n == 4 * (25 * (n / 100));
    }
  }

  /** y / k grows by one from y to y + 1 exactly when k divides y + 1. */
  lemma StepQuotient4(y: int)
    ensures (y + 1) / 4 - y / 4 == if (y + 1) % 4 == 0 then 1 else 0
  {
  }

  lemma StepQuotient100(y: int)
    ensures (y + 1) / 100 - y / 100 == if (y + 1) % 100 == 0 then 1 else 0
  {
  }

  lemma StepQuotient400(y: int)
    ensures (y + 1) / 400 - y / 400 == if (y + 1) % 400 == 0 then 1 else 0
  {
  }

  /** Weekday numbers wrap from 7 back to 1. */
  lemma {:induction false} NextWeekday(e: int)
    ensures (e + 1 + 3) % 7 + 1 == ((e + 3) % 7 + 1) % 7 + 1
  {
    var k, q := (e + 3) / 7, (e + 3) % 7;
    assert e + 4 == 7 * k + q + 1;
    if q < 6 {
      assert (e + 4) % 7 == q + 1;
    } else {
      assert e + 4 == 7 * (k + 1);
    }
  }

  /** The calendar day after d. */
  function NextDay(d: Date): (r: Date)
    requires ValidDate(d)
    ensures ValidDate(r)
    ensures r.year == d.year && r.month == d.month ==> r.day == d.day + 1
    ensures r.year != d.year || r.month != d.month ==> r.day == 1 && d.day == DaysInMonth(d.year, d.month)
    ensures r.year == d.year || (r.year == d.year + 1 && r.month == 1 && d.month == 12)
    ensures r.year == d.year && r.month != d.month ==> r.month == d.month + 1
  {
    if d.day < DaysInMonth(d.year, d.month) then Date(d.year, d.month, d.day + 1)
    else if d.month < 12 then Date(d.year, d.month + 1, 1)
    else Date(d.year + 1, 1, 1)
  }

  /** The day count advances by exactly one from a day to the next, across
    * month ends, year ends and leap days. */
  lemma {:induction false} EpochDayNextDay(d: Date)
    requires ValidDate(d)
    ensures EpochDay(NextDay(d)) == EpochDay(d) + 1
  {
    if d.day < DaysInMonth(d.year, d.month) {
      assert NextDay(d) == Date(d.year, d.month, d.day + 1);
    } else if d.month == 2 {
      EpochDayAfterFebruary(d);
    } else if d.month == 12 {
      MonthOffset(9);
      MonthOffset(10);
      assert NextDay(d) == Date(d.year + 1, 1, 1);
    } else {
      EpochDayAfterMonthEnd(d);
    }
  }

  lemma {:induction false} EpochDayAfterFebruary(d: Date)
    requires ValidDate(d) && d.month == 2 && d.day == DaysInMonth(d.year, 2)
    ensures EpochDay(Date(d.year, 3, 1)) == EpochDay(d) + 1
  {
    MonthOffset(11);
    MarchToMarch(d.year - 1);
  }

  lemma {:induction false} EpochDayAfterMonthEnd(d: Date)
    requires ValidDate(d) && d.month != 2 && d.month != 12 && d.day == DaysInMonth(d.year, d.month)
    ensures EpochDay(Date(d.year, d.month + 1, 1)) == EpochDay(d) + 1
  {
    var mp := if d.month > 2 then d.month - 3 else d.month + 9;
    MonthOffset(mp);
    MonthOffset(mp + 1);
  }

  /** Days from March 1 to the first of the mp-th month after March. */
  lemma MonthOffset(mp: int)
    requires 0 <= mp < 12
    ensures (153 * mp + 2) / 5 == [0, 31, 61, 92, 122, 153, 184, 214, 245, 275, 306, 337][mp]
  {
  }

  /** DayOfWeek.getValue: ISO numbering, 1 = Monday .. 7 = Sunday
    * (1970-01-01 was a Thursday). */
  function DayOfWeek(d: Date): (r: int)
    ensures 1 <= r <= 7
  {
    (EpochDay(d) + 3) % 7 + 1
  }

  /** The next day has the next weekday: Monday follows Sunday. */
  lemma {:induction false} DayOfWeekNextDay(d: Date)
    requires ValidDate(d)
    ensures DayOfWeek(NextDay(d)) == DayOfWeek(d) % 7 + 1
  {
    EpochDayNextDay(d);
    NextWeekday(EpochDay(d));
  }

  lemma DayOfWeekExamples()
    ensures DayOfWeek(Date(1970, 1, 1)) == 4
    ensures DayOfWeek(Date(2024, 5, 15)) == 3
  {
  }

  // ---------------------------------------------------------------- formatting

  function Digit(n: int): (c: char)
    requires 0 <= n <= 9
    ensures '0' <= c <= '9'
  {
    ('0' as int + n) as char
  }

  function DigitValue(c: char): int {
    c as int - '0' as int
  }

  /** A zero-padded two-digit field, as the patterns HH, mm, dd and MM print it. */
  function Pad2(n: int): (s: string)
    requires 0 <= n <= 99
    ensures |s| == 2 && '0' <= s[0] <= '9' && '0' <= s[1] <= '9'
  {
    [Digit(n / 10), Digit(n % 10)]
  }

  /** Reads a two-digit field back. */
  function ReadPad2(s: string): int
    requires |s| == 2
  {
    10 * DigitValue(s[0]) + DigitValue(s[1])
  }

  lemma Pad2RoundTrip(n: int)
    requires 0 <= n <= 99
    ensures ReadPad2(Pad2(n)) == n
  {
  }

  /** DateTimeFormatter.ofPattern("HH:mm") */
  function FormatHourMinute(t: LocalDateTime): (s: string)
    requires ValidDateTime(t)
    ensures |s| == 5 && s[2] == ':'
  {
    Pad2(t.hour) + ":" + Pad2(t.minute)
  }

  /** DateTimeFormatter.ofPattern("dd.MM") */
  function FormatDayMonth(d: Date): (s: string)
    requires ValidDate(d)
    ensures |s| == 5 && s[2] == '.'
  {
    Pad2(d.day) + "." + Pad2(d.month)
  }

  /** The HH:mm label gives back the hour and the minute it was made from;
    * two date-times get the same label exactly when their hour and minute agree. */
  lemma FormatHourMinuteRoundTrip(t: LocalDateTime, u: LocalDateTime)
    requires ValidDateTime(t) && ValidDateTime(u)
    ensures ReadPad2(FormatHourMinute(t)[..2]) == t.hour
    ensures ReadPad2(FormatHourMinute(t)[3..]) == t.minute
    ensures FormatHourMinute(t) == FormatHourMinute(u) <==> t.hour == u.hour && t.minute == u.minute
  {
  }

  /** The dd.MM label gives back the day and the month it was made from. */
  lemma FormatDayMonthRoundTrip(d: Date)
    requires ValidDate(d)
    ensures ReadPad2(FormatDayMonth(d)[..2]) == d.day
    ensures ReadPad2(FormatDayMonth(d)[3..]) == d.month
  {
  }
}
