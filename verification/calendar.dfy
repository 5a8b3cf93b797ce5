/** The calendar values the stats module reads from `new Date()`, and the keys it derives
    from them: the local date key (`getLocalDateKey`), the week-of-year number
    (`getWeekNumber`), the week-of-month bucket number and the UTC date key
    (`toISOString().split('T')[0]`). The clock itself is an input: a `Clock` is one reading
    of it, already broken into the fields the JavaScript `Date` accessors return. */
module Calendar {
  import opened Text

  /** Milliseconds in a day, the divisor `getWeekNumber` uses. */
  const DayMs: int := 86400000

  datatype Clock = Clock(
    year: nat,          // getFullYear()
    month: int,         // getMonth(), 0 = January
    day: int,           // getDate(), 1..31
    hour: int,          // getHours(), 0..23
    weekday: int,       // getDay(), 0 = Sunday
    msSinceJan1: int,   // date - new Date(getFullYear(), 0, 1), in milliseconds
    jan1Weekday: int,   // new Date(getFullYear(), 0, 1).getDay()
    utcYear: nat,       // the date part of toISOString() ...
    utcMonth: int,      // ... its month, 0 = January
    utcDay: int,        // ... its day of month
    epochMs: int)       // Date.now()

  /** The ranges a JavaScript `Date` guarantees for these fields. */
  predicate ValidClock(c: Clock) {
    && 0 <= c.month < 12 && 1 <= c.day <= 31 && 0 <= c.hour < 24 && 0 <= c.weekday < 7
    && 0 <= c.jan1Weekday < 7 && 0 <= c.msSinceJan1 < 366 * DayMs
    && 0 <= c.utcMonth < 12 && 1 <= c.utcDay <= 31
  }

  function Pad2(x: nat): string {
    PadStart(NatToString(x), 2, '0')
  }

  /** `getLocalDateKey`: "YYYY-MM-DD" from the local year (not padded), month and day. */
  function LocalDateKey(c: Clock): string
    requires ValidClock(c)
  {
    NatToString(c.year) + "-" + Pad2(c.month + 1) + "-" + Pad2(c.day)
  }

  /** The date part of `toISOString()`: the UTC year padded to four digits, month, day. */
  function UtcDateKey(c: Clock): string
    requires ValidClock(c)
  {
    PadStart(NatToString(c.utcYear), 4, '0') + "-" + Pad2(c.utcMonth + 1) + "-" + Pad2(c.utcDay)
  }

  /** A "Y-MM-DD" key splits back into its three parts. */
  lemma DateKeyParts(y1: string, m1: string, d1: string, y2: string, m2: string, d2: string)
    requires |m1| == |d1| == |m2| == |d2| == 2
    requires y1 + "-" + m1 + "-" + d1 == y2 + "-" + m2 + "-" + d2
    ensures y1 == y2 && m1 == m2 && d1 == d2
  {
    var k := y1 + "-" + m1 + "-" + d1;
    var k' := y2 + "-" + m2 + "-" + d2;
    var n := |k|;
    assert |y1| == n - 6 == |y2|;
    assert d1 == k[n - 2..] && d2 == k'[n - 2..];
    assert m1 == k[n - 5..n - 3] && m2 == k'[n - 5..n - 3];
    assert y1 == k[..n - 6] && y2 == k'[..n - 6];
  }

  /** Two clock readings get the same local date key exactly when they fall on the same
      local calendar date, so the day marker changes exactly when the date does. */
  lemma LocalDateKeyInjective(c1: Clock, c2: Clock)
    requires ValidClock(c1) && ValidClock(c2)
    ensures LocalDateKey(c1) == LocalDateKey(c2)
            <==> c1.year == c2.year && c1.month == c2.month && c1.day == c2.day
  {
    Pad2Digits(c1.month + 1);
    Pad2Digits(c2.month + 1);
    Pad2Digits(c1.day);
    Pad2Digits(c2.day);
    if LocalDateKey(c1) == LocalDateKey(c2) {
      DateKeyParts(NatToString(c1.year), Pad2(c1.month + 1), Pad2(c1.day),
                   NatToString(c2.year), Pad2(c2.month + 1), Pad2(c2.day));
      Pad2Injective(c1.day, c2.day);
      Pad2Injective(c1.month + 1, c2.month + 1);
      NatToStringInjective(c1.year, c2.year);
    }
  }

  /** Two clock readings get the same UTC date key exactly when they fall on the same
      UTC calendar date. */
  lemma UtcDateKeyInjective(c1: Clock, c2: Clock)
    requires ValidClock(c1) && ValidClock(c2)
    ensures UtcDateKey(c1) == UtcDateKey(c2)
            <==> c1.utcYear == c2.utcYear && c1.utcMonth == c2.utcMonth && c1.utcDay == c2.utcDay
  {
    Pad2Digits(c1.utcMonth + 1);
    Pad2Digits(c2.utcMonth + 1);
    Pad2Digits(c1.utcDay);
    Pad2Digits(c2.utcDay);
    if UtcDateKey(c1) == UtcDateKey(c2) {
      DateKeyParts(PadStart(NatToString(c1.utcYear), 4, '0'), Pad2(c1.utcMonth + 1), Pad2(c1.utcDay),
                   PadStart(NatToString(c2.utcYear), 4, '0'), Pad2(c2.utcMonth + 1), Pad2(c2.utcDay));
      Pad2Injective(c1.utcDay, c2.utcDay);
      Pad2Injective(c1.utcMonth + 1, c2.utcMonth + 1);
      PadZerosInjective(c1.utcYear, c2.utcYear, 4);
    }
  }

  /** Ceiling of a / b for a positive divisor (JavaScript's `Math.ceil(a / b)`). */
  function CeilDiv(a: int, b: int): (q: int)
    requires b > 0
    ensures b * q - b < a <= b * q
  {
    (a + b - 1) / b
  }

  /** `getWeekNumber`: Math.ceil((pastDaysOfYear + firstDayOfYear.getDay() + 1) / 7), where
      pastDaysOfYear is the fractional number of days since local midnight on January 1.
      Multiplying numerator and denominator by DayMs keeps the formula exact over integers.
      This is not ISO 8601 week numbering. */
  function WeekNumber(c: Clock): int {
    CeilDiv(c.msSinceJan1 + (c.jan1Weekday + 1) * DayMs, 7 * DayMs)
  }

  lemma WeekNumberRange(c: Clock)
    requires ValidClock(c)
    ensures 1 <= WeekNumber(c) <= 54
  {
    var q := WeekNumber(c);
    assert 7 * DayMs * q - 7 * DayMs < c.msSinceJan1 + (c.jan1Weekday + 1) * DayMs <= 7 * DayMs * q;
  }

  /** The week-of-month number behind the `"week" + k` bucket keys:
      Math.ceil((getDate() + 6 - getDay()) / 7). Weeks start on Sunday. */
  function WeekOfMonthOf(day: int, weekday: int): int {
    CeilDiv(day + 6 - weekday, 7)
  }

  function WeekOfMonth(c: Clock): int {
    WeekOfMonthOf(c.day, c.weekday)
  }

  /** The number lies in 1..6: a 31-day month can touch six Sunday-started weeks. */
  lemma WeekOfMonthRange(c: Clock)
    requires ValidClock(c)
    ensures 1 <= WeekOfMonth(c) <= 6
  {
    var q := WeekOfMonth(c);
    assert 7 * q - 7 < c.day + 6 - c.weekday <= 7 * q;
  }

  /** Moving to the next day keeps the week-of-month number, except from Saturday (6) to
      Sunday (0), where it grows by one. */
  lemma WeekOfMonthNextDay(day: int, weekday: int)
    requires 0 <= weekday < 7
    ensures WeekOfMonthOf(day + 1, (weekday + 1) % 7)
            == WeekOfMonthOf(day, weekday) + (if weekday == 6 then 1 else 0)
  {
    var q, q' := WeekOfMonthOf(day, weekday), WeekOfMonthOf(day + 1, (weekday + 1) % 7);
    assert 7 * q - 7 < day + 6 - weekday <= 7 * q;
    assert 7 * q' - 7 < day + 1 + 6 - (weekday + 1) % 7 <= 7 * q';
  }

  /** The last day of a 31-day month whose first day is a Saturday is in week 6. */
  lemma WeekOfMonthSix()
    ensures WeekOfMonthOf(31, 1) == 6
  {
  }
}
