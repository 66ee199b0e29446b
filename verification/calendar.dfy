/** Time values and calendar arithmetic of ECMAScript Date objects, after
    section 21.4.1 of ECMA-262 ("Time Values and Time Range"), in local time
    with a fixed offset.  A time value is an integer number of milliseconds;
    day 0 is Thursday 1 January 1970.  Months are numbered 0..11 and dates
    1..31, as the Date getters return them. */
module Calendar {

  const MsPerSecond: int := 1000
  const MsPerMinute: int := 60000
  const MsPerHour: int := 3600000
  const MsPerDay: int := 86400000

  /** The last millisecond of a day, 23:59:59.999. */
  const LastMsOfDay: int := MsPerDay - 1

  // ---------------------------------------------------------------------------
  // Days and time within the day

  /** Day(t): the number of the day holding time value t (floor division). */
  function Day(t: int): int
  {
    t / MsPerDay
  }

  function TimeWithinDay(t: int): (r: int)
    ensures 0 <= r < MsPerDay
    ensures t == Day(t) * MsPerDay + r
  {
    t % MsPerDay
  }

  function HourFromTime(t: int): (r: int)
    ensures 0 <= r < 24
    ensures r * MsPerHour <= TimeWithinDay(t) < (r + 1) * MsPerHour
  {
    TimeWithinDay(t) / MsPerHour
  }

  function MinFromTime(t: int): (r: int)
    ensures 0 <= r < 60
  {
    (TimeWithinDay(t) / MsPerMinute) % 60
  }

  function SecFromTime(t: int): (r: int)
    ensures 0 <= r < 60
  {
    (TimeWithinDay(t) / MsPerSecond) % 60
  }

  function MsFromTime(t: int): (r: int)
    ensures 0 <= r < 1000
  {
    TimeWithinDay(t) % MsPerSecond
  }

  /** MakeTime(hour, min, sec, ms): milliseconds since midnight, without any
      range check, so that out-of-range components carry into other days. */
  function MakeTime(hour: int, min: int, sec: int, ms: int): int
  {
    hour * MsPerHour + min * MsPerMinute + sec * MsPerSecond + ms
  }

  /** MakeDate(day, time): the time value of `time` milliseconds into `day`. */
  function MakeDate(day: int, time: int): int
  {
    day * MsPerDay + time
  }

  lemma MakeDateParts(day: int, time: int)
    requires 0 <= time < MsPerDay
    ensures Day(MakeDate(day, time)) == day
    ensures TimeWithinDay(MakeDate(day, time)) == time
  {
    var t := MakeDate(day, time);
    assert t == day * MsPerDay + time;
    assert t / MsPerDay == day;
  }

  /** A time value built from a day number and a time within the day splits
      back into the two. */
  lemma TimeParts(t: int, day: int, time: int)
    requires 0 <= time < MsPerDay && t == day * MsPerDay + time
    ensures Day(t) == day && TimeWithinDay(t) == time
  {
    MakeDateParts(day, time);
  }

  /** Time values are ordered by day number first and time of day second. */
  lemma TimeOrder(a: int, b: int)
    ensures a <= b <==> Day(a) < Day(b) || (Day(a) == Day(b) && TimeWithinDay(a) <= TimeWithinDay(b))
  {
    var da, db := Day(a), Day(b);
    if da < db {
      assert (db - da) * MsPerDay >= MsPerDay;
    } else if db < da {
      assert (da - db) * MsPerDay >= MsPerDay;
    }
  }

  /** A time of day whose components are each in their usual range. */
  predicate ClockTime(hour: int, min: int, sec: int, ms: int)
  {
    0 <= hour < 24 && 0 <= min < 60 && 0 <= sec < 60 && 0 <= ms < 1000
  }

  lemma ClockTimeParts(hour: int, min: int, sec: int, ms: int)
    requires ClockTime(hour, min, sec, ms)
    ensures 0 <= MakeTime(hour, min, sec, ms) < MsPerDay
    ensures HourFromTime(MakeTime(hour, min, sec, ms)) == hour
    ensures MinFromTime(MakeTime(hour, min, sec, ms)) == min
    ensures SecFromTime(MakeTime(hour, min, sec, ms)) == sec
    ensures MsFromTime(MakeTime(hour, min, sec, ms)) == ms
  {
    var tm := MakeTime(hour, min, sec, ms);
    assert 0 <= tm < MsPerDay;
    MakeDateParts(0, tm);
    assert TimeWithinDay(tm) == tm;
    assert tm / MsPerHour == hour;
    assert tm / MsPerMinute == hour * 60 + min;
    assert tm / MsPerSecond == (hour * 60 + min) * 60 + sec;
  }

  /** The day of the week, 0 for Sunday; day 0 was a Thursday. */
  function WeekDayOfDay(n: int): (r: int)
    ensures 0 <= r < 7
  {
    (n + 4) % 7
  }

  function WeekDay(t: int): (r: int)
    ensures 0 <= r < 7
  {
    WeekDayOfDay(Day(t))
  }

  /** Going back by the week day index lands on a Sunday. */
  lemma SundayOnOrBefore(n: int)
    ensures WeekDayOfDay(n - WeekDayOfDay(n)) == 0
    ensures WeekDayOfDay(n - WeekDayOfDay(n) + 6) == 6
  {
    var k := (n + 4) % 7;
    assert (n - k + 4) % 7 == 0;
  }

  /** A time value whose day number is the selected day's less its week day
      index falls on a Sunday. */
  lemma SundayBefore(t: int, s: int)
    requires Day(s) == Day(t) - WeekDay(t)
    ensures WeekDay(s) == 0
  {
    SundayOnOrBefore(Day(t));
  }

  /** Six days after that Sunday is a Saturday. */
  lemma SaturdayAfter(t: int, e: int)
    requires Day(e) == Day(t) - WeekDay(t) + 6
    ensures WeekDay(e) == 6
  {
    SundayOnOrBefore(Day(t));
  }

  // ---------------------------------------------------------------------------
  // Years

  predicate IsLeapYear(y: int)
  {
    y % 4 == 0 && (y % 100 != 0 || y % 400 == 0)
  }

  function DaysInYear(y: int): int
  {
    if IsLeapYear(y) then 366 else 365
  }

  /** DayFromYear(y): the day number of 1 January of year y, counted year
      by year from 1970; DayFromYearFormula gives the closed form. */
  function DayFromYear(y: int): int
  {
    if y >= 1970 then DaysFrom1970(y) else -DaysTo1970(y)
  }

  /** Days from 1 January 1970 to 1 January of year y. */
  function DaysFrom1970(y: int): int
    requires y >= 1970
    decreases y - 1970
  {
    if y == 1970 then 0 else DaysFrom1970(y - 1) + DaysInYear(y - 1)
  }

  /** Days from 1 January of year y to 1 January 1970. */
  function DaysTo1970(y: int): int
    requires y <= 1970
    decreases 1970 - y
  {
    if y == 1970 then 0 else DaysTo1970(y + 1) + DaysInYear(y)
  }

  /** A year is as long as the gap between its first day and the next year's. */
  lemma NextYear(y: int)
    ensures DayFromYear(y + 1) == DayFromYear(y) + DaysInYear(y)
  {
    if y >= 1970 {
      assert y + 1 - 1 == y;
    }
  }

  /** DayFromYear as section 21.4.1 of ECMA-262 writes it: 365 days a year
      plus the leap days of the Gregorian rule, counted from 1970. */
  function DayFromYearClosedForm(y: int): int
  {
    365 * (y - 1970) + (y - 1969) / 4 - (y - 1901) / 100 + (y - 1601) / 400
  }

  /** The year-by-year count agrees with the closed form of the standard. */
  lemma {:induction false} DayFromYearFormula(y: int)
    ensures DayFromYear(y) == DayFromYearClosedForm(y)
    decreases if y < 1970 then 1970 - y else y - 1970
  {
    if y > 1970 {
      var p := y - 1;
      DayFromYearFormula(p);
      ClosedFormStep(p);
      NextYear(p);
    } else if y < 1970 {
      DayFromYearFormula(y + 1);
      ClosedFormStep(y);
      NextYear(y);
    }
  }

  lemma ClosedFormStep(y: int)
    ensures DayFromYearClosedForm(y + 1) == DayFromYearClosedForm(y) + DaysInYear(y)
  {
    StepOver4(y);
    StepOver100(y);
    StepOver400(y);
    if y % 400 == 0 {
      MultipleOf400(y);
    } else if y % 100 == 0 {
      MultipleOf100(y);
    }
  }

  // Each correction term of the closed form steps up by one exactly when y
  // is a multiple of its period.

  lemma StepOver4(y: int)
    ensures (y + 1 - 1969) / 4 == (y - 1969) / 4 + (if y % 4 == 0 then 1 else 0)
  {
    var q, r := (y - 1969) / 4, (y - 1969) % 4;
    assert y - 1969 == 4 * q + r;
    if r == 3 {
      assert y + 1 - 1969 == 4 * (q + 1);
      assert y == 4 * (q + 493);
    } else {
      assert y + 1 - 1969 == 4 * q + (r + 1);
      assert y == 4 * (q + 492) + (r + 1);
    }
  }

  lemma StepOver100(y: int)
    ensures (y + 1 - 1901) / 100 == (y - 1901) / 100 + (if y % 100 == 0 then 1 else 0)
  {
    var q, r := (y - 1901) / 100, (y - 1901) % 100;
    assert y - 1901 == 100 * q + r;
    if r == 99 {
      assert y + 1 - 1901 == 100 * (q + 1);
      assert y == 100 * (q + 20);
    } else {
      assert y + 1 - 1901 == 100 * q + (r + 1);
      assert y == 100 * (q + 19) + (r + 1);
    }
  }

  lemma StepOver400(y: int)
    ensures (y + 1 - 1601) / 400 == (y - 1601) / 400 + (if y % 400 == 0 then 1 else 0)
  {
    var q, r := (y - 1601) / 400, (y - 1601) % 400;
    assert y - 1601 == 400 * q + r;
    if r == 399 {
      assert y + 1 - 1601 == 400 * (q + 1);
      assert y == 400 * (q + 5);
    } else {
      assert y + 1 - 1601 == 400 * q + (r + 1);
      assert y == 400 * (q + 4) + (r + 1);
    }
  }

  lemma MultipleOf400(y: int)
    requires y % 400 == 0
    ensures y % 100 == 0 && y % 4 == 0
  {
    var k := y / 400;
    assert y == 100 * (4 * k) && y == 4 * (100 * k);
  }

  lemma MultipleOf100(y: int)
    requires y % 100 == 0
    ensures y % 4 == 0
  {
    var k := y / 100;
    assert y == 4 * (25 * k);
  }

  lemma {:induction false} DayFromYearMonotone(a: int, b: int)
    requires a <= b
    ensures DayFromYear(a) + 365 * (b - a) <= DayFromYear(b)
    decreases b - a
  {
    if a < b {
      NextYear(a);
      DayFromYearMonotone(a + 1, b);
    }
  }

  function YearSearchUp(n: int, y: int): (r: int)
    requires DayFromYear(y) <= n
    ensures y <= r
    ensures DayFromYear(r) <= n < DayFromYear(r + 1)
    decreases n - DayFromYear(y)
  {
    NextYear(y);
    if n < DayFromYear(y + 1) then y else YearSearchUp(n, y + 1)
  }

  function YearSearchDown(n: int, y: int): (r: int)
    requires n < DayFromYear(y + 1)
    ensures r <= y
    ensures DayFromYear(r) <= n < DayFromYear(r + 1)
    decreases DayFromYear(y + 1) - n
  {
    NextYear(y);
    if DayFromYear(y) <= n then y else YearSearchDown(n, y - 1)
  }

  /** YearOfDay(n): the largest year whose first day is not after day n. */
  function YearOfDay(n: int): (r: int)
    ensures DayFromYear(r) <= n < DayFromYear(r + 1)
  {
    if 0 <= n then YearSearchUp(n, 1970) else YearSearchDown(n, 1969)
  }

  /** The year holding a day is the only year whose span holds that day. */
  lemma YearOfDayUnique(n: int, y: int)
    requires DayFromYear(y) <= n < DayFromYear(y + 1)
    ensures YearOfDay(n) == y
  {
    var r := YearOfDay(n);
    if r < y {
      DayFromYearMonotone(r + 1, y);
    } else if y < r {
      DayFromYearMonotone(y + 1, r);
    }
  }

  // ---------------------------------------------------------------------------
  // Months

  function DaysInMonth(year: int, month: int): (r: int)
    requires 0 <= month < 12
    ensures 28 <= r <= 31
    ensures month == 1 ==> (r == 29 <==> IsLeapYear(year))
  {
    if month == 1 then (if IsLeapYear(year) then 29 else 28)
    else if month == 3 || month == 5 || month == 8 || month == 10 then 30
    else 31
  }

  /** Days of the year before the first day of `month`; month 12 stands for
      the first day of the next year. */
  function DaysBeforeMonth(year: int, month: int): int
    requires 0 <= month <= 12
  {
    var leap := if IsLeapYear(year) then 1 else 0;
    if month == 0 then 0
    else if month == 1 then 31
    else 59 + leap + (153 * (month - 2) + 2) / 5
  }

  lemma DaysBeforeNextMonth(year: int, month: int)
    requires 0 <= month < 12
    ensures DaysBeforeMonth(year, month + 1) == DaysBeforeMonth(year, month) + DaysInMonth(year, month)
    ensures DaysBeforeMonth(year, 12) == DaysInYear(year)
  {
  }

  lemma DaysBeforeMonthMonotone(year: int, a: int, b: int)
    requires 0 <= a <= b <= 12
    ensures DaysBeforeMonth(year, a) + 28 * (b - a) <= DaysBeforeMonth(year, b)
    decreases b - a
  {
    if a < b {
      DaysBeforeNextMonth(year, a);
      DaysBeforeMonthMonotone(year, a + 1, b);
    }
  }

  /** The month holding the d-th day (from 0) of a year: January and
      February directly, and from March on the inverse of the 153-days-per-
      five-months pattern of DaysBeforeMonth. */
  function MonthOfDayInYear(year: int, d: int): (r: int)
    requires 0 <= d < DaysInYear(year)
    ensures 0 <= r < 12
    ensures DaysBeforeMonth(year, r) <= d < DaysBeforeMonth(year, r + 1)
  {
    var leap := if IsLeapYear(year) then 1 else 0;
    if d < 31 then 0
    else if d < 59 + leap then 1
    else (5 * (d - 59 - leap) + 2) / 153 + 2
  }

  lemma MonthOfDayInYearUnique(year: int, d: int, m: int)
    requires 0 <= m < 12
    requires DaysBeforeMonth(year, m) <= d < DaysBeforeMonth(year, m + 1)
    ensures 0 <= d < DaysInYear(year)
    ensures MonthOfDayInYear(year, d) == m
  {
    DaysBeforeMonthMonotone(year, m + 1, 12);
    DaysBeforeNextMonth(year, 11);
    var r := MonthOfDayInYear(year, d);
    if r < m {
      DaysBeforeMonthMonotone(year, r + 1, m);
    } else if m < r {
      DaysBeforeMonthMonotone(year, m + 1, r);
    }
  }

  // ---------------------------------------------------------------------------
  // Calendar dates of day numbers and time values

  function DayWithinYear(n: int): (r: int)
    ensures 0 <= r < DaysInYear(YearOfDay(n))
  {
    NextYear(YearOfDay(n));
    n - DayFromYear(YearOfDay(n))
  }

  function MonthOfDay(n: int): (r: int)
    ensures 0 <= r < 12
  {
    MonthOfDayInYear(YearOfDay(n), DayWithinYear(n))
  }

  function DateOfDay(n: int): (r: int)
    ensures 1 <= r <= DaysInMonth(YearOfDay(n), MonthOfDay(n))
  {
    var m := MonthOfDay(n);
    DaysBeforeNextMonth(YearOfDay(n), m);
    DayWithinYear(n) - DaysBeforeMonth(YearOfDay(n), m) + 1
  }

  function YearFromTime(t: int): int
  {
    YearOfDay(Day(t))
  }

  function MonthFromTime(t: int): (r: int)
    ensures 0 <= r < 12
  {
    MonthOfDay(Day(t))
  }

  function DateFromTime(t: int): (r: int)
    ensures 1 <= r <= DaysInMonth(YearFromTime(t), MonthFromTime(t))
  {
    DateOfDay(Day(t))
  }

  /** MakeDay(year, month, date): the day number of the given calendar date,
      where an out-of-range month carries into the year and an out-of-range
      date into the following or preceding months (date 0 is the last day
      of the previous month). */
  function MakeDay(year: int, month: int, date: int): int
  {
    var ym := year + month / 12;
    var mn := month % 12;
    DayFromYear(ym) + DaysBeforeMonth(ym, mn) + date - 1
  }

  /** For a month in 0..11 no carry happens. */
  lemma MakeDayInYear(year: int, month: int, date: int)
    requires 0 <= month < 12
    ensures MakeDay(year, month, date) == DayFromYear(year) + DaysBeforeMonth(year, month) + date - 1
  {
    assert month / 12 == 0 && month % 12 == month;
  }

  /** A month outside 0..11 is the same as the carried year and month. */
  lemma MakeDayCarry(year: int, month: int, date: int)
    ensures MakeDay(year, month, date) == MakeDay(year + month / 12, month % 12, date)
  {
    MakeDayInYear(year + month / 12, month % 12, date);
  }

  /** A date past the first of the month counts days from it. */
  lemma MakeDayFromFirst(year: int, month: int, date: int)
    ensures MakeDay(year, month, date) == MakeDay(year, month, 1) + date - 1
  {
  }

  /** Calendar date to day number and back gives back the calendar date. */
  lemma CivilOfMakeDay(year: int, month: int, date: int, n: int)
    requires 0 <= month < 12 && 1 <= date <= DaysInMonth(year, month)
    requires MakeDay(year, month, date) == n
    ensures YearOfDay(n) == year && MonthOfDay(n) == month && DateOfDay(n) == date
  {
    var d := DaysBeforeMonth(year, month) + date - 1;
    MakeDayInYear(year, month, date);
    DaysBeforeNextMonth(year, month);
    MonthOfDayInYearUnique(year, d, month);
    NextYear(year);
    YearOfDayUnique(n, year);
    assert DayWithinYear(n) == d;
  }

  /** Day number to calendar date and back gives back the day number. */
  lemma MakeDayOfCivil(n: int)
    ensures MakeDay(YearOfDay(n), MonthOfDay(n), DateOfDay(n)) == n
  {
    MakeDayInYear(YearOfDay(n), MonthOfDay(n), DateOfDay(n));
  }

  /** Two days with the same calendar date are the same day. */
  lemma CivilInjective(a: int, b: int)
    requires YearOfDay(a) == YearOfDay(b) && MonthOfDay(a) == MonthOfDay(b) && DateOfDay(a) == DateOfDay(b)
    ensures a == b
  {
    MakeDayOfCivil(a);
    MakeDayOfCivil(b);
  }

  /** The first day of the month after (year, month) follows its last day. */
  lemma MakeDayNextMonth(year: int, month: int)
    requires 0 <= month < 12
    ensures MakeDay(year, month + 1, 1) == MakeDay(year, month, 1) + DaysInMonth(year, month)
  {
    MakeDayInYear(year, month, 1);
    DaysBeforeNextMonth(year, month);
    if month < 11 {
      MakeDayInYear(year, month + 1, 1);
    } else {
      NextYear(year);
      assert (month + 1) / 12 == 1 && (month + 1) % 12 == 0;
    }
  }

  /** The same, with the month carried into the year as MakeDay does. */
  lemma MakeDayNextMonthCarried(year: int, month: int)
    requires 0 <= month < 12
    ensures MakeDay(year + (month + 1) / 12, (month + 1) % 12, 1)
            == MakeDay(year, month, 1) + DaysInMonth(year, month)
  {
    MakeDayNextMonth(year, month);
    MakeDayCarry(year, month + 1, 1);
  }

  /** Date 0 of the next month is the last day of this one. */
  lemma LastOfMonth(year: int, month: int)
    requires 0 <= month < 12
    ensures MakeDay(year, month + 1, 0) == MakeDay(year, month, 1) + DaysInMonth(year, month) - 1
  {
    MakeDayNextMonthCarried(year, month);
    MakeDayCarry(year, month + 1, 0);
    MakeDayFromFirst(year + (month + 1) / 12, (month + 1) % 12, 0);
  }

  /** The year and month before (year, month). */
  function PreviousMonth(year: int, month: int): (r: (int, int))
    requires 0 <= month < 12
    ensures 0 <= r.1 < 12
    ensures MakeDay(r.0, r.1, 1) + DaysInMonth(r.0, r.1) == MakeDay(year, month, 1)
  {
    if month == 0 then
      var py := year - 1;
      MakeDayInYear(py, 11, 1);
      MakeDayInYear(year, 0, 1);
      DaysBeforeNextMonth(py, 11);
      NextYear(py);
      (py, 11)
    else
      MakeDayNextMonth(year, month - 1);
      (year, month - 1)
  }

  /** Counting k days back from day n (j is that day): while k is below n's
      date the day stays in n's month; for up to a month more it is in the
      month before. */
  lemma DaysBack(n: int, k: int, j: int)
    requires 0 <= k && j == n - k
    ensures var y, m, d := YearOfDay(n), MonthOfDay(n), DateOfDay(n);
      var p := PreviousMonth(y, m);
      && (k < d ==>
            YearOfDay(j) == y && MonthOfDay(j) == m && DateOfDay(j) == d - k)
      && (d <= k < d + DaysInMonth(p.0, p.1) ==>
            YearOfDay(j) == p.0 && MonthOfDay(j) == p.1
            && DateOfDay(j) == DaysInMonth(p.0, p.1) + d - k)
  {
    var y, m, d := YearOfDay(n), MonthOfDay(n), DateOfDay(n);
    MakeDayOfCivil(n);
    MakeDayFromFirst(y, m, d);
    if k < d {
      MakeDayFromFirst(y, m, d - k);
      CivilOfMakeDay(y, m, d - k, j);
    } else {
      var p := PreviousMonth(y, m);
      var dp := DaysInMonth(p.0, p.1) + d - k;
      if 1 <= dp {
        MakeDayFromFirst(p.0, p.1, dp);
        CivilOfMakeDay(p.0, p.1, dp, j);
      }
    }
  }

  /** MakeDay on month `month + k`, which may carry into another year, is
      counted from the first of the carried month (y, m). */
  lemma MakeDayMonthsAfter(year: int, month: int, k: int, date: int, y: int, m: int)
    requires y == year + (month + k) / 12 && m == (month + k) % 12
    ensures MakeDay(year, month + k, date) == MakeDay(y, m, 1) + date - 1
  {
    MakeDayCarry(year, month + k, date);
    MakeDayFromFirst(y, m, date);
  }

  /** A date past the end of a month, by less than a month, is a date of
      the month after it. */
  lemma MonthRollOver(y: int, m: int, date: int, n: int)
    requires 0 <= m < 12 && DaysInMonth(y, m) < date <= DaysInMonth(y, m) + 28
    requires n == MakeDay(y, m, 1) + date - 1
    ensures YearOfDay(n) == y + (m + 1) / 12 && MonthOfDay(n) == (m + 1) % 12
    ensures DateOfDay(n) == date - DaysInMonth(y, m)
  {
    var ny, nm, nd := y + (m + 1) / 12, (m + 1) % 12, date - DaysInMonth(y, m);
    MakeDayNextMonthCarried(y, m);
    MakeDayFromFirst(ny, nm, nd);
    CivilOfMakeDay(ny, nm, nd, n);
  }

  /** Counting k days on from day n (j is that day): while n's date plus k
      stays within n's month the day stays in it; for up to 28 days more it
      is in the month after. */
  lemma DaysAhead(n: int, k: int, j: int)
    requires 0 <= k && j == n + k
    ensures var y, m, d := YearOfDay(n), MonthOfDay(n), DateOfDay(n);
      && (d + k <= DaysInMonth(y, m) ==>
            YearOfDay(j) == y && MonthOfDay(j) == m && DateOfDay(j) == d + k)
      && (DaysInMonth(y, m) < d + k <= DaysInMonth(y, m) + 28 ==>
            YearOfDay(j) == y + (m + 1) / 12 && MonthOfDay(j) == (m + 1) % 12
            && DateOfDay(j) == d + k - DaysInMonth(y, m))
  {
    var y, m, d := YearOfDay(n), MonthOfDay(n), DateOfDay(n);
    MakeDayOfCivil(n);
    MakeDayFromFirst(y, m, d);
    if d + k <= DaysInMonth(y, m) {
      MakeDayFromFirst(y, m, d + k);
      CivilOfMakeDay(y, m, d + k, j);
    } else if d + k <= DaysInMonth(y, m) + 28 {
      MonthRollOver(y, m, d + k, j);
    }
  }

  // ---------------------------------------------------------------------------
  // The Date setters, as functions of the old time value

  /** setHours(hour, min, sec, ms): a new time of day on the same day number. */
  function WithHours(t: int, hour: int, min: int, sec: int, ms: int): (r: int)
    ensures ClockTime(hour, min, sec, ms) ==>
              Day(r) == Day(t) && TimeWithinDay(r) == MakeTime(hour, min, sec, ms)
  {
    var r := MakeDate(Day(t), MakeTime(hour, min, sec, ms));
    if ClockTime(hour, min, sec, ms) then
      ClockTimeParts(hour, min, sec, ms);
      MakeDateParts(Day(t), MakeTime(hour, min, sec, ms));
      r
    else
      r
  }

  /** setHours(hour, min): seconds and milliseconds are kept. */
  function WithHoursMinutes(t: int, hour: int, min: int): (r: int)
    ensures 0 <= hour < 24 && 0 <= min < 60 ==>
              Day(r) == Day(t) && HourFromTime(r) == hour && MinFromTime(r) == min
              && SecFromTime(r) == SecFromTime(t) && MsFromTime(r) == MsFromTime(t)
  {
    if 0 <= hour < 24 && 0 <= min < 60 then
      ClockTimeParts(hour, min, SecFromTime(t), MsFromTime(t));
      WithHours(t, hour, min, SecFromTime(t), MsFromTime(t))
    else
      WithHours(t, hour, min, SecFromTime(t), MsFromTime(t))
  }

  /** setDate(date): the day number moves by the difference of the dates and
      the time within the day stays; WithDateIsSetDate shows this is the
      MakeDay(YearFromTime(t), MonthFromTime(t), date) of the standard. */
  function WithDate(t: int, date: int): (r: int)
    ensures Day(r) == Day(t) + (date - DateFromTime(t))
    ensures TimeWithinDay(r) == TimeWithinDay(t)
  {
    MakeDateParts(Day(t) + (date - DateFromTime(t)), TimeWithinDay(t));
    MakeDate(Day(t) + (date - DateFromTime(t)), TimeWithinDay(t))
  }

  /** The setDate algorithm of section 21.4.4.20 of ECMA-262: the date
      replaced within the current year and month, the time of day kept. */
  lemma WithDateIsSetDate(t: int, date: int)
    ensures WithDate(t, date) == MakeDate(MakeDay(YearFromTime(t), MonthFromTime(t), date), TimeWithinDay(t))
  {
    var y, m := YearFromTime(t), MonthFromTime(t);
    MakeDayOfCivil(Day(t));
    MakeDayFromFirst(y, m, DateFromTime(t));
    MakeDayFromFirst(y, m, date);
  }

  /** setMonth(month, date): day `date` counted from the first of month
      `month` of the current year, carrying into other years. */
  function WithMonth(t: int, month: int, date: int): (r: int)
    ensures TimeWithinDay(r) == TimeWithinDay(t)
    ensures Day(r) == MakeDay(YearFromTime(t), month, date)
  {
    MakeDateParts(MakeDay(YearFromTime(t), month, date), TimeWithinDay(t));
    MakeDate(MakeDay(YearFromTime(t), month, date), TimeWithinDay(t))
  }

  /** setDate(1): the first day of t's month, at t's time of day. */
  lemma FirstOfMonthOf(t: int, first: int)
    requires first == WithDate(t, 1)
    ensures YearFromTime(first) == YearFromTime(t) && MonthFromTime(first) == MonthFromTime(t)
    ensures DateFromTime(first) == 1 && Day(first) <= Day(t)
    ensures TimeWithinDay(first) == TimeWithinDay(t)
  {
    var n := Day(t);
    MakeDayOfCivil(n);
    MakeDayFromFirst(YearOfDay(n), MonthOfDay(n), DateOfDay(n));
    CivilOfMakeDay(YearOfDay(n), MonthOfDay(n), 1, Day(first));
  }

  /** Day 0 of the month after day n's month is the last day of n's month. */
  lemma LastDayOfMonth(n: int, j: int)
    requires j == MakeDay(YearOfDay(n), MonthOfDay(n) + 1, 0)
    ensures YearOfDay(j) == YearOfDay(n) && MonthOfDay(j) == MonthOfDay(n)
    ensures DateOfDay(j) == DaysInMonth(YearOfDay(n), MonthOfDay(n)) && n <= j
  {
    var y, m := YearOfDay(n), MonthOfDay(n);
    MakeDayOfCivil(n);
    MakeDayFromFirst(y, m, DateOfDay(n));
    LastOfMonth(y, m);
    MakeDayFromFirst(y, m, DaysInMonth(y, m));
    CivilOfMakeDay(y, m, DaysInMonth(y, m), j);
  }

  /** setMonth(getMonth() + 1, 0): the last day of t's month, at t's time
      of day. */
  lemma LastOfMonthOf(t: int, last: int)
    requires last == WithMonth(t, MonthFromTime(t) + 1, 0)
    ensures YearFromTime(last) == YearFromTime(t) && MonthFromTime(last) == MonthFromTime(t)
    ensures DateFromTime(last) == DaysInMonth(YearFromTime(t), MonthFromTime(t)) && Day(t) <= Day(last)
    ensures TimeWithinDay(last) == TimeWithinDay(t)
  {
    LastDayOfMonth(Day(t), Day(last));
  }

  /** setMonth(getMonth() + s) on a date the target month (y, m) lacks:
      the date rolls over into the month after the target. */
  lemma MonthStepRollOver(t: int, s: int, r: int, y: int, m: int)
    requires r == WithMonth(t, MonthFromTime(t) + s, DateFromTime(t))
    requires y == YearFromTime(t) + (MonthFromTime(t) + s) / 12 && m == (MonthFromTime(t) + s) % 12
    requires DaysInMonth(y, m) < DateFromTime(t)
    ensures YearFromTime(r) == y + (m + 1) / 12 && MonthFromTime(r) == (m + 1) % 12
    ensures DateFromTime(r) == DateFromTime(t) - DaysInMonth(y, m)
    ensures TimeWithinDay(r) == TimeWithinDay(t)
  {
    MakeDayMonthsAfter(YearFromTime(t), MonthFromTime(t), s, DateFromTime(t), y, m);
    MonthRollOver(y, m, DateFromTime(t), Day(r));
  }

  /** setMonth(getMonth() + s) on a date the target month (y, m) has: that
      date of the target month. */
  lemma MonthStepKeepsDate(t: int, s: int, r: int, y: int, m: int)
    requires r == WithMonth(t, MonthFromTime(t) + s, DateFromTime(t))
    requires y == YearFromTime(t) + (MonthFromTime(t) + s) / 12 && m == (MonthFromTime(t) + s) % 12
    requires DateFromTime(t) <= DaysInMonth(y, m)
    ensures YearFromTime(r) == y && MonthFromTime(r) == m && DateFromTime(r) == DateFromTime(t)
    ensures TimeWithinDay(r) == TimeWithinDay(t)
  {
    MonthStepToDate(t, s, DateFromTime(t), r, y, m);
  }

  /** setMonth(getMonth() + s, date) with a date the target month (y, m)
      has: that date of the target month. */
  lemma MonthStepToDate(t: int, s: int, date: int, r: int, y: int, m: int)
    requires r == WithMonth(t, MonthFromTime(t) + s, date)
    requires y == YearFromTime(t) + (MonthFromTime(t) + s) / 12 && m == (MonthFromTime(t) + s) % 12
    requires 1 <= date <= DaysInMonth(y, m)
    ensures YearFromTime(r) == y && MonthFromTime(r) == m && DateFromTime(r) == date
    ensures TimeWithinDay(r) == TimeWithinDay(t)
  {
    MakeDayMonthsAfter(YearFromTime(t), MonthFromTime(t), s, date, y, m);
    MakeDayFromFirst(y, m, date);
    CivilOfMakeDay(y, m, date, Day(r));
  }
}
