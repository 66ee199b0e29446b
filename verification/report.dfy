/** The report page (components/report-page.tsx): the day, week or month
    window around the selected date, the entries inside it, the smoked and
    resisted counts, 24 hour buckets with average mood and urgency, the ten
    most recent smoked entries, and the prev/next date navigation. */
module Report {
  import opened Calendar
  import opened DateObject
  import opened Entries

  datatype Granularity = DayFilter | WeekFilter | MonthFilter
  datatype Direction = Prev | Next

  /** A window of time values, inclusive at both ends. */
  datatype Interval = Interval(start: int, end: int)

  // ---------------------------------------------------------------------------
  // The time window

  /** The window the report shows, as the setter calls of the source leave
      the two Date copies of the selected date. */
  function Window(selected: int, g: Granularity): Interval
  {
    match g
    case DayFilter =>
      Interval(WithHours(selected, 0, 0, 0, 0), WithHours(selected, 23, 59, 59, 999))
    case WeekFilter =>
      var start := WeekStartOf(selected);
      Interval(start, WithHours(WithDate(selected, DateFromTime(start) + 6), 23, 59, 59, 999))
    case MonthFilter =>
      Interval(WithHours(WithDate(selected, 1), 0, 0, 0, 0),
               WithHours(WithMonth(selected, MonthFromTime(selected) + 1, 0), 23, 59, 59, 999))
  }

  /** The window computation: two copies of the selected date, each moved
      by its setter calls; each arm of the if chain is a method of its own. */
  method ComputeWindow(selected: int, g: Granularity) returns (w: Interval)
    ensures w == Window(selected, g)
  {
    match g {
      case DayFilter => w := ComputeDayWindow(selected);
      case WeekFilter => w := ComputeWeekWindow(selected);
      case MonthFilter => w := ComputeMonthWindow(selected);
    }
  }

  /** setHours(0, 0, 0, 0) on one copy, setHours(23, 59, 59, 999) on the other. */
  method ComputeDayWindow(selected: int) returns (w: Interval)
    ensures w == Window(selected, DayFilter)
  {
    var startDate := new LocalDate(selected);
    var endDate := new LocalDate(selected);
    startDate.SetHours(0, 0, 0, 0);
    endDate.SetHours(23, 59, 59, 999);
    w := Interval(startDate.time, endDate.time);
  }

  /** Back to Sunday at midnight on one copy, then the other copy moved to
      the Sunday's date plus six, at 23:59:59.999. */
  method ComputeWeekWindow(selected: int) returns (w: Interval)
    ensures w == Window(selected, WeekFilter)
  {
    var startDate := new LocalDate(selected);
    var endDate := new LocalDate(selected);
    StartOfWeek(startDate);
    EndOfDayOn(endDate, startDate.GetDate() + 6);
    w := Interval(startDate.time, endDate.time);
  }

  /** getDay(), setDate(getDate() - dayOfWeek), setHours(0, 0, 0, 0). */
  method StartOfWeek(startDate: LocalDate)
    modifies startDate
    ensures startDate.time == WeekStartOf(old(startDate.time))
  {
    var dayOfWeek := startDate.GetDay();
    startDate.SetDate(startDate.GetDate() - dayOfWeek);
    startDate.SetHours(0, 0, 0, 0);
  }

  /** setDate(date), then setHours(23, 59, 59, 999). */
  method EndOfDayOn(endDate: LocalDate, date: int)
    modifies endDate
    ensures endDate.time == WithHours(WithDate(old(endDate.time), date), 23, 59, 59, 999)
  {
    endDate.SetDate(date);
    endDate.SetHours(23, 59, 59, 999);
  }

  /** setDate(1) and midnight on one copy; setMonth(getMonth() + 1, 0) and
      23:59:59.999 on the other. */
  method ComputeMonthWindow(selected: int) returns (w: Interval)
    ensures w == Window(selected, MonthFilter)
  {
    var startDate := new LocalDate(selected);
    var endDate := new LocalDate(selected);
    startDate.SetDate(1);
    startDate.SetHours(0, 0, 0, 0);
    endDate.SetMonthDate(endDate.GetMonth() + 1, 0);
    endDate.SetHours(23, 59, 59, 999);
    w := Interval(startDate.time, endDate.time);
  }

  /** Day window: midnight to 23:59:59.999 of the selected day. */
  lemma DayWindow(selected: int)
    ensures var w := Window(selected, DayFilter);
      && Day(w.start) == Day(selected) && TimeWithinDay(w.start) == 0
      && Day(w.end) == Day(selected) && TimeWithinDay(w.end) == LastMsOfDay
      && w.end - w.start == MsPerDay - 1
      && w.start <= selected <= w.end
  {
    var start, end := WithHours(selected, 0, 0, 0, 0), WithHours(selected, 23, 59, 59, 999);
    assert Window(selected, DayFilter) == Interval(start, end);
    assert ClockTime(0, 0, 0, 0) && ClockTime(23, 59, 59, 999);
  }

  /** Whatever the filter, the window contains the selected time. */
  lemma WindowAroundSelected(selected: int, g: Granularity)
    ensures Window(selected, g).start <= selected <= Window(selected, g).end
  {
    match g
    case DayFilter => DayWindow(selected);
    case WeekFilter =>
      WeekWindowStart(selected);
      WeekWindowEndDay(selected);
      TimeOrder(selected, Window(selected, g).end);
    case MonthFilter => MonthWindow(selected);
  }

  /** The week window's start as the source computes it. */
  function WeekStartOf(selected: int): int
  {
    WithHours(WithDate(selected, DateFromTime(selected) - WeekDay(selected)), 0, 0, 0, 0)
  }

  /** Week window start: the Sunday on or before the selected day, at midnight. */
  lemma WeekWindowStart(selected: int)
    ensures var w := Window(selected, WeekFilter);
      && Day(w.start) == Day(selected) - WeekDay(selected)
      && WeekDay(w.start) == 0
      && TimeWithinDay(w.start) == 0
      && w.start <= selected
  {
    var start := WeekStartOf(selected);
    assert Window(selected, WeekFilter).start == start;
    assert ClockTime(0, 0, 0, 0);
    SundayBefore(selected, start);
  }

  /** The date of the week window's Sunday: within the selected date's month
      when the selected date is past the week day index, otherwise a date of
      the previous month. */
  lemma WeekStartDate(selected: int)
    ensures var w := Window(selected, WeekFilter);
      var d, k := DateFromTime(selected), WeekDay(selected);
      var p := PreviousMonth(YearFromTime(selected), MonthFromTime(selected));
      && (k < d ==> DateFromTime(w.start) == d - k)
      && (d <= k ==> DateFromTime(w.start) == DaysInMonth(p.0, p.1) + d - k)
  {
    var start := WeekStartOf(selected);
    assert Window(selected, WeekFilter).start == start;
    assert ClockTime(0, 0, 0, 0);
    DaysBack(Day(selected), WeekDay(selected), Day(start));
  }

  /** Where the week window's end lands, in both cases. */
  lemma WeekWindowEndDay(selected: int)
    ensures var w := Window(selected, WeekFilter);
      var d, k := DateFromTime(selected), WeekDay(selected);
      var p := PreviousMonth(YearFromTime(selected), MonthFromTime(selected));
      && Day(w.start) == Day(selected) - k && TimeWithinDay(w.start) == 0
      && TimeWithinDay(w.end) == LastMsOfDay
      && (k < d ==> Day(w.end) == Day(w.start) + 6)
      && (d <= k ==> Day(w.end) == Day(w.start) + 6 + DaysInMonth(p.0, p.1))
  {
    var start := WeekStartOf(selected);
    var end := WithHours(WithDate(selected, DateFromTime(start) + 6), 23, 59, 59, 999);
    assert Window(selected, WeekFilter) == Interval(start, end);
    assert ClockTime(0, 0, 0, 0) && ClockTime(23, 59, 59, 999);
    WeekStartDate(selected);
  }

  /** Week window end when the Sunday is in the selected date's month: the
      following Saturday at 23:59:59.999, seven days after the start less
      one millisecond. */
  lemma WeekWindowEndSameMonth(selected: int)
    requires WeekDay(selected) < DateFromTime(selected)
    ensures var w := Window(selected, WeekFilter);
      && Day(w.end) == Day(w.start) + 6
      && WeekDay(w.end) == 6
      && TimeWithinDay(w.end) == LastMsOfDay
      && w.end - w.start == 7 * MsPerDay - 1
      && selected <= w.end
  {
    WeekWindowEndDay(selected);
    SaturdayAfter(selected, Window(selected, WeekFilter).end);
  }

  /** Week window end when the Sunday falls in the previous month: setDate
      on the selected date's month with the Sunday's (large) date lands the
      end as many days later as the previous month is long. */
  lemma WeekWindowEndAcrossMonth(selected: int)
    requires DateFromTime(selected) <= WeekDay(selected)
    ensures var w := Window(selected, WeekFilter);
      var p := PreviousMonth(YearFromTime(selected), MonthFromTime(selected));
      && Day(w.end) == Day(w.start) + 6 + DaysInMonth(p.0, p.1)
      && TimeWithinDay(w.end) == LastMsOfDay
  {
    WeekWindowEndDay(selected);
  }

  /** The Sunday-to-Saturday week the window is meant to be. */
  function IntendedWeekWindow(selected: int): (w: Interval)
    ensures Day(w.start) == Day(selected) - WeekDay(selected) && WeekDay(w.start) == 0
    ensures TimeWithinDay(w.start) == 0
    ensures Day(w.end) == Day(w.start) + 6 && WeekDay(w.end) == 6
    ensures TimeWithinDay(w.end) == LastMsOfDay
    ensures w.start <= selected <= w.end
  {
    var start := Window(selected, WeekFilter).start;
    var end := MakeDate(Day(start) + 6, LastMsOfDay);
    WeekWindowStart(selected);
    TimeParts(end, Day(start) + 6, LastMsOfDay);
    SaturdayAfter(selected, end);
    Interval(start, end)
  }

  /** The window as written agrees with the intended week exactly when the
      Sunday is in the selected date's month. */
  lemma WeekWindowAsIntended(selected: int)
    ensures Window(selected, WeekFilter) == IntendedWeekWindow(selected)
            <==> WeekDay(selected) < DateFromTime(selected)
  {
    var w, v := Window(selected, WeekFilter), IntendedWeekWindow(selected);
    WeekWindowEndDay(selected);
    if WeekDay(selected) < DateFromTime(selected) {
      assert w.end == v.end;
    } else {
      assert Day(w.end) != Day(v.end);
    }
  }

  /** Any time on a Thursday 1 October (1970 has one, see
      ThursdayFirstOfOctober): the week window runs from Sunday 27 September
      to Monday 2 November instead of Saturday 3 October. */
  lemma WeekWindowAcrossMonthExample(selected: int, y: int)
    requires Day(selected) == MakeDay(y, 9, 1) && WeekDay(selected) == 4
    ensures var w, v := Window(selected, WeekFilter), IntendedWeekWindow(selected);
      && YearFromTime(w.start) == y && MonthFromTime(w.start) == 8 && DateFromTime(w.start) == 27
      && YearFromTime(w.end) == y && MonthFromTime(w.end) == 10 && DateFromTime(w.end) == 2
      && YearFromTime(v.end) == y && MonthFromTime(v.end) == 9 && DateFromTime(v.end) == 3
  {
    var n := Day(selected);
    CivilOfMakeDay(y, 9, 1, n);
    var w, v := Window(selected, WeekFilter), IntendedWeekWindow(selected);
    WeekWindowEndDay(selected);
    assert PreviousMonth(y, 9) == (y, 8);
    assert DaysInMonth(y, 8) == 30 && DaysInMonth(y, 9) == 31;
    DaysBack(n, 4, Day(w.start));
    DaysAhead(n, 32, Day(w.end));
    DaysAhead(n, 2, Day(v.end));
  }

  /** 1 October 1970 was a Thursday. */
  lemma ThursdayFirstOfOctober(selected: int)
    requires Day(selected) == MakeDay(1970, 9, 1)
    ensures WeekDay(selected) == 4
  {
  }

  /** Month window: the first of the selected month at midnight to its last
      day (28, 29, 30 or 31) at 23:59:59.999. */
  lemma MonthWindow(selected: int)
    ensures var w := Window(selected, MonthFilter);
      var y, m := YearFromTime(selected), MonthFromTime(selected);
      && YearFromTime(w.start) == y && MonthFromTime(w.start) == m
      && DateFromTime(w.start) == 1 && TimeWithinDay(w.start) == 0
      && YearFromTime(w.end) == y && MonthFromTime(w.end) == m
      && DateFromTime(w.end) == DaysInMonth(y, m) && TimeWithinDay(w.end) == LastMsOfDay
      && w.start <= selected <= w.end
  {
    var first, last := WithDate(selected, 1), WithMonth(selected, MonthFromTime(selected) + 1, 0);
    var start, end := WithHours(first, 0, 0, 0, 0), WithHours(last, 23, 59, 59, 999);
    assert Window(selected, MonthFilter) == Interval(start, end);
    assert ClockTime(0, 0, 0, 0) && ClockTime(23, 59, 59, 999);
    FirstOfMonthOf(selected, first);
    LastOfMonthOf(selected, last);
    TimeOrder(start, selected);
    TimeOrder(selected, end);
  }

  // ---------------------------------------------------------------------------
  // Entries inside the window and their counts

  predicate InWindow(w: Interval, e: Entry)
  {
    w.start <= e.timestamp <= w.end
  }

  /** entries.filter(entry => entry.timestamp >= start && entry.timestamp <= end). */
  function FilteredEntries(entries: seq<Entry>, w: Interval): (r: seq<Entry>)
    ensures forall e :: e in r <==> e in entries && w.start <= e.timestamp <= w.end
  {
    Filter(entries, e => InWindow(w, e))
  }

  /** Filtering keeps the source order and filtering again changes nothing. */
  lemma FilteredEntriesOrderAndIdempotence(a: seq<Entry>, b: seq<Entry>, w: Interval)
    ensures FilteredEntries(a + b, w) == FilteredEntries(a, w) + FilteredEntries(b, w)
    ensures FilteredEntries(FilteredEntries(a, w), w) == FilteredEntries(a, w)
  {
    FilterConcat(a, b, e => InWindow(w, e));
    FilterIdempotent(a, e => InWindow(w, e));
  }

  function SmokedCount(filtered: seq<Entry>): (n: nat)
    ensures n <= |filtered|
  {
    |Filter(filtered, IsSmoked)|
  }

  function ResistedCount(filtered: seq<Entry>): (n: nat)
    ensures n <= |filtered|
  {
    |Filter(filtered, IsResisted)|
  }

  lemma CountsPartition(filtered: seq<Entry>)
    ensures SmokedCount(filtered) + ResistedCount(filtered) == |filtered|
  {
    SmokedResistedPartition(filtered);
  }

  lemma {:induction false} CountsAppend(s: seq<Entry>, e: Entry)
    ensures SmokedCount(s + [e]) == SmokedCount(s) + (if e.smoked then 1 else 0)
    ensures ResistedCount(s + [e]) == ResistedCount(s) + (if e.smoked then 0 else 1)
  {
    FilterConcat(s, [e], IsSmoked);
    FilterConcat(s, [e], IsResisted);
    assert [e][1..] == [];
  }

  // ---------------------------------------------------------------------------
  // Hour buckets

  /** What one hour slot accumulates: the counts, the entry total and the
      running sums of mood and urgency (the source keeps each sum in the
      avgMood / avgUrgency field until it divides it). */
  datatype Tally = Tally(smoked: nat, resisted: nat, moodSum: int, urgencySum: int, totalEntries: nat)

  const EmptyTally: Tally := Tally(0, 0, 0, 0, 0)

  /** One entry added to its hour's slot. */
  function Bump(t: Tally, e: Entry): Tally
  {
    Tally(if e.smoked then t.smoked + 1 else t.smoked,
          if e.smoked then t.resisted else t.resisted + 1,
          t.moodSum + e.mood, t.urgencySum + e.urgency, t.totalEntries + 1)
  }

  function HourOf(e: Entry): (h: int)
    ensures 0 <= h < 24
  {
    HourFromTime(e.timestamp)
  }

  /** The slot of hour h after the entries of s were added in order. */
  function TallyAt(s: seq<Entry>, h: int): Tally
  {
    if s == [] then EmptyTally
    else
      var t := TallyAt(s[..|s| - 1], h);
      if HourOf(s[|s| - 1]) == h then Bump(t, s[|s| - 1]) else t
  }

  /** A bucket as the chart receives it. */
  datatype HourBucket = HourBucket(
    hour: string, smoked: nat, resisted: nat, avgMood: real, avgUrgency: real, totalEntries: nat)

  function Digit(d: int): char
    requires 0 <= d < 10
  {
    "0123456789"[d]
  }

  /** i.toString().padStart(2, "0") + ":00" for an hour i in 0..23. */
  function HourLabel(i: int): (r: string)
    requires 0 <= i < 24
    ensures |r| == 5 && r[2..] == ":00"
    ensures '0' <= r[0] <= '9' && '0' <= r[1] <= '9'
    ensures ((r[0] - '0') as int) * 10 + (r[1] - '0') as int == i
  {
    [Digit(i / 10), Digit(i % 10)] + ":00"
  }

  /** A running sum divided by the entry count, 0 for an empty hour. */
  function Mean(sum: int, n: nat): (q: real)
    ensures n > 0 ==> q * n as real == sum as real
    ensures n == 0 ==> q == 0.0
  {
    if n > 0 then sum as real / n as real else 0.0
  }

  /** A mean of values in 1..10 lies in 1..10. */
  lemma MeanBounds(sum: int, n: nat)
    requires 0 < n && n <= sum <= 10 * n
    ensures 1.0 <= Mean(sum, n) <= 10.0
  {
    var x := n as real;
    DivideBoth(x, sum as real, x);
    DivideBoth(sum as real, 10.0 * x, x);
  }

  lemma DivideBoth(a: real, b: real, x: real)
    requires 0.0 < x && a <= b
    ensures a / x <= b / x
    ensures x / x == 1.0 && (10.0 * x) / x == 10.0
  {
  }

  /** The averaging map over the 24 slots. */
  function Averaged(h: int, t: Tally): (b: HourBucket)
    requires 0 <= h < 24
    ensures b.hour == HourLabel(h)
    ensures b.smoked == t.smoked && b.resisted == t.resisted && b.totalEntries == t.totalEntries
    ensures t.totalEntries > 0 ==>
      b.avgMood * t.totalEntries as real == t.moodSum as real
      && b.avgUrgency * t.totalEntries as real == t.urgencySum as real
    ensures t.totalEntries == 0 ==> b.avgMood == 0.0 && b.avgUrgency == 0.0
  {
    HourBucket(HourLabel(h), t.smoked, t.resisted,
               Mean(t.moodSum, t.totalEntries), Mean(t.urgencySum, t.totalEntries),
               t.totalEntries)
  }

  /** hourlyData: 24 slots filled by one pass over the filtered entries,
      then averaged. */
  method HourlyData(filtered: seq<Entry>) returns (data: seq<HourBucket>)
    ensures |data| == 24
    ensures forall h :: 0 <= h < 24 ==> data[h] == Averaged(h, TallyAt(filtered, h))
  {
    var hours := new Tally[24](_ => EmptyTally);
    var i := 0;
    while i < |filtered|
      invariant 0 <= i <= |filtered|
      invariant forall h :: 0 <= h < 24 ==> hours[h] == TallyAt(filtered[..i], h)
    {
      var entry := filtered[i];
      var hour := HourFromTime(entry.timestamp);
      var slot := hours[hour];
      if entry.smoked {
        slot := slot.(smoked := slot.smoked + 1);
      } else {
        slot := slot.(resisted := slot.resisted + 1);
      }
      slot := slot.(totalEntries := slot.totalEntries + 1);
      slot := slot.(moodSum := slot.moodSum + entry.mood);
      slot := slot.(urgencySum := slot.urgencySum + entry.urgency);
      hours[hour] := slot;
      assert filtered[..i + 1][..i] == filtered[..i];
      i := i + 1;
    }
    assert filtered[..i] == filtered;
    data := seq(24, h requires 0 <= h < 24 reads hours => Averaged(h, hours[h]));
  }

  /** In every slot the entry total is the smoked count plus the resisted count. */
  lemma {:induction false} TallyTotal(s: seq<Entry>, h: int)
    ensures TallyAt(s, h).totalEntries == TallyAt(s, h).smoked + TallyAt(s, h).resisted
    decreases |s|
  {
    if s != [] {
      TallyTotal(s[..|s| - 1], h);
    }
  }

  /** With moods and urgencies in 1..10, each sum lies between 1 and 10
      times the entry total. */
  lemma {:induction false} TallySums(s: seq<Entry>, h: int)
    requires forall e :: e in s ==> WellFormed(e)
    ensures var t := TallyAt(s, h);
      && t.totalEntries <= t.moodSum <= 10 * t.totalEntries
      && t.totalEntries <= t.urgencySum <= 10 * t.totalEntries
    decreases |s|
  {
    if s != [] {
      assert forall e :: e in s[..|s| - 1] ==> e in s;
      assert s[|s| - 1] in s;
      TallySums(s[..|s| - 1], h);
    }
  }

  /** Average mood and urgency of a non-empty hour stay within 1..10. */
  lemma AveragesInRange(s: seq<Entry>, h: int)
    requires 0 <= h < 24
    requires forall e :: e in s ==> WellFormed(e)
    ensures var b := Averaged(h, TallyAt(s, h));
      b.totalEntries > 0 ==>
        1.0 <= b.avgMood <= 10.0 && 1.0 <= b.avgUrgency <= 10.0
  {
    var t := TallyAt(s, h);
    TallySums(s, h);
    if t.totalEntries > 0 {
      MeanBounds(t.moodSum, t.totalEntries);
      MeanBounds(t.urgencySum, t.totalEntries);
    }
  }

  /** Sums of the smoked counts, resisted counts and entry totals of the
      slots of hours 0 .. n - 1. */
  function SmokedInHours(s: seq<Entry>, n: nat): nat
  {
    if n == 0 then 0 else SmokedInHours(s, n - 1) + TallyAt(s, n - 1).smoked
  }

  function ResistedInHours(s: seq<Entry>, n: nat): nat
  {
    if n == 0 then 0 else ResistedInHours(s, n - 1) + TallyAt(s, n - 1).resisted
  }

  function EntriesInHours(s: seq<Entry>, n: nat): nat
  {
    if n == 0 then 0 else EntriesInHours(s, n - 1) + TallyAt(s, n - 1).totalEntries
  }

  /** Adding one entry raises exactly the slot of its own hour. */
  lemma {:induction false} HoursAppend(s: seq<Entry>, e: Entry, n: nat)
    ensures var inc := if HourOf(e) < n then 1 else 0;
      && SmokedInHours(s + [e], n) == SmokedInHours(s, n) + (if e.smoked then inc else 0)
      && ResistedInHours(s + [e], n) == ResistedInHours(s, n) + (if e.smoked then 0 else inc)
      && EntriesInHours(s + [e], n) == EntriesInHours(s, n) + inc
  {
    assert (s + [e])[..|s + [e]| - 1] == s;
    if n > 0 {
      HoursAppend(s, e, n - 1);
    }
  }

  /** Each filtered entry is counted in exactly one bucket: over the 24
      buckets the smoked counts add up to smokedCount, the resisted counts
      to resistedCount and the entry totals to the number of entries. */
  lemma {:induction false} BucketsCoverEntries(s: seq<Entry>)
    ensures SmokedInHours(s, 24) == SmokedCount(s)
    ensures ResistedInHours(s, 24) == ResistedCount(s)
    ensures EntriesInHours(s, 24) == |s|
    decreases |s|
  {
    if s == [] {
      EmptyHours(24);
    } else {
      var init, e := s[..|s| - 1], s[|s| - 1];
      assert s == init + [e];
      BucketsCoverEntries(init);
      HoursAppend(init, e, 24);
      CountsAppend(init, e);
    }
  }

  lemma {:induction false} EmptyHours(n: nat)
    ensures SmokedInHours([], n) == 0 && ResistedInHours([], n) == 0 && EntriesInHours([], n) == 0
  {
    if n > 0 {
      EmptyHours(n - 1);
    }
  }

  /** The worked example: on any day, a smoked entry (mood 6, urgency 8)
      at 08:15 and a resisted one (mood 7, urgency 3) at 08:45 give bucket 8
      one of each with averages 6.5 and 5.5, and leave every other bucket
      empty. */
  lemma HourlyExample(day: int, h: int)
    requires 0 <= h < 24
    ensures var a := Entry("a", MakeDate(day, MakeTime(8, 15, 0, 0)), 6, 8, false, true, false, "");
      var b := Entry("b", MakeDate(day, MakeTime(8, 45, 0, 0)), 7, 3, false, false, false, "");
      var bucket := Averaged(h, TallyAt([a, b], h));
      && (h == 8 ==> bucket == HourBucket("08:00", 1, 1, 6.5, 5.5, 2))
      && (h != 8 ==> bucket == HourBucket(HourLabel(h), 0, 0, 0.0, 0.0, 0))
  {
    var ta, tb := MakeTime(8, 15, 0, 0), MakeTime(8, 45, 0, 0);
    ClockTimeParts(8, 15, 0, 0);
    ClockTimeParts(8, 45, 0, 0);
    MakeDateParts(day, ta);
    MakeDateParts(day, tb);
    var a := Entry("a", MakeDate(day, ta), 6, 8, false, true, false, "");
    var b := Entry("b", MakeDate(day, tb), 7, 3, false, false, false, "");
    assert HourOf(a) == 8 && HourOf(b) == 8;
    assert [a, b][..1] == [a];
    assert [a][..0] == [];
    assert TallyAt([a], h) == if h == 8 then Tally(1, 0, 6, 8, 1) else EmptyTally;
    assert TallyAt([a, b], h) == if h == 8 then Tally(1, 1, 13, 11, 2) else EmptyTally;
    assert HourLabel(8) == "08:00";
  }

  // ---------------------------------------------------------------------------
  // The ten most recent smoked entries

  /** filter(smoked).sort(newest first).slice(0, 10). */
  function RecentEntries(filtered: seq<Entry>): (r: seq<Entry>)
    ensures |r| <= 10
  {
    Take(SortNewestFirst(Filter(filtered, IsSmoked)), 10)
  }

  lemma RecentEntriesSpec(filtered: seq<Entry>)
    ensures var r := RecentEntries(filtered);
      && |r| == (if SmokedCount(filtered) < 10 then SmokedCount(filtered) else 10)
      && NewestFirst(r)
      && (forall e :: e in r ==> e.smoked && e in filtered)
      && multiset(r) <= multiset(Filter(filtered, IsSmoked))
      && (forall e, x :: e in filtered && e.smoked && e !in r && x in r ==> e.timestamp <= x.timestamp)
  {
    NewestOfSubset(Filter(filtered, IsSmoked), 10);
    NewestOfOrder(Filter(filtered, IsSmoked), 10);
  }

  // ---------------------------------------------------------------------------
  // Date navigation

  function Step(dir: Direction): int
  {
    if dir == Next then 1 else -1
  }

  /** The selected date after pressing prev or next. */
  function Navigated(selected: int, g: Granularity, dir: Direction): int
  {
    match g
    case DayFilter => WithDate(selected, DateFromTime(selected) + Step(dir))
    case WeekFilter => WithDate(selected, DateFromTime(selected) + 7 * Step(dir))
    case MonthFilter => WithMonth(selected, MonthFromTime(selected) + Step(dir), DateFromTime(selected))
  }

  /** navigateDate: a copy of the selected date moved with setDate or setMonth. */
  method NavigateDate(selected: int, g: Granularity, dir: Direction) returns (r: int)
    ensures r == Navigated(selected, g, dir)
  {
    var newDate := new LocalDate(selected);
    if g == DayFilter {
      newDate.SetDate(newDate.GetDate() + (if dir == Next then 1 else -1));
    } else if g == WeekFilter {
      newDate.SetDate(newDate.GetDate() + (if dir == Next then 7 else -7));
    } else {
      newDate.SetMonth(newDate.GetMonth() + (if dir == Next then 1 else -1));
    }
    r := newDate.time;
  }

  /** Day and week steps move by exactly 1 or 7 days and keep the time of day. */
  lemma NavigateByDays(selected: int, g: Granularity, dir: Direction)
    requires g != MonthFilter
    ensures var r := Navigated(selected, g, dir);
      && Day(r) == Day(selected) + (if g == DayFilter then 1 else 7) * Step(dir)
      && TimeWithinDay(r) == TimeWithinDay(selected)
      && r == selected + (if g == DayFilter then 1 else 7) * Step(dir) * MsPerDay
  {
    var r := Navigated(selected, g, dir);
    var c := (if g == DayFilter then 1 else 7) * Step(dir);
    assert r == WithDate(selected, DateFromTime(selected) + c);
    assert r - selected == (Day(r) - Day(selected)) * MsPerDay;
  }

  /** For day and week, prev followed by next gives back the same date. */
  lemma PrevThenNext(selected: int, g: Granularity)
    requires g != MonthFilter
    ensures Navigated(Navigated(selected, g, Prev), g, Next) == selected
  {
    NavigateByDays(selected, g, Prev);
    NavigateByDays(Navigated(selected, g, Prev), g, Next);
  }

  /** The year and month one month step away from a time value. */
  function TargetMonth(selected: int, dir: Direction): (r: (int, int))
    ensures 0 <= r.1 < 12
  {
    (YearFromTime(selected) + (MonthFromTime(selected) + Step(dir)) / 12,
     (MonthFromTime(selected) + Step(dir)) % 12)
  }

  /** A month step keeps the date when the target month has that date. */
  lemma NavigateMonthKeepsDate(selected: int, dir: Direction)
    requires DateFromTime(selected) <= DaysInMonth(TargetMonth(selected, dir).0, TargetMonth(selected, dir).1)
    ensures var r, t := Navigated(selected, MonthFilter, dir), TargetMonth(selected, dir);
      && YearFromTime(r) == t.0 && MonthFromTime(r) == t.1
      && DateFromTime(r) == DateFromTime(selected)
      && TimeWithinDay(r) == TimeWithinDay(selected)
  {
    var r, t := Navigated(selected, MonthFilter, dir), TargetMonth(selected, dir);
    assert r == WithMonth(selected, MonthFromTime(selected) + Step(dir), DateFromTime(selected));
    MonthStepKeepsDate(selected, Step(dir), r, t.0, t.1);
  }

  /** Without clamping, a date the target month lacks rolls over into the
      month after it (31 January plus one month is 2 or 3 March). */
  lemma NavigateMonthRollsOver(selected: int, dir: Direction)
    requires DaysInMonth(TargetMonth(selected, dir).0, TargetMonth(selected, dir).1) < DateFromTime(selected)
    ensures var r, t := Navigated(selected, MonthFilter, dir), TargetMonth(selected, dir);
      && YearFromTime(r) == t.0 + (t.1 + 1) / 12 && MonthFromTime(r) == (t.1 + 1) % 12
      && DateFromTime(r) == DateFromTime(selected) - DaysInMonth(t.0, t.1)
      && TimeWithinDay(r) == TimeWithinDay(selected)
  {
    var r, t := Navigated(selected, MonthFilter, dir), TargetMonth(selected, dir);
    assert r == WithMonth(selected, MonthFromTime(selected) + Step(dir), DateFromTime(selected));
    MonthStepRollOver(selected, Step(dir), r, t.0, t.1);
  }

  /** Any time on 31 January of a common year, one month on, is the same
      time on 3 March: February has 28 days. */
  lemma NavigateMonthExample(selected: int, y: int)
    requires Day(selected) == MakeDay(y, 0, 31) && !IsLeapYear(y)
    ensures var r := Navigated(selected, MonthFilter, Next);
      && YearFromTime(r) == y && MonthFromTime(r) == 2 && DateFromTime(r) == 3
      && TimeWithinDay(r) == TimeWithinDay(selected)
  {
    CivilOfMakeDay(y, 0, 31, Day(selected));
    assert TargetMonth(selected, Next) == (y, 1);
    NavigateMonthRollsOver(selected, Next);
  }

  /** The month step as it is evidently meant: the date clamped to the
      length of the target month. */
  function ClampedNavigated(selected: int, dir: Direction): int
  {
    var t := TargetMonth(selected, dir);
    var date := if DateFromTime(selected) <= DaysInMonth(t.0, t.1) then DateFromTime(selected) else DaysInMonth(t.0, t.1);
    WithMonth(selected, MonthFromTime(selected) + Step(dir), date)
  }

  /** The clamped step always lands in the target month, on the selected
      date or on the target month's last day, at the same time of day. */
  lemma ClampedMonthStep(selected: int, dir: Direction)
    ensures var r, t := ClampedNavigated(selected, dir), TargetMonth(selected, dir);
      && YearFromTime(r) == t.0 && MonthFromTime(r) == t.1
      && DateFromTime(r) == (if DateFromTime(selected) <= DaysInMonth(t.0, t.1)
                             then DateFromTime(selected) else DaysInMonth(t.0, t.1))
      && TimeWithinDay(r) == TimeWithinDay(selected)
  {
    var r, t := ClampedNavigated(selected, dir), TargetMonth(selected, dir);
    var date := if DateFromTime(selected) <= DaysInMonth(t.0, t.1) then DateFromTime(selected) else DaysInMonth(t.0, t.1);
    MonthStepToDate(selected, Step(dir), date, r, t.0, t.1);
  }

  /** The month step as written agrees with the clamped one exactly when
      the target month has the selected date. */
  lemma MonthStepAsIntended(selected: int, dir: Direction)
    ensures var t := TargetMonth(selected, dir);
      Navigated(selected, MonthFilter, dir) == ClampedNavigated(selected, dir)
      <==> DateFromTime(selected) <= DaysInMonth(t.0, t.1)
  {
    var t := TargetMonth(selected, dir);
    if DaysInMonth(t.0, t.1) < DateFromTime(selected) {
      NavigateMonthRollsOver(selected, dir);
      ClampedMonthStep(selected, dir);
      assert MonthFromTime(Navigated(selected, MonthFilter, dir)) != MonthFromTime(ClampedNavigated(selected, dir));
    }
  }

  /** The selected date after a sequence of presses of prev and next. */
  function Presses(selected: int, g: Granularity, dirs: seq<Direction>): int
    decreases dirs
  {
    if dirs == [] then selected else Presses(Navigated(selected, g, dirs[0]), g, dirs[1..])
  }

  /** Presses of next less presses of prev. */
  function Net(dirs: seq<Direction>): int
  {
    if dirs == [] then 0 else Step(dirs[0]) + Net(dirs[1..])
  }

  /** Day and week presses move the date by the net number of presses times
      one or seven days, in any order, and keep the time of day. */
  lemma {:induction false} DayPresses(selected: int, g: Granularity, dirs: seq<Direction>)
    requires g != MonthFilter
    ensures var r := Presses(selected, g, dirs);
      && Day(r) == Day(selected) + (if g == DayFilter then Net(dirs) else 7 * Net(dirs))
      && TimeWithinDay(r) == TimeWithinDay(selected)
    decreases dirs
  {
    if dirs != [] {
      NavigateByDays(selected, g, dirs[0]);
      DayPresses(Navigated(selected, g, dirs[0]), g, dirs[1..]);
    }
  }

  /** Months counted from year 0: a month step moves this index by one. */
  function MonthIndex(t: int): int
  {
    12 * YearFromTime(t) + MonthFromTime(t)
  }

  /** From a date every month has, a month step moves the month index by
      one and keeps the date and the time of day. */
  lemma NavigateMonthIndex(selected: int, dir: Direction)
    requires DateFromTime(selected) <= 28
    ensures var r := Navigated(selected, MonthFilter, dir);
      && MonthIndex(r) == MonthIndex(selected) + Step(dir)
      && DateFromTime(r) == DateFromTime(selected)
      && TimeWithinDay(r) == TimeWithinDay(selected)
  {
    NavigateMonthKeepsDate(selected, dir);
  }

  /** From a date every month has, month presses move the month by their
      net number, in any order, and keep the date and the time of day. */
  lemma {:induction false} MonthPresses(selected: int, dirs: seq<Direction>)
    requires DateFromTime(selected) <= 28
    ensures var r := Presses(selected, MonthFilter, dirs);
      && MonthIndex(r) == MonthIndex(selected) + Net(dirs)
      && DateFromTime(r) == DateFromTime(selected)
      && TimeWithinDay(r) == TimeWithinDay(selected)
    decreases dirs
  {
    if dirs != [] {
      NavigateMonthIndex(selected, dirs[0]);
      MonthPresses(Navigated(selected, MonthFilter, dirs[0]), dirs[1..]);
    }
  }

  lemma {:induction false} NetOfNexts(n: nat)
    ensures Net(seq(n, _ => Next)) == n
  {
    if n > 0 {
      assert seq(n, _ => Next)[1..] == seq(n - 1, _ => Next);
      NetOfNexts(n - 1);
    }
  }

  /** Twelve presses of next by month give the same month and date one
      year on, at the same time of day. */
  lemma TwelveMonthSteps(selected: int)
    requires DateFromTime(selected) <= 28
    ensures var r := Presses(selected, MonthFilter, seq(12, _ => Next));
      && YearFromTime(r) == YearFromTime(selected) + 1
      && MonthFromTime(r) == MonthFromTime(selected)
      && DateFromTime(r) == DateFromTime(selected)
      && TimeWithinDay(r) == TimeWithinDay(selected)
  {
    MonthPresses(selected, seq(12, _ => Next));
    NetOfNexts(12);
  }

  /** From a date some month lacks the twelve presses do not come back: from
      31 January of a common year the first press rolls over to 3 March, and
      the other eleven keep the 3rd, ending on 3 February of the next year. */
  lemma TwelveMonthStepsFromJanuary31(selected: int, y: int)
    requires Day(selected) == MakeDay(y, 0, 31) && !IsLeapYear(y)
    ensures var r := Presses(selected, MonthFilter, seq(12, _ => Next));
      && YearFromTime(r) == y + 1 && MonthFromTime(r) == 1 && DateFromTime(r) == 3
      && TimeWithinDay(r) == TimeWithinDay(selected)
  {
    var nexts := seq(12, _ => Next);
    var first := Navigated(selected, MonthFilter, Next);
    NavigateMonthExample(selected, y);
    assert nexts[1..] == seq(11, _ => Next);
    assert Presses(selected, MonthFilter, nexts) == Presses(first, MonthFilter, nexts[1..]);
    MonthPresses(first, nexts[1..]);
    NetOfNexts(11);
  }
}
