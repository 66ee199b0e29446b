/** The tracker page (app/page.tsx): the entry form, the list of logged
    entries with its initial sample data, today's figures, the five most
    recent entries, and which screen the page shows. */
module Tracker {
  import opened Wrappers
  import opened Calendar
  import opened DateObject
  import opened Entries
  import opened JsString
  import opened AuthContext
  import Report

  // ---------------------------------------------------------------------------
  // Which screen shows

  datatype Page = RecordTab | ReportTab

  datatype Screen = LoadingScreen | AuthScreen | RecordScreen | ReportScreen

  /** The loading screen while the session is restored, the sign-in screen
      without a user, otherwise the selected tab. */
  function ScreenFor(loading: bool, user: Option<User>, page: Page): (s: Screen)
    ensures s == LoadingScreen <==> loading
    ensures s == AuthScreen <==> !loading && user.None?
    ensures s == RecordScreen <==> !loading && user.Some? && page == RecordTab
    ensures s == ReportScreen <==> !loading && user.Some? && page == ReportTab
  {
    if loading then LoadingScreen
    else if user.None? then AuthScreen
    else match page
      case RecordTab => RecordScreen
      case ReportTab => ReportScreen
  }

  // ---------------------------------------------------------------------------
  // The initial sample list

  const SampleCount := 15

  /** The Math.random() values one sample entry draws, in the order drawn. */
  datatype Draws = Draws(hour: real, minute: real, daysBack: real, mood: real, urgency: real,
                         waited: real, smoked: real, special: real, note: real)

  predicate Unit(r: real)
  {
    0.0 <= r < 1.0
  }

  /** Every value lies in [0, 1), as Math.random() promises. */
  predicate RandomValues(d: Draws)
  {
    Unit(d.hour) && Unit(d.minute) && Unit(d.daysBack) && Unit(d.mood) && Unit(d.urgency)
    && Unit(d.waited) && Unit(d.smoked) && Unit(d.special) && Unit(d.note)
  }

  /** Math.floor(r * n). */
  function RandomBelow(r: real, n: nat): (k: int)
    requires Unit(r) && 0 < n
    ensures 0 <= k < n
  {
    assert r * (n as real) < n as real by {
      assert (1.0 - r) * (n as real) > 0.0;
    }
    (r * (n as real)).Floor
  }

  /** i.toString() for a natural number. */
  function Decimal(n: nat): string
  {
    if n < 10 then [Report.Digit(n)] else Decimal(n / 10) + [Report.Digit(n % 10)]
  }

  /** The i-th sample entry: now at a random hour and minute, moved back 0
      to 6 days, with random sliders and flags. */
  function SampleEntry(now: int, i: nat, d: Draws): Entry
    requires RandomValues(d)
  {
    var t := WithHoursMinutes(now, RandomBelow(d.hour, 24), RandomBelow(d.minute, 60));
    var timestamp := WithDate(t, DateFromTime(t) - RandomBelow(d.daysBack, 7));
    Entry("sample-" + Decimal(i), timestamp, RandomBelow(d.mood, 10) + 1, RandomBelow(d.urgency, 10) + 1,
          d.waited > 0.5, d.smoked > 0.3, d.special > 0.7, if d.note > 0.5 then "Note di esempio" else "")
  }

  /** Each sample entry is well formed and lies on today or one of the six
      days before. */
  lemma SampleEntryFacts(now: int, i: nat, d: Draws)
    requires RandomValues(d)
    ensures var e := SampleEntry(now, i, d);
      && WellFormed(e)
      && Day(now) - 6 <= Day(e.timestamp) <= Day(now)
  {
    var t := WithHoursMinutes(now, RandomBelow(d.hour, 24), RandomBelow(d.minute, 60));
    assert Day(t) == Day(now);
  }

  /** The list the loop pushes, one entry per draw. */
  function SampleList(now: int, draws: seq<Draws>): (s: seq<Entry>)
    requires forall d | d in draws :: RandomValues(d)
    ensures |s| == |draws|
  {
    if draws == [] then []
    else SampleList(now, draws[..|draws| - 1]) + [SampleEntry(now, |draws| - 1, draws[|draws| - 1])]
  }

  lemma {:induction false} SampleListFacts(now: int, draws: seq<Draws>)
    requires forall d | d in draws :: RandomValues(d)
    ensures forall e | e in SampleList(now, draws) :: WellFormed(e) && Day(now) - 6 <= Day(e.timestamp) <= Day(now)
  {
    if draws != [] {
      var init := draws[..|draws| - 1];
      assert forall d | d in init :: d in draws;
      SampleListFacts(now, init);
      SampleEntryFacts(now, |draws| - 1, draws[|draws| - 1]);
    }
  }

  /** The sorted sample list holds the same entries, so they too are well
      formed and within the last seven days. */
  lemma SortedSampleFacts(now: int, draws: seq<Draws>)
    requires forall d | d in draws :: RandomValues(d)
    ensures forall e | e in SortNewestFirst(SampleList(now, draws)) ::
              WellFormed(e) && Day(now) - 6 <= Day(e.timestamp) <= Day(now)
  {
    var sorted := SortNewestFirst(SampleList(now, draws));
    SampleListFacts(now, draws);
    forall e | e in sorted
      ensures e in SampleList(now, draws)
    {
      assert e in multiset(sorted);
    }
  }

  /** One pass of the loop body: a copy of now set to a random hour and
      minute, moved back a random number of days, and the entry built
      around it. */
  method MakeSampleEntry(now: int, i: nat, d: Draws) returns (e: Entry)
    requires RandomValues(d)
    ensures e == SampleEntry(now, i, d)
  {
    var timestamp := new LocalDate(now);
    timestamp.SetHoursMinutes(RandomBelow(d.hour, 24), RandomBelow(d.minute, 60));
    timestamp.SetDate(timestamp.GetDate() - RandomBelow(d.daysBack, 7));
    e := Entry("sample-" + Decimal(i), timestamp.time,
               RandomBelow(d.mood, 10) + 1, RandomBelow(d.urgency, 10) + 1,
               d.waited > 0.5, d.smoked > 0.3, d.special > 0.7,
               if d.note > 0.5 then "Note di esempio" else "");
  }

  /** The initial state of the entry list: fifteen entries pushed in a loop,
      then sorted newest first. */
  method SampleEntries(now: int, draws: seq<Draws>) returns (entries: seq<Entry>)
    requires |draws| == SampleCount && forall d | d in draws :: RandomValues(d)
    ensures entries == SortNewestFirst(SampleList(now, draws))
    ensures |entries| == SampleCount && NewestFirst(entries)
    ensures forall e | e in entries :: WellFormed(e) && Day(now) - 6 <= Day(e.timestamp) <= Day(now)
  {
    var sampleEntries: seq<Entry> := [];
    for i := 0 to SampleCount
      invariant sampleEntries == SampleList(now, draws[..i])
    {
      assert draws[i] in draws;
      var entry := MakeSampleEntry(now, i, draws[i]);
      sampleEntries := sampleEntries + [entry];
      assert draws[..i + 1][..i] == draws[..i];
    }
    assert draws[..SampleCount] == draws;
    entries := SortNewestFirst(sampleEntries);
    SortedSampleFacts(now, draws);
  }

  // ---------------------------------------------------------------------------
  // The entry form and the list

  /** The form's six state fields: the two slider values, three check boxes
      and the notes. */
  datatype Form = Form(mood: int, urgency: int, waited10Minutes: bool, smoked: bool, isSpecial: bool, notes: string)

  const DefaultForm := Form(5, 5, false, false, false, "")

  /** The sliders range over 1..10 and the text area holds at most 500
      UTF-16 code units. */
  predicate ValidForm(f: Form)
  {
    1 <= f.mood <= 10 && 1 <= f.urgency <= 10 && Utf16Length(f.notes) <= MaxNotesLength
  }

  /** The entry a submit creates from the form, with the clock's id and time. */
  function NewEntry(id: string, now: int, f: Form): (e: Entry)
    ensures WellFormed(e) <==> ValidForm(f)
  {
    Entry(id, now, f.mood, f.urgency, f.waited10Minutes, f.smoked, f.isSpecial, f.notes)
  }

  class CigaretteTracker {
    var currentPage: Page
    var form: Form
    var entries: seq<Entry>

    /** The form stays within the controls' bounds, and so does every
        stored entry. */
    predicate Valid()
      reads this
    {
      ValidForm(form) && forall e | e in entries :: WellFormed(e)
    }

    /** Mounting: the record tab, the default form and the sample list. */
    constructor (now: int, draws: seq<Draws>)
      requires |draws| == SampleCount && forall d | d in draws :: RandomValues(d)
      ensures Valid() && currentPage == RecordTab && form == DefaultForm
      ensures entries == SortNewestFirst(SampleList(now, draws))
    {
      var sample := SampleEntries(now, draws);
      currentPage := RecordTab;
      form := DefaultForm;
      entries := sample;
    }

    /** The navigation's onPageChange. */
    method SetCurrentPage(p: Page)
      modifies this
      ensures currentPage == p && form == old(form) && entries == old(entries)
    {
      currentPage := p;
    }

    /** The mood slider, which only offers 1..10. */
    method SetMood(v: int)
      requires Valid() && 1 <= v <= 10
      modifies this
      ensures Valid() && form == old(form).(mood := v)
      ensures currentPage == old(currentPage) && entries == old(entries)
    {
      form := form.(mood := v);
    }

    /** The urgency slider, which only offers 1..10. */
    method SetUrgency(v: int)
      requires Valid() && 1 <= v <= 10
      modifies this
      ensures Valid() && form == old(form).(urgency := v)
      ensures currentPage == old(currentPage) && entries == old(entries)
    {
      form := form.(urgency := v);
    }

    method SetWaited10Minutes(b: bool)
      requires Valid()
      modifies this
      ensures Valid() && form == old(form).(waited10Minutes := b)
      ensures currentPage == old(currentPage) && entries == old(entries)
    {
      form := form.(waited10Minutes := b);
    }

    method SetSmoked(b: bool)
      requires Valid()
      modifies this
      ensures Valid() && form == old(form).(smoked := b)
      ensures currentPage == old(currentPage) && entries == old(entries)
    {
      form := form.(smoked := b);
    }

    method SetIsSpecial(b: bool)
      requires Valid()
      modifies this
      ensures Valid() && form == old(form).(isSpecial := b)
      ensures currentPage == old(currentPage) && entries == old(entries)
    {
      form := form.(isSpecial := b);
    }

    /** The notes text area, limited to 500 UTF-16 code units. */
    method SetNotes(n: string)
      requires Valid() && Utf16Length(n) <= MaxNotesLength
      modifies this
      ensures Valid() && form == old(form).(notes := n)
      ensures currentPage == old(currentPage) && entries == old(entries)
    {
      form := form.(notes := n);
    }

    /** handleSubmit: the new entry goes in front of the list, then the six
        form fields go back to their defaults. */
    method HandleSubmit(id: string, now: int)
      requires Valid()
      modifies this
      ensures entries == [NewEntry(id, now, old(form))] + old(entries)
      ensures form == DefaultForm && currentPage == old(currentPage)
      ensures Valid()
    {
      var newEntry := Entry(id, now, form.mood, form.urgency, form.waited10Minutes, form.smoked, form.isSpecial, form.notes);
      entries := [newEntry] + entries;
      form := form.(mood := 5);
      form := form.(urgency := 5);
      form := form.(waited10Minutes := false);
      form := form.(smoked := false);
      form := form.(isSpecial := false);
      form := form.(notes := "");
    }
  }

  /** A submit at a time no earlier than every stored entry keeps the list
      newest first. */
  lemma SubmitKeepsNewestFirst(e: Entry, s: seq<Entry>)
    requires NewestFirst(s) && forall x | x in s :: x.timestamp <= e.timestamp
    ensures NewestFirst([e] + s)
  {
    forall i, j | 0 <= i < j < |[e] + s|
      ensures ([e] + s)[i].timestamp >= ([e] + s)[j].timestamp
    {
      if i == 0 {
        assert ([e] + s)[j] in s;
      }
    }
  }

  /** Draws that put the first sample at 23:00 of today. */
  const LateDraws := Draws(0.99, 0.0, 0.0, 0.0, 0.0, 0.0, 0.0, 0.0, 0.0)

  /** The samples "for today" take a random hour of their day, so one drawn
      with no days back can lie later than now; a submit before that hour
      puts the new entry in front of a newer one, and the list is no longer
      newest first, so the recent panel no longer shows the newest five. */
  lemma SampleLaterThanNow(now: int, id: string, f: Form, s: seq<Entry>)
    requires HourFromTime(now) < 23
    requires s != [] && s[0] == SampleEntry(now, 0, LateDraws)
    ensures s[0].timestamp > now
    ensures !NewestFirst([NewEntry(id, now, f)] + s)
  {
    assert RandomBelow(0.99, 24) == 23;
    assert RandomBelow(0.0, 60) == 0 && RandomBelow(0.0, 7) == 0;
    var t := WithHoursMinutes(now, 23, 0);
    assert Day(t) == Day(now) && HourFromTime(t) == 23;
    TimeOrder(now, s[0].timestamp);
    var l := [NewEntry(id, now, f)] + s;
    assert l[0].timestamp == now && l[1] == s[0];
  }

  // ---------------------------------------------------------------------------
  // Today's figures and the recent panel

  /** The parts of Date.prototype.toDateString: week day, month, date and
      year in local time. */
  datatype DateString = DateString(weekDay: int, month: int, date: int, year: int)

  function ToDateString(t: int): DateString
  {
    DateString(WeekDay(t), MonthFromTime(t), DateFromTime(t), YearFromTime(t))
  }

  /** Two time values print the same date exactly when they fall on the same
      day. */
  lemma SameDateString(a: int, b: int)
    ensures ToDateString(a) == ToDateString(b) <==> Day(a) == Day(b)
  {
    if ToDateString(a) == ToDateString(b) {
      CivilInjective(Day(a), Day(b));
    }
  }

  predicate OnDateOf(now: int, e: Entry)
  {
    ToDateString(e.timestamp) == ToDateString(now)
  }

  /** todayEntries: the entries whose date string is today's. */
  function TodayEntries(entries: seq<Entry>, now: int): (r: seq<Entry>)
    ensures |r| <= |entries|
  {
    Filter(entries, e => OnDateOf(now, e))
  }

  /** Today's entries are exactly the entries on today's day number, in list
      order, and today's smoked and resisted counts add up to their number. */
  lemma TodayStats(entries: seq<Entry>, now: int)
    ensures forall e :: e in TodayEntries(entries, now) <==> e in entries && Day(e.timestamp) == Day(now)
    ensures Report.SmokedCount(TodayEntries(entries, now)) + Report.ResistedCount(TodayEntries(entries, now))
              == |TodayEntries(entries, now)|
  {
    forall e
      ensures e in TodayEntries(entries, now) <==> e in entries && Day(e.timestamp) == Day(now)
    {
      SameDateString(e.timestamp, now);
    }
    Report.CountsPartition(TodayEntries(entries, now));
  }

  /** entries.slice(0, 5). */
  function RecentPanel(entries: seq<Entry>): (r: seq<Entry>)
    ensures |r| == (if |entries| < 5 then |entries| else 5) && r == entries[..|r|]
  {
    Take(entries, 5)
  }

  /** On a newest-first list the panel holds the first min(5, n) entries
      and none of the rest is newer than one shown. */
  lemma RecentPanelNewest(entries: seq<Entry>)
    requires NewestFirst(entries)
    ensures var r := RecentPanel(entries);
      && |r| == (if |entries| < 5 then |entries| else 5) && r <= entries
      && NewestFirst(r)
      && forall i, j :: 0 <= i < |r| <= j < |entries| ==> entries[j].timestamp <= r[i].timestamp
  {
    TakeKeepsNewest(entries, 5);
  }
}
