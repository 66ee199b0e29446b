/** The logged entry (CigaretteEntry) shared by the tracker page and the
    report page, and the list operations both pages apply to entry lists:
    Array.prototype.filter, a newest-first sort and slice(0, n). */
module Entries {
  import opened JsString

  datatype Entry = Entry(
    id: string,
    timestamp: int,   // a time value, see module Calendar
    mood: int,
    urgency: int,
    waited10Minutes: bool,
    smoked: bool,
    isSpecial: bool,
    notes: string)

  /** What the entry form guarantees of each entry it creates: the sliders
      range over 1..10 and the notes field has maxLength 500, which counts
      UTF-16 code units. */
  const MaxNotesLength := 500

  predicate WellFormed(e: Entry)
  {
    1 <= e.mood <= 10 && 1 <= e.urgency <= 10 && Utf16Length(e.notes) <= MaxNotesLength
  }

  predicate IsSmoked(e: Entry)
  {
    e.smoked
  }

  predicate IsResisted(e: Entry)
  {
    !e.smoked
  }

  // ---------------------------------------------------------------------------
  // filter

  /** entries.filter(p): the entries satisfying p, in their original order. */
  function Filter(s: seq<Entry>, p: Entry -> bool): (r: seq<Entry>)
    ensures |r| <= |s|
    ensures forall e :: e in r <==> e in s && p(e)
  {
    if s == [] then []
    else (if p(s[0]) then [s[0]] else []) + Filter(s[1..], p)
  }

  /** Filtering a concatenation filters each part, keeping the parts in
      order; with Filter([x]) this determines the result uniquely, so the
      filter keeps the relative order of the entries it keeps. */
  lemma {:induction false} FilterConcat(a: seq<Entry>, b: seq<Entry>, p: Entry -> bool)
    ensures Filter(a + b, p) == Filter(a, p) + Filter(b, p)
  {
    if a == [] {
      assert a + b == b;
    } else {
      assert (a + b)[1..] == a[1..] + b;
      FilterConcat(a[1..], b, p);
    }
  }

  /** A list all of whose entries satisfy p is left unchanged. */
  lemma {:induction false} FilterKeepsAll(s: seq<Entry>, p: Entry -> bool)
    requires forall e :: e in s ==> p(e)
    ensures Filter(s, p) == s
  {
    if s != [] {
      FilterKeepsAll(s[1..], p);
    }
  }

  /** Filtering twice by the same predicate is filtering once. */
  lemma FilterIdempotent(s: seq<Entry>, p: Entry -> bool)
    ensures Filter(Filter(s, p), p) == Filter(s, p)
  {
    FilterKeepsAll(Filter(s, p), p);
  }

  /** Every entry satisfies exactly one of smoked and resisted, so the two
      counts add up to the length of the list. */
  lemma {:induction false} SmokedResistedPartition(s: seq<Entry>)
    ensures |Filter(s, IsSmoked)| + |Filter(s, IsResisted)| == |s|
  {
    if s != [] {
      SmokedResistedPartition(s[1..]);
    }
  }

  // ---------------------------------------------------------------------------
  // sort((a, b) => b.timestamp - a.timestamp)

  /** Newest first: timestamps never increase along the list. */
  predicate NewestFirst(s: seq<Entry>)
  {
    forall i, j :: 0 <= i < j < |s| ==> s[i].timestamp >= s[j].timestamp
  }

  /** Places e before the first entry that is not newer than it. */
  function InsertNewestFirst(e: Entry, s: seq<Entry>): (r: seq<Entry>)
    ensures multiset(r) == multiset(s) + multiset{e}
  {
    if s == [] || s[0].timestamp <= e.timestamp then [e] + s
    else
      assert s == [s[0]] + s[1..];
      [s[0]] + InsertNewestFirst(e, s[1..])
  }

  lemma {:induction false} InsertKeepsNewestFirst(e: Entry, s: seq<Entry>)
    requires NewestFirst(s)
    ensures NewestFirst(InsertNewestFirst(e, s))
  {
    if s != [] && s[0].timestamp > e.timestamp {
      var rest := InsertNewestFirst(e, s[1..]);
      InsertKeepsNewestFirst(e, s[1..]);
      forall x | x in rest
        ensures x.timestamp <= s[0].timestamp
      {
        assert x in multiset(rest);
      }
      assert InsertNewestFirst(e, s) == [s[0]] + rest;
    }
  }

  /** The comparator sort of the source: a stable sort, newest first. */
  function SortNewestFirst(s: seq<Entry>): (r: seq<Entry>)
    ensures NewestFirst(r)
    ensures multiset(r) == multiset(s)
    ensures |r| == |s|
  {
    if s == [] then []
    else
      assert s == [s[0]] + s[1..];
      InsertKeepsNewestFirst(s[0], SortNewestFirst(s[1..]));
      InsertNewestFirst(s[0], SortNewestFirst(s[1..]))
  }

  /** The entries stamped t, in list order. */
  function WithTimestamp(s: seq<Entry>, t: int): seq<Entry>
  {
    if s == [] then []
    else (if s[0].timestamp == t then [s[0]] else []) + WithTimestamp(s[1..], t)
  }

  /** The entries stamped t in a list with x in front. */
  lemma WithTimestampCons(x: Entry, s: seq<Entry>, t: int)
    ensures WithTimestamp([x] + s, t) == (if x.timestamp == t then [x] else []) + WithTimestamp(s, t)
  {
    assert ([x] + s)[1..] == s;
  }

  /** One step of the insertion: in front, or behind the first entry. */
  lemma InsertStep(e: Entry, s: seq<Entry>)
    ensures InsertNewestFirst(e, s)
            == if s != [] && s[0].timestamp > e.timestamp then [s[0]] + InsertNewestFirst(e, s[1..]) else [e] + s
  {
  }

  /** Inserting e puts it in front of the entries stamped like it and leaves
      the entries of every other timestamp in their order. */
  lemma {:induction false} InsertWithTimestamp(e: Entry, s: seq<Entry>, t: int)
    ensures WithTimestamp(InsertNewestFirst(e, s), t)
            == (if e.timestamp == t then [e] else []) + WithTimestamp(s, t)
  {
    var mine: seq<Entry> := if e.timestamp == t then [e] else [];
    InsertStep(e, s);
    if s != [] && s[0].timestamp > e.timestamp {
      var rest := InsertNewestFirst(e, s[1..]);
      InsertWithTimestamp(e, s[1..], t);
      WithTimestampCons(s[0], rest, t);
      if s[0].timestamp == t {
        assert mine == [];
        assert WithTimestamp(rest, t) == WithTimestamp(s[1..], t);
        assert WithTimestamp(s, t) == [s[0]] + WithTimestamp(s[1..], t);
      } else {
        assert WithTimestamp(InsertNewestFirst(e, s), t) == WithTimestamp(rest, t);
        assert WithTimestamp(s, t) == WithTimestamp(s[1..], t);
      }
    } else {
      WithTimestampCons(e, s, t);
    }
  }

  /** The sort is stable: entries with equal timestamps keep their input
      order. */
  lemma {:induction false} SortIsStable(s: seq<Entry>, t: int)
    ensures WithTimestamp(SortNewestFirst(s), t) == WithTimestamp(s, t)
  {
    if s != [] {
      SortIsStable(s[1..], t);
      InsertWithTimestamp(s[0], SortNewestFirst(s[1..]), t);
    }
  }

  /** slice(0, n). */
  function Take(s: seq<Entry>, n: nat): (r: seq<Entry>)
    ensures |r| == if |s| < n then |s| else n
    ensures r <= s
  {
    if |s| < n then s else s[..n]
  }

  /** In a newest-first list the first n entries are the n newest ones:
      none left out is newer than any kept. */
  lemma TakeKeepsNewest(s: seq<Entry>, n: nat)
    requires NewestFirst(s)
    ensures NewestFirst(Take(s, n))
    ensures forall i, j :: 0 <= i < |Take(s, n)| <= j < |s| ==> s[j].timestamp <= Take(s, n)[i].timestamp
  {
  }

  /** The first n entries of the sorted list are entries of s, taken
      without repetition, newest first. */
  lemma NewestOfSubset(s: seq<Entry>, n: nat)
    ensures var r := Take(SortNewestFirst(s), n);
      && |r| == (if |s| < n then |s| else n)
      && NewestFirst(r)
      && multiset(r) <= multiset(s)
      && (forall e :: e in r ==> e in s)
  {
    var sorted := SortNewestFirst(s);
    var r := Take(sorted, n);
    TakeKeepsNewest(sorted, n);
    assert multiset(r) <= multiset(sorted) by {
      assert sorted == r + sorted[|r|..];
    }
    forall e | e in r
      ensures e in s
    {
      assert e in multiset(r);
    }
  }

  /** No entry of s left out of the first n of the sorted list is newer
      than one kept. */
  lemma NewestOfOrder(s: seq<Entry>, n: nat)
    ensures var r := Take(SortNewestFirst(s), n);
      forall e, x :: e in s && e !in r && x in r ==> e.timestamp <= x.timestamp
  {
    var sorted := SortNewestFirst(s);
    var r := Take(sorted, n);
    TakeKeepsNewest(sorted, n);
    forall e, x | e in s && e !in r && x in r
      ensures e.timestamp <= x.timestamp
    {
      assert e in multiset(sorted);
      var j :| 0 <= j < |sorted| && sorted[j] == e;
      var i :| 0 <= i < |r| && r[i] == x;
      assert j >= |r|;
    }
  }
}
