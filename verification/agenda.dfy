/**
 * The agenda view (src/pages/AgendaPage.tsx): entries grouped into nested
 * records by year, month and day, and the keys of each level listed in
 * descending numeric order. How `new Date(entry.date)` reads an entry's
 * local calendar date is a parameter, `dateOf`.
 */
module Agenda {
  import opened Entries

  /** A local calendar date: `getFullYear()`, the zero-based `getMonth()`
      and `getDate()`. */
  datatype CalendarDate = CalendarDate(year: int, month: int, day: int)

  type Days = map<int, seq<Entry>>
  type Months = map<int, Days>
  type Years = map<int, Months>

  /** The entries dated `d`, in input order. */
  function OnDay(entries: seq<Entry>, dateOf: Entry -> CalendarDate, d: CalendarDate): seq<Entry> {
    if entries == [] then []
    else
      var last := entries[|entries| - 1];
      OnDay(entries[..|entries| - 1], dateOf, d) + (if dateOf(last) == d then [last] else [])
  }

  /** An entry is on exactly the day of its own date. */
  lemma {:induction false} OnDayMembers(entries: seq<Entry>, dateOf: Entry -> CalendarDate, d: CalendarDate)
    ensures forall e :: e in OnDay(entries, dateOf, d) <==> e in entries && dateOf(e) == d
  {
    if entries != [] {
      var init := entries[..|entries| - 1];
      OnDayMembers(init, dateOf, d);
      assert entries == init + [entries[|entries| - 1]];
    }
  }

  /** `years[year][month][day]` exists. */
  predicate Bucketed(years: Years, d: CalendarDate) {
    d.year in years && d.month in years[d.year] && d.day in years[d.year][d.month]
  }

  /** No level of the nesting holds an empty record or an empty list. */
  predicate NoEmptyBucket(years: Years) {
    forall y :: y in years ==> years[y] != map[] && forall m :: m in years[y] ==>
      years[y][m] != map[] && forall d :: d in years[y][m] ==> years[y][m][d] != []
  }

  /** The records once `entry`, dated `date`, is pushed onto its day; the
      year, month and day are created on the way when they are missing. */
  function Place(years: Years, date: CalendarDate, entry: Entry): (r: Years)
    ensures Bucketed(r, date)
    ensures r[date.year][date.month][date.day] == (if Bucketed(years, date) then years[date.year][date.month][date.day] else []) + [entry]
  {
    var months := if date.year in years then years[date.year] else map[];
    var days := if date.month in months then months[date.month] else map[];
    var bucket := if date.day in days then days[date.day] else [];
    years[date.year := months[date.month := days[date.day := bucket + [entry]]]]
  }

  /** The grouping of `entries` is exactly what the records hold. */
  ghost predicate Groups(years: Years, entries: seq<Entry>, dateOf: Entry -> CalendarDate) {
    (forall d :: Bucketed(years, d) <==> OnDay(entries, dateOf, d) != [])
    && (forall d :: Bucketed(years, d) ==> years[d.year][d.month][d.day] == OnDay(entries, dateOf, d))
  }

  lemma PlaceBuckets(years: Years, date: CalendarDate, entry: Entry)
    ensures forall d :: Bucketed(Place(years, date, entry), d) <==> Bucketed(years, d) || d == date
    ensures forall d :: Bucketed(Place(years, date, entry), d) && d != date ==>
      Place(years, date, entry)[d.year][d.month][d.day] == years[d.year][d.month][d.day]
    ensures Bucketed(years, date) ==>
      Place(years, date, entry)[date.year][date.month][date.day] == years[date.year][date.month][date.day] + [entry]
    ensures !Bucketed(years, date) ==> Place(years, date, entry)[date.year][date.month][date.day] == [entry]
  {
  }

  lemma PlaceNoEmpty(years: Years, date: CalendarDate, entry: Entry)
    requires NoEmptyBucket(years)
    ensures NoEmptyBucket(Place(years, date, entry))
  {
  }

  lemma PlaceGroups(years: Years, entries: seq<Entry>, dateOf: Entry -> CalendarDate, entry: Entry)
    requires Groups(years, entries, dateOf)
    ensures Groups(Place(years, dateOf(entry), entry), entries + [entry], dateOf)
  {
    var grown := entries + [entry];
    assert grown[..|grown| - 1] == entries;
    PlaceBuckets(years, dateOf(entry), entry);
  }

  /** `groupByYearMonthDay(entries)`. */
  method GroupByYearMonthDay(entries: seq<Entry>, dateOf: Entry -> CalendarDate) returns (years: Years)
    ensures forall d :: Bucketed(years, d) <==> OnDay(entries, dateOf, d) != []
    ensures forall d :: Bucketed(years, d) ==> years[d.year][d.month][d.day] == OnDay(entries, dateOf, d)
    ensures NoEmptyBucket(years)
  {
    years := map[];
    for i := 0 to |entries|
      invariant Groups(years, entries[..i], dateOf)
      invariant NoEmptyBucket(years)
    {
      var entry := entries[i];
      var date := dateOf(entry);
      assert entries[..i + 1] == entries[..i] + [entry];
      PlaceGroups(years, entries[..i], dateOf, entry);
      PlaceNoEmpty(years, date, entry);

      var months := if date.year in years then years[date.year] else map[];
      var days := if date.month in months then months[date.month] else map[];
      var bucket := if date.day in days then days[date.day] else [];
      years := years[date.year := months[date.month := days[date.day := bucket + [entry]]]];
    }
    assert entries[..|entries|] == entries;
  }

  /* ---------------------------------------------------------------------- */
  /* Every entry is shown once                                               */
  /* ---------------------------------------------------------------------- */

  /** The total size of the buckets of `days`. */
  function SumSizes(entries: seq<Entry>, dateOf: Entry -> CalendarDate, days: seq<CalendarDate>): nat {
    if days == [] then 0
    else |OnDay(entries, dateOf, days[0])| + SumSizes(entries, dateOf, days[1..])
  }

  lemma {:induction false} SumSizesNone(dateOf: Entry -> CalendarDate, days: seq<CalendarDate>)
    ensures SumSizes([], dateOf, days) == 0
  {
    if days != [] {
      SumSizesNone(dateOf, days[1..]);
    }
  }

  /** A further entry adds one to the total for each time its date is listed. */
  lemma {:induction false} SumSizesGrow(entries: seq<Entry>, dateOf: Entry -> CalendarDate,
                                       days: seq<CalendarDate>, e: Entry)
    ensures SumSizes(entries + [e], dateOf, days) == SumSizes(entries, dateOf, days) + multiset(days)[dateOf(e)]
  {
    if days != [] {
      SumSizesGrow(entries, dateOf, days[1..], e);
      var grown := entries + [e];
      assert grown[..|grown| - 1] == entries;
      assert days == [days[0]] + days[1..];
    }
  }

  /** Listing every date that occurs once, the buckets together hold each
      entry exactly once. */
  lemma {:induction false} EveryEntryShownOnce(entries: seq<Entry>, dateOf: Entry -> CalendarDate,
                                              days: seq<CalendarDate>)
    requires forall d :: multiset(days)[d] <= 1
    requires forall i :: 0 <= i < |entries| ==> dateOf(entries[i]) in days
    ensures SumSizes(entries, dateOf, days) == |entries|
  {
    if entries == [] {
      SumSizesNone(dateOf, days);
    } else {
      var init := entries[..|entries| - 1];
      var last := entries[|entries| - 1];
      assert forall i :: 0 <= i < |init| ==> init[i] == entries[i];
      EveryEntryShownOnce(init, dateOf, days);
      assert entries == init + [last];
      SumSizesGrow(init, dateOf, days, last);
      assert dateOf(last) in multiset(days);
    }
  }

  /* ---------------------------------------------------------------------- */
  /* Descending keys                                                         */
  /* ---------------------------------------------------------------------- */

  /** `top` is the largest of `keys`. */
  predicate IsMax(keys: set<int>, top: int) {
    top in keys && forall k :: k in keys ==> k <= top
  }

  lemma MaxStep(keys: set<int>, x: int, t: int)
    requires x in keys && IsMax(keys - {x}, t)
    ensures IsMax(keys, if x > t then x else t)
  {
    forall k | k in keys ensures k <= (if x > t then x else t) {
      if k != x {
        assert k in keys - {x};
      }
    }
  }

  /** A non-empty set has a member. */
  lemma SomeMember(keys: set<int>)
    requires keys != {}
    ensures !(forall k :: k !in keys)
  {
    if forall k :: k !in keys {
      assert false;
    }
  }

  /** A finite non-empty set of integers has a largest element. */
  lemma {:induction false} HasMax(keys: set<int>)
    requires keys != {}
    ensures exists top :: IsMax(keys, top)
  {
    SomeMember(keys);
    var x :| x in keys;
    if keys == {x} {
      assert IsMax(keys, x);
    } else {
      HasMax(keys - {x});
      var t :| IsMax(keys - {x}, t);
      MaxStep(keys, x, t);
    }
  }

  /** `Object.keys(record).sort((a, b) => Number(b) - Number(a))`: the keys
      are the string forms of integers, which `Number` reads back. */
  function Descending(keys: set<int>): (r: seq<int>)
    ensures forall k :: k in r <==> k in keys
    ensures forall i, j :: 0 <= i < j < |r| ==> r[i] > r[j]
    decreases |keys|
  {
    if keys == {} then []
    else
      HasMax(keys);
      var top :| IsMax(keys, top);
      var rest := Descending(keys - {top});
      [top] + rest
  }
}
