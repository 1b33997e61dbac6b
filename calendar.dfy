/**
 * The month calendar: the Monday-first grid of a month, month navigation, the
 * `YYYY-MM-DD` key of each day, the events grouped by date, and the selected
 * day's events sorted by start time.
 */
module Calendar {
  import opened Wrappers
  import opened Records
  import opened Strings
  import opened Collection
  import Sorting
  import EventOrder
  import AgendaStore

  // ---------------------------------------------------------------------
  // Month lengths and the first weekday
  // ---------------------------------------------------------------------

  /** `new Date(y, …)` reads a year 0..99 as 1900..1999. */
  function JsFullYear(year: int): int {
    if 0 <= year <= 99 then 1900 + year else year
  }

  predicate IsLeapYear(y: int) {
    y % 4 == 0 && (y % 100 != 0 || y % 400 == 0)
  }

  /** `new Date(year, month + 1, 0).getDate()`: the last day of `month` (0 = January). */
  function DaysInMonth(year: int, month: int): (r: nat)
    requires 0 <= month < 12
    ensures 28 <= r <= 31
    ensures month == 1 ==> (r == 29 <==> IsLeapYear(JsFullYear(year)))
    ensures month != 1 ==> (r == 30 <==> month in {3, 5, 8, 10})
    ensures month == 1 && !IsLeapYear(JsFullYear(year)) ==> r == 28
    ensures month != 1 && month !in {3, 5, 8, 10} ==> r == 31
  {
    if month == 1 then (if IsLeapYear(JsFullYear(year)) then 29 else 28)
    else if month == 3 || month == 5 || month == 8 || month == 10 then 30
    else 31
  }

  /** Days in the first `k` months of `year`. */
  function DaysBefore(year: int, k: nat): nat
    requires k <= 12
  {
    if k == 0 then 0 else DaysBefore(year, k - 1) + DaysInMonth(year, k - 1)
  }

  /** The twelve month lengths add up to the length of the (JS-normalised) year. */
  lemma YearLength(year: int)
    ensures DaysBefore(year, 12) == if IsLeapYear(JsFullYear(year)) then 366 else 365
  {
    var feb := DaysInMonth(year, 1);
    assert DaysBefore(year, 1) == 31;
    assert DaysBefore(year, 2) == 31 + feb;
    assert DaysBefore(year, 3) == 62 + feb;
    assert DaysBefore(year, 4) == 92 + feb;
    assert DaysBefore(year, 5) == 123 + feb;
    assert DaysBefore(year, 6) == 153 + feb;
    assert DaysBefore(year, 7) == 184 + feb;
    assert DaysBefore(year, 8) == 215 + feb;
    assert DaysBefore(year, 9) == 245 + feb;
    assert DaysBefore(year, 10) == 276 + feb;
    assert DaysBefore(year, 11) == 306 + feb;
    assert DaysBefore(year, 12) == 337 + feb;
  }

  /** `new Date(99, 1, 1)` is in 1999 and `new Date(2000, 1, 1)` in 2000: different Februaries. */
  lemma TwoDigitYearExamples()
    ensures DaysInMonth(0, 1) == 28 && DaysInMonth(2000, 1) == 29
    ensures DaysInMonth(2024, 1) == 29 && DaysInMonth(1900, 1) == 28
  {
  }

  /**
   * `getFirstDayOfMonth`: the JS weekday of day 1 (0 = Sunday … 6 = Saturday)
   * as a column of a Monday-first week; `jsWeekday` is given, not computed.
   */
  function FirstDayOfMonth(jsWeekday: int): (r: int)
    requires 0 <= jsWeekday < 7
    ensures 0 <= r < 7
    ensures (r + 1) % 7 == jsWeekday
  {
    if jsWeekday == 0 then 6 else jsWeekday - 1
  }

  /** The JS weekday shown in Monday-first column `c`. */
  function JsWeekday(c: int): (d: int)
    requires 0 <= c < 7
    ensures 0 <= d < 7
  {
    (c + 1) % 7
  }

  /** `FirstDayOfMonth` and `JsWeekday` are inverse bijections between 0..6 and 0..6. */
  lemma FirstDayOfMonthBijective()
    ensures forall d1, d2 :: 0 <= d1 < 7 && 0 <= d2 < 7 && FirstDayOfMonth(d1) == FirstDayOfMonth(d2) ==> d1 == d2
    ensures forall c :: 0 <= c < 7 ==> FirstDayOfMonth(JsWeekday(c)) == c
    ensures forall d :: 0 <= d < 7 ==> JsWeekday(FirstDayOfMonth(d)) == d
  {
  }

  // ---------------------------------------------------------------------
  // Month navigation
  // ---------------------------------------------------------------------

  /** Months counted from January of year 0. */
  function MonthNumber(month: int, year: int): int {
    12 * year + month
  }

  /** `nextMonth`: one month later, wrapping December into January of the next year. */
  function NextMonthOf(month: int, year: int): (r: (int, int))
    requires 0 <= month < 12
    ensures 0 <= r.0 < 12
    ensures MonthNumber(r.0, r.1) == MonthNumber(month, year) + 1
  {
    if month == 11 then (0, year + 1) else (month + 1, year)
  }

  /** `prevMonth`: one month earlier, wrapping January into December of the previous year. */
  function PrevMonthOf(month: int, year: int): (r: (int, int))
    requires 0 <= month < 12
    ensures 0 <= r.0 < 12
    ensures MonthNumber(r.0, r.1) == MonthNumber(month, year) - 1
  {
    if month == 0 then (11, year - 1) else (month - 1, year)
  }

  /** A month is determined by its number. */
  lemma MonthNumberInjective(m1: int, y1: int, m2: int, y2: int)
    requires 0 <= m1 < 12 && 0 <= m2 < 12
    requires MonthNumber(m1, y1) == MonthNumber(m2, y2)
    ensures m1 == m2 && y1 == y2
  {
  }

  /** Back then forward, or forward then back, returns to the same month. */
  lemma NavigationInverse(month: int, year: int)
    requires 0 <= month < 12
    ensures var n := NextMonthOf(month, year); PrevMonthOf(n.0, n.1) == (month, year)
    ensures var p := PrevMonthOf(month, year); NextMonthOf(p.0, p.1) == (month, year)
  {
    var n := NextMonthOf(month, year);
    var back := PrevMonthOf(n.0, n.1);
    MonthNumberInjective(back.0, back.1, month, year);
    var p := PrevMonthOf(month, year);
    var fwd := NextMonthOf(p.0, p.1);
    MonthNumberInjective(fwd.0, fwd.1, month, year);
  }

  // ---------------------------------------------------------------------
  // Day keys
  // ---------------------------------------------------------------------

  /** `String(n).padStart(2, "0")` */
  function TwoDigits(n: nat): string {
    PadStart(NatToString(n), 2, '0')
  }

  /** The `dateStr` of a grid cell: `${year}-${MM}-${DD}` with `month` 0-based. */
  function DateKey(year: int, month: int, day: nat): (r: string)
    requires 0 <= month < 12
    ensures var y := IntToString(year);
      |r| > |y| + 3 && r[..|y|] == y && r[|y|] == '-' && r[|y| + 3] == '-'
    ensures day < 100 ==> |r| == |IntToString(year)| + 6
  {
    TwoDigitsLength(month + 1);
    TwoDigitsLength(day);
    var y, m, d := IntToString(year), TwoDigits(month + 1), TwoDigits(day);
    KeyShape(y, m, d);
    y + "-" + m + "-" + d
  }

  /** Two digits at least, exactly two below 100. */
  lemma TwoDigitsLength(n: nat)
    ensures |TwoDigits(n)| >= 2
    ensures n < 100 ==> |TwoDigits(n)| == 2
  {
    if 10 <= n < 100 {
      assert |NatToString(n / 10)| == 1;
    }
  }

  lemma KeyShape(y: string, m: string, d: string)
    requires |m| == 2 && |d| >= 2
    ensures var r := y + "-" + m + "-" + d;
      && |r| == |y| + 4 + |d| && r[..|y|] == y && r[|y|] == '-' && r[|y| + 3] == '-'
  {
  }

  /** The part of a key after the year: `-MM-DD`. */
  function KeyTail(month: int, day: nat): string
    requires 0 <= month < 12
  {
    "-" + TwoDigits(month + 1) + "-" + TwoDigits(day)
  }

  lemma KeySplit(year: int, month: int, day: nat)
    requires 0 <= month < 12 && day < 100
    ensures DateKey(year, month, day) == IntToString(year) + KeyTail(month, day)
    ensures |KeyTail(month, day)| == 6
    ensures AllDigits(KeyTail(month, day)[1..3]) && DigitsValue(KeyTail(month, day)[1..3]) == month + 1
    ensures AllDigits(KeyTail(month, day)[4..]) && DigitsValue(KeyTail(month, day)[4..]) == day
  {
    TwoDigitRoundTrip(month + 1);
    TwoDigitRoundTrip(day);
    TailParts(TwoDigits(month + 1), TwoDigits(day));
    KeyIsYearThenTail(year, month, day);
  }

  lemma TailParts(a: string, b: string)
    requires |a| == 2 && |b| == 2
    ensures var t := "-" + a + "-" + b; |t| == 6 && t[0] == '-' && t[3] == '-' && t[1..3] == a && t[4..] == b
  {
  }

  lemma KeyIsYearThenTail(year: int, month: int, day: nat)
    requires 0 <= month < 12
    ensures DateKey(year, month, day) == IntToString(year) + KeyTail(month, day)
  {
    ConcatRegroup(IntToString(year), TwoDigits(month + 1), TwoDigits(day));
  }

  lemma ConcatRegroup(y: string, a: string, b: string)
    ensures y + "-" + a + "-" + b == y + ("-" + a + "-" + b)
  {
  }

  /** Different days of the grid get different keys, for every year. */
  lemma DateKeyInjective(y1: int, m1: int, d1: nat, y2: int, m2: int, d2: nat)
    requires 0 <= m1 < 12 && 0 <= m2 < 12 && d1 < 100 && d2 < 100
    requires DateKey(y1, m1, d1) == DateKey(y2, m2, d2)
    ensures y1 == y2 && m1 == m2 && d1 == d2
  {
    KeySplit(y1, m1, d1);
    KeySplit(y2, m2, d2);
    var k := DateKey(y1, m1, d1);
    var t1, t2 := KeyTail(m1, d1), KeyTail(m2, d2);
    assert IntToString(y1) == k[..|k| - 6] == IntToString(y2);
    IntToStringInjective(y1, y2);
    assert t1 == k[|k| - 6..] == t2;
  }

  /** The pieces of a four-digit-year key: four digits of year, two of month, two of day. */
  lemma DateKeyParts(year: int, month: int, day: nat)
    requires 1000 <= year <= 9999 && 0 <= month < 12 && 1 <= day <= 31
    ensures var k := DateKey(year, month, day);
      && |k| == 10 && k[4] == '-' && k[7] == '-'
      && k == NatToString(year) + ("-" + (TwoDigits(month + 1) + ("-" + TwoDigits(day))))
  {
    var y, a, b := IntToString(year), TwoDigits(month + 1), TwoDigits(day);
    assert y == NatToString(year);
    FourDigits(year);
    TwoDigitRoundTrip(month + 1);
    TwoDigitRoundTrip(day);
    KeyIsYearThenTail(year, month, day);
    KeyLayout(DateKey(year, month, day), y, a, b);
  }

  lemma KeyLayout(k: string, y: string, a: string, b: string)
    requires |y| == 4 && |a| == 2 && |b| == 2
    requires k == y + ("-" + a + "-" + b)
    ensures |k| == 10 && k[4] == '-' && k[7] == '-'
    ensures k == y + ("-" + (a + ("-" + b)))
  {
    assert "-" + a + "-" + b == "-" + (a + ("-" + b));
  }

  /** (year, month, day) ordered lexicographically, as the calendar orders days. */
  predicate DayNotAfter(y1: int, m1: int, d1: int, y2: int, m2: int, d2: int) {
    y1 < y2 || (y1 == y2 && (m1 < m2 || (m1 == m2 && d1 <= d2)))
  }

  /**
   * For four-digit years the keys compare as strings the way the days compare
   * on the calendar, which is what the dashboard's `date >= today` relies on.
   */
  lemma DateKeyOrder(y1: int, m1: int, d1: nat, y2: int, m2: int, d2: nat)
    requires 1000 <= y1 <= 9999 && 0 <= m1 < 12 && 1 <= d1 <= 31
    requires 1000 <= y2 <= 9999 && 0 <= m2 < 12 && 1 <= d2 <= 31
    ensures StrLeq(DateKey(y1, m1, d1), DateKey(y2, m2, d2)) <==> DayNotAfter(y1, m1, d1, y2, m2, d2)
  {
    DateKeyParts(y1, m1, d1);
    DateKeyParts(y2, m2, d2);
    var a1, a2 := NatToString(y1), NatToString(y2);
    var b1, b2 := TwoDigits(m1 + 1), TwoDigits(m2 + 1);
    var c1, c2 := TwoDigits(d1), TwoDigits(d2);
    FourDigits(y1);
    FourDigits(y2);
    TwoDigitRoundTrip(m1 + 1);
    TwoDigitRoundTrip(m2 + 1);
    TwoDigitRoundTrip(d1);
    TwoDigitRoundTrip(d2);
    NatToStringRoundTrip(y1);
    NatToStringRoundTrip(y2);
    var r1, r2 := "-" + (b1 + ("-" + c1)), "-" + (b2 + ("-" + c2));
    StrLeqConcat(a1, r1, a2, r2);
    StrLeqConcat("-", b1 + ("-" + c1), "-", b2 + ("-" + c2));
    StrLeqConcat(b1, "-" + c1, b2, "-" + c2);
    StrLeqConcat("-", c1, "-", c2);
    StrLeqTotal("-", "-");
    StrLeqReflexive("-");
    assert !StrLess("-", "-");
    DigitsOrder(a1, a2);
    DigitsOrder(b1, b2);
    DigitsOrder(c1, c2);
    DigitsOrder(a2, a1);
    DigitsOrder(b2, b1);
  }

  // ---------------------------------------------------------------------
  // The grid
  // ---------------------------------------------------------------------

  /** `calendarCells`: `firstDay` empty cells, then the days 1..daysInMonth in order. */
  method CalendarCells(firstDay: nat, daysInMonth: nat) returns (cells: seq<Option<nat>>)
    ensures |cells| == firstDay + daysInMonth
    ensures forall i :: 0 <= i < firstDay ==> cells[i] == None
    ensures forall i :: firstDay <= i < |cells| ==> cells[i] == Some(i - firstDay + 1)
  {
    cells := [];
    var i := 0;
    while i < firstDay
      invariant 0 <= i <= firstDay
      invariant |cells| == i
      invariant forall k :: 0 <= k < i ==> cells[k] == None
    {
      cells := cells + [None];
      i := i + 1;
    }
    var d := 1;
    while d <= daysInMonth
      invariant 1 <= d <= daysInMonth + 1
      invariant |cells| == firstDay + d - 1
      invariant forall k :: 0 <= k < firstDay ==> cells[k] == None
      invariant forall k :: firstDay <= k < |cells| ==> cells[k] == Some(k - firstDay + 1)
    {
      cells := cells + [Some(d)];
      d := d + 1;
    }
  }

  // ---------------------------------------------------------------------
  // Events by date
  // ---------------------------------------------------------------------

  /** The dates that occur in `events`. */
  function Dates(events: seq<Event>): (r: set<string>)
    ensures forall e :: e in events ==> e.date in r
    ensures forall d :: d in r ==> exists e :: e in events && e.date == d
  {
    set e | e in events :: e.date
  }

  /**
   * `eventsByDate`: one bucket per date that occurs, holding exactly that date's
   * events in collection order; dates without events have no bucket.
   */
  method EventsByDate(events: seq<Event>) returns (m: map<string, seq<Event>>)
    ensures m.Keys == Dates(events)
    ensures forall d :: d in m ==> m[d] == EventsOn(events, d)
    ensures forall d :: d !in m ==> EventsOn(events, d) == []
  {
    m := map[];
    var i := 0;
    while i < |events|
      invariant 0 <= i <= |events|
      invariant m.Keys == Dates(events[..i])
      invariant forall d :: d in m ==> m[d] == Bucket(events[..i], d)
      invariant forall d :: d !in m ==> Bucket(events[..i], d) == []
    {
      var e := events[i];
      assert events[..i + 1] == events[..i] + [e];
      GroupStep(m, events[..i], e);
      if e.date !in m {
        m := m[e.date := []];
      }
      m := m[e.date := m[e.date] + [e]];
      i := i + 1;
    }
    assert events[..i] == events;
    forall d ensures Bucket(events, d) == EventsOn(events, d) {
      BucketIsEventsOn(events, d);
    }
  }

  /** The events of `s` on day `d`, built the way the grouping pushes them: one at a time from the front. */
  ghost function Bucket(s: seq<Event>, d: string): seq<Event> {
    if s == [] then []
    else Bucket(s[..|s| - 1], d) + (if s[|s| - 1].date == d then [s[|s| - 1]] else [])
  }

  lemma BucketSnoc(s: seq<Event>, e: Event, d: string)
    ensures Bucket(s + [e], d) == Bucket(s, d) + (if e.date == d then [e] else [])
  {
    assert (s + [e])[..|s|] == s;
  }

  lemma {:induction false} BucketIsEventsOn(s: seq<Event>, d: string)
    ensures Bucket(s, d) == EventsOn(s, d)
  {
    if s != [] {
      var init, e := s[..|s| - 1], s[|s| - 1];
      assert s == init + [e];
      BucketIsEventsOn(init, d);
      EventsOnSnoc(init, e, d);
    }
  }

  /** One `push` keeps the map the grouping of the events seen so far. */
  lemma GroupStep(m: map<string, seq<Event>>, seen: seq<Event>, e: Event)
    requires m.Keys == Dates(seen)
    requires forall d :: d in m ==> m[d] == Bucket(seen, d)
    requires forall d :: d !in m ==> Bucket(seen, d) == []
    ensures var b := if e.date in m then m[e.date] else [];
      var m' := m[e.date := b + [e]];
      && m'.Keys == Dates(seen + [e])
      && (forall d :: d in m' ==> m'[d] == Bucket(seen + [e], d))
      && (forall d :: d !in m' ==> Bucket(seen + [e], d) == [])
  {
    var b := if e.date in m then m[e.date] else [];
    var m' := m[e.date := b + [e]];
    KeysStep(m, seen, e, b + [e]);
    assert b == Bucket(seen, e.date);
    forall d | d in m' ensures m'[d] == Bucket(seen + [e], d) {
      BucketSnoc(seen, e, d);
      if d != e.date {
        assert m'[d] == m[d] == Bucket(seen, d);
      }
    }
    forall d | d !in m' ensures Bucket(seen + [e], d) == [] {
      BucketSnoc(seen, e, d);
    }
  }

  lemma KeysStep(m: map<string, seq<Event>>, seen: seq<Event>, e: Event, v: seq<Event>)
    requires m.Keys == Dates(seen)
    ensures m[e.date := v].Keys == Dates(seen + [e])
  {
    DatesSnoc(seen, e);
  }

  lemma DatesSnoc(s: seq<Event>, e: Event)
    ensures Dates(s + [e]) == Dates(s) + {e.date}
  {
    forall d | d in Dates(s + [e]) ensures d in Dates(s) + {e.date} {
      var x :| x in s + [e] && x.date == d;
    }
  }

  lemma EventsOnSnoc(s: seq<Event>, e: Event, d: string)
    ensures EventsOn(s + [e], d) == EventsOn(s, d) + (if e.date == d then [e] else [])
  {
    FilterAppend(s, [e], (x: Event) => x.date == d);
    assert [e][1..] == [];
  }

  /** Sum of the sizes of the buckets for `keys`. */
  ghost function BucketSizes(events: seq<Event>, keys: seq<string>): nat {
    if keys == [] then 0 else |EventsOn(events, keys[0])| + BucketSizes(events, keys[1..])
  }

  /** How many times `x` occurs in `keys`. */
  ghost function Occurrences(keys: seq<string>, x: string): nat {
    if keys == [] then 0 else (if keys[0] == x then 1 else 0) + Occurrences(keys[1..], x)
  }

  lemma {:induction false} OccursOnce(keys: seq<string>, x: string)
    requires forall i, j :: 0 <= i < j < |keys| ==> keys[i] != keys[j]
    requires x in keys
    ensures Occurrences(keys, x) == 1
  {
    if keys[0] == x {
      NotOccurring(keys[1..], x);
    } else {
      OccursOnce(keys[1..], x);
    }
  }

  lemma {:induction false} NotOccurring(keys: seq<string>, x: string)
    requires x !in keys
    ensures Occurrences(keys, x) == 0
  {
    if keys != [] {
      NotOccurring(keys[1..], x);
    }
  }

  lemma {:induction false} BucketSizesCons(e: Event, rest: seq<Event>, keys: seq<string>)
    ensures BucketSizes([e] + rest, keys) == Occurrences(keys, e.date) + BucketSizes(rest, keys)
  {
    if keys != [] {
      var s := [e] + rest;
      assert s[1..] == rest;
      BucketSizesCons(e, rest, keys[1..]);
    }
  }

  /**
   * Every event is in exactly one bucket: over any list of the dates without
   * repetition, the bucket sizes add up to the number of events.
   */
  lemma {:induction false} BucketSizesSum(events: seq<Event>, keys: seq<string>)
    requires forall i, j :: 0 <= i < j < |keys| ==> keys[i] != keys[j]
    requires forall e :: e in events ==> e.date in keys
    ensures BucketSizes(events, keys) == |events|
  {
    if events == [] {
      EmptyBuckets(keys);
    } else {
      var e, rest := events[0], events[1..];
      assert events == [e] + rest;
      BucketSizesCons(e, rest, keys);
      OccursOnce(keys, e.date);
      BucketSizesSum(rest, keys);
    }
  }

  lemma {:induction false} EmptyBuckets(keys: seq<string>)
    ensures BucketSizes([], keys) == 0
  {
    if keys != [] {
      EmptyBuckets(keys[1..]);
    }
  }

  /**
   * `selectedEvents`: the selected day's bucket sorted in place by start time.
   * The sort reorders the array that the by-date map holds, so the map comes
   * back with that bucket replaced by its sorted order.
   */
  method SelectedEvents(byDate: map<string, seq<Event>>, selectedStr: string)
    returns (selected: seq<Event>, byDate': map<string, seq<Event>>)
    ensures Sorting.SortedBy(selected, EventOrder.ByStartTime)
    ensures selectedStr in byDate ==> multiset(selected) == multiset(byDate[selectedStr])
    ensures selectedStr !in byDate ==> selected == []
    ensures byDate' == if selectedStr in byDate then byDate[selectedStr := selected] else byDate
  {
    if selectedStr in byDate {
      var bucket := byDate[selectedStr];
      var a := new Event[|bucket|](i requires 0 <= i < |bucket| => bucket[i]);
      assert a[..] == bucket;
      EventOrder.ByStartTimeIsTotalPreorder();
      Sorting.SortArray(a, EventOrder.ByStartTime);
      selected := a[..];
      byDate' := byDate[selectedStr := selected];
    } else {
      selected := [];
      byDate' := byDate;
    }
  }

  /** `dayEvents.slice(0, 3)`: the first three events of a day's bucket, for its dots. */
  function DayDots(byDate: map<string, seq<Event>>, dateStr: string): (r: seq<Event>)
    ensures |r| <= 3
    ensures dateStr in byDate ==>
              |r| == (if |byDate[dateStr]| < 3 then |byDate[dateStr]| else 3) && r == byDate[dateStr][..|r|]
    ensures dateStr !in byDate ==> r == []
  {
    Take(if dateStr in byDate then byDate[dateStr] else [], 3)
  }

  // ---------------------------------------------------------------------
  // The view's own state
  // ---------------------------------------------------------------------

  /** The month on display; it starts at the month of the selected date. */
  class CalendarView {
    var currentMonth: int
    var currentYear: int

    ghost predicate Valid()
      reads this
    {
      0 <= currentMonth < 12
    }

    constructor (selectedMonth: int, selectedYear: int)
      requires 0 <= selectedMonth < 12
      ensures Valid()
      ensures currentMonth == selectedMonth && currentYear == selectedYear
    {
      currentMonth := selectedMonth;
      currentYear := selectedYear;
    }

    method PrevMonth()
      requires Valid()
      modifies this
      ensures Valid()
      ensures (currentMonth, currentYear) == PrevMonthOf(old(currentMonth), old(currentYear))
    {
      if currentMonth == 0 {
        currentMonth := 11;
        currentYear := currentYear - 1;
      } else {
        currentMonth := currentMonth - 1;
      }
    }

    method NextMonth()
      requires Valid()
      modifies this
      ensures Valid()
      ensures (currentMonth, currentYear) == NextMonthOf(old(currentMonth), old(currentYear))
    {
      if currentMonth == 11 {
        currentMonth := 0;
        currentYear := currentYear + 1;
      } else {
        currentMonth := currentMonth + 1;
      }
    }

    /** `goToToday`: show the current month and select today. */
    method GoToToday(nowMonth: int, nowYear: int, todayStr: string, agenda: AgendaStore.Agenda)
      requires 0 <= nowMonth < 12
      modifies this, agenda`selectedDate
      ensures Valid()
      ensures currentMonth == nowMonth && currentYear == nowYear
      ensures agenda.selectedDate == todayStr
    {
      currentMonth := nowMonth;
      currentYear := nowYear;
      agenda.SetSelectedDate(todayStr);
    }

    /** Clicking a day cell selects that day's key. */
    method SelectDay(day: nat, agenda: AgendaStore.Agenda)
      requires Valid()
      modifies agenda`selectedDate
      ensures agenda.selectedDate == DateKey(currentYear, currentMonth, day)
    {
      agenda.SetSelectedDate(DateKey(currentYear, currentMonth, day));
    }
  }
}
