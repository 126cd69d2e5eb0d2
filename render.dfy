/**
 * `renderSchedule`: the eight days from the start of the week, each looked
 * up in `weekEvents` by its date key, its records ordered by their time
 * strings, and the wrapper's class chosen from the week offset.
 */
module Render {
  import opened Text
  import opened Formatting
  import opened Events
  import opened Buckets

  /** Time strings compared character by character. */
  predicate TimeLessEq(a: Record, b: Record) {
    LexLessEq(a.time, b.time)
  }

  predicate SortedByTime(s: seq<Record>) {
    forall i, j :: 0 <= i < j < |s| ==> TimeLessEq(s[i], s[j])
  }

  /** Places `x` after every record whose time is not later than its own. */
  function Insert(s: seq<Record>, x: Record): seq<Record> {
    if s == [] || TimeLessEq(s[|s| - 1], x) then s + [x]
    else Insert(s[..|s| - 1], x) + [s[|s| - 1]]
  }

  /** The list sorted by time string, as a stable sort leaves it. */
  function SortByTime(s: seq<Record>): seq<Record> {
    if s == [] then [] else Insert(SortByTime(s[..|s| - 1]), s[|s| - 1])
  }

  /** The records whose time string is `t`, in order. */
  function WithTime(s: seq<Record>, t: string): seq<Record> {
    if s == [] then []
    else WithTime(s[..|s| - 1], t) + (if s[|s| - 1].time == t then [s[|s| - 1]] else [])
  }

  lemma WithTimeSnoc(s: seq<Record>, x: Record, t: string)
    ensures WithTime(s + [x], t) == WithTime(s, t) + (if x.time == t then [x] else [])
  {
    assert (s + [x])[..|s|] == s;
  }

  lemma LexReflexive(a: string)
    ensures LexLessEq(a, a)
    decreases |a|
  {
    if |a| > 0 {
      LexReflexive(a[1..]);
    }
  }

  lemma {:induction false} InsertMultiset(s: seq<Record>, x: Record)
    ensures multiset(Insert(s, x)) == multiset(s) + multiset{x}
  {
    if s != [] && !TimeLessEq(s[|s| - 1], x) {
      var init := s[..|s| - 1];
      InsertMultiset(init, x);
      assert s == init + [s[|s| - 1]];
    }
  }

  lemma {:induction false} InsertSorted(s: seq<Record>, x: Record)
    requires SortedByTime(s)
    ensures SortedByTime(Insert(s, x))
  {
    if s == [] {
    } else if TimeLessEq(s[|s| - 1], x) {
      var r := s + [x];
      forall i, j | 0 <= i < j < |r| ensures TimeLessEq(r[i], r[j]) {
        if j == |s| && i < |s| - 1 {
          LexTransitive(s[i].time, s[|s| - 1].time, x.time);
        }
      }
    } else {
      var init, last := s[..|s| - 1], s[|s| - 1];
      InsertSorted(init, x);
      InsertMultiset(init, x);
      LexTotal(last.time, x.time);
      var p := Insert(init, x);
      var r := p + [last];
      forall i, j | 0 <= i < j < |r| ensures TimeLessEq(r[i], r[j]) {
        if j == |p| {
          assert r[i] in multiset(p);
          assert r[i] in multiset(init) + multiset{x};
          if r[i] != x {
            assert r[i] in init;
            var k :| 0 <= k < |init| && init[k] == r[i];
            assert s[k] == r[i];
          }
        }
      }
    }
  }

  lemma {:induction false} InsertStable(s: seq<Record>, x: Record, t: string)
    ensures WithTime(Insert(s, x), t) == WithTime(s, t) + (if x.time == t then [x] else [])
  {
    if s == [] || TimeLessEq(s[|s| - 1], x) {
      WithTimeSnoc(s, x, t);
    } else {
      var init, last := s[..|s| - 1], s[|s| - 1];
      assert s == init + [last];
      assert Insert(s, x) == Insert(init, x) + [last];
      InsertStable(init, x, t);
      WithTimeSnoc(Insert(init, x), last, t);
      WithTimeSnoc(init, last, t);
      // `last` goes after `x` only because its time is later, so the two never share a time string.
      if last.time == x.time {
        LexReflexive(x.time);
      }
      var fromX := if x.time == t then [x] else [];
      var fromLast := if last.time == t then [last] else [];
      assert fromX == [] || fromLast == [];
      assert fromX + fromLast == fromLast + fromX;
    }
  }

  lemma {:induction false} SortByTimeSorted(s: seq<Record>)
    ensures SortedByTime(SortByTime(s))
  {
    if s != [] {
      SortByTimeSorted(s[..|s| - 1]);
      InsertSorted(SortByTime(s[..|s| - 1]), s[|s| - 1]);
    }
  }

  lemma {:induction false} SortByTimePermutes(s: seq<Record>)
    ensures multiset(SortByTime(s)) == multiset(s)
  {
    if s != [] {
      var init, last := s[..|s| - 1], s[|s| - 1];
      SortByTimePermutes(init);
      InsertMultiset(SortByTime(init), last);
      assert s == init + [last];
    }
  }

  lemma {:induction false} SortByTimeStable(s: seq<Record>, t: string)
    ensures WithTime(SortByTime(s), t) == WithTime(s, t)
  {
    if s != [] {
      var init, last := s[..|s| - 1], s[|s| - 1];
      SortByTimeStable(init, t);
      InsertStable(SortByTime(init), last, t);
      assert s == init + [last];
      WithTimeSnoc(init, last, t);
    }
  }

  /**
   * The sort leaves the list ordered by time string, holding the same
   * records, with records of equal time string in their original order.
   */
  lemma SortByTimeCorrect(s: seq<Record>, t: string)
    ensures SortedByTime(SortByTime(s))
    ensures multiset(SortByTime(s)) == multiset(s)
    ensures WithTime(SortByTime(s), t) == WithTime(s, t)
  {
    SortByTimeSorted(s);
    SortByTimePermutes(s);
    SortByTimeStable(s, t);
  }

  /** One day block: its date, whether it is today, and its records in display order. */
  datatype DayView = DayView(day: int, isToday: bool, events: seq<Record>)

  /** The block for `day`: the records under its date key, none when the key is absent. */
  function RenderDay(m: WeekMap, day: int, today: int): DayView {
    DayView(day, day == today, SortByTime(Lookup(m, DayKey(day))))
  }

  /**
   * The text of one event line: the start time and an en dash, then the end
   * time, the duration in parentheses, and the summary after " - ".
   */
  function EventLine(r: Record): (line: string)
    ensures |line| == |r.time| + |r.endTime| + |r.duration| + |r.summary| + 7
    ensures line[..|r.time| + 1] == r.time + "–"
    ensures line[|r.time| + 1..|r.time| + 1 + |r.endTime| + 2] == r.endTime + " ("
    ensures line[|line| - |r.summary| - |r.duration| - 4..] == r.duration + ") - " + r.summary
  {
    r.time + "–" + r.endTime + " (" + r.duration + ") - " + r.summary
  }

  /**
   * The lines a day block shows: "No Events" alone when it has no records,
   * otherwise one line per record, in the block's order.
   */
  function Lines(v: DayView): (lines: seq<string>)
    ensures |v.events| == 0 ==> lines == ["No Events"]
    ensures |v.events| > 0 ==> |lines| == |v.events|
    ensures |v.events| > 0 ==> forall i :: 0 <= i < |lines| ==> lines[i] == EventLine(v.events[i])
  {
    if |v.events| == 0 then ["No Events"]
    else seq(|v.events|, i requires 0 <= i < |v.events| => EventLine(v.events[i]))
  }

  /** The eight blocks, for the start of the week and the seven days after it. */
  function WeekView(m: WeekMap, start: int, today: int): seq<DayView> {
    seq(8, i requires 0 <= i < 8 => RenderDay(m, start + i, today))
  }

  /** The wrapper's class: the current, a past or a future week. */
  function WrapperClass(weekOffset: int): (c: string)
    ensures c == "current-week" <==> weekOffset == 0
    ensures c == "past-week" <==> weekOffset < 0
    ensures c == "future-week" <==> weekOffset > 0
  {
    if weekOffset == 0 then "current-week"
    else if weekOffset < 0 then "past-week"
    else "future-week"
  }

  /** The loop that lists the days to render: the start of the week and the next seven days. */
  method DaysToRender(start: int) returns (days: seq<int>)
    ensures |days| == 8
    ensures forall i :: 0 <= i < 8 ==> days[i] == start + i
  {
    days := [];
    var i := 0;
    while i <= 7
      invariant 0 <= i <= 8
      invariant |days| == i
      invariant forall j :: 0 <= j < i ==> days[j] == start + j
    {
      days := days + [start + i];
      i := i + 1;
    }
  }

  /** `renderSchedule`: one block per listed day, then the wrapper's class. */
  method RenderSchedule(weekEvents: WeekMap, startOfWeek: int, today: int, weekOffset: int)
    returns (table: seq<DayView>, wrapperClass: string)
    ensures table == WeekView(weekEvents, startOfWeek, today)
    ensures wrapperClass == WrapperClass(weekOffset)
  {
    var days := DaysToRender(startOfWeek);
    ghost var week := WeekView(weekEvents, startOfWeek, today);
    table := [];
    var i := 0;
    while i < |days|
      invariant 0 <= i <= |days|
      invariant table == week[..i]
    {
      var day := days[i];
      assert week[i] == RenderDay(weekEvents, day, today);
      assert week[..i + 1] == week[..i] + [week[i]];
      table := table + [RenderDay(weekEvents, day, today)];
      i := i + 1;
    }
    assert week[..8] == week;
    wrapperClass := WrapperClass(weekOffset);
  }

  /** The date keys the render looks up. */
  function ShownKeys(start: int): set<string> {
    set d | start <= d < start + 8 :: DayKey(d)
  }

  /**
   * The render looks up eight distinct keys, and a day's key is among them
   * exactly when the day is one of the eight from the start of the week:
   * records filed under any other day are never shown.
   */
  lemma ShownKeysAreTheWeek(start: int, d: int)
    ensures DayKey(d) in ShownKeys(start) <==> start <= d <= start + 7
    ensures forall a, b :: start <= a < b < start + 8 ==> DayKey(a) != DayKey(b)
  {
    if DayKey(d) in ShownKeys(start) {
      var e :| start <= e < start + 8 && DayKey(e) == DayKey(d);
      DayKeyInjective(e, d);
    }
    forall a, b | start <= a < b < start + 8 ensures DayKey(a) != DayKey(b) {
      DayKeyInjective(a, b);
    }
  }

  /** An occurrence is filed under a day's key exactly when it starts, in local time, on that day. */
  lemma OccurrenceFiledUnderItsDay(loc: Locale, t: int, seconds: int, summary: string, day: int)
    ensures MakeEntry(loc, t, seconds, summary).key == DayKey(day) <==> loc.dayOf(t) == day
  {
    var d := loc.dayOf(t);
    DayKeyInjective(d, day);
    var e := MakeEntry(loc, t, seconds, summary);
    assert e.key == DayKey(d);
  }

  /**
   * Block `i` of the rendered week shows, ordered by time string, exactly the
   * records filed under its day's key across all events, and shows
   * "No Events" exactly when no record was filed under that key.
   */
  lemma WeekViewShowsItsDay(evs: seq<VEvent>, loc: Locale, start: int, today: int, i: int)
    requires 0 <= i < 8
    ensures var v := WeekView(WeekEventsOf(evs, loc), start, today)[i];
      var filed := RecordsUnder(AllEntries(evs, loc), DayKey(start + i));
      && v.day == start + i
      && v.isToday == (start + i == today)
      && SortedByTime(v.events)
      && multiset(v.events) == multiset(filed)
      && (|v.events| == 0 <==> DayKey(start + i) !in WeekEventsOf(evs, loc))
  {
    var key := DayKey(start + i);
    var w := WeekEventsOf(evs, loc);
    WeekEventsAt(evs, loc, key);
    var filed := Lookup(w, key);
    SortByTimeSorted(filed);
    SortByTimePermutes(filed);
    assert WeekView(w, start, today)[i] == RenderDay(w, start + i, today);
    if |SortByTime(filed)| == 0 {
      assert multiset(filed) == multiset{};
    }
  }

  /** Within block `i`, the records sharing a time string appear in the order they were filed. */
  lemma WeekViewKeepsFilingOrder(evs: seq<VEvent>, loc: Locale, start: int, today: int, i: int, t: string)
    requires 0 <= i < 8
    ensures WithTime(WeekView(WeekEventsOf(evs, loc), start, today)[i].events, t)
         == WithTime(RecordsUnder(AllEntries(evs, loc), DayKey(start + i)), t)
  {
    var key := DayKey(start + i);
    var w := WeekEventsOf(evs, loc);
    WeekEventsAt(evs, loc, key);
    SortByTimeStable(Lookup(w, key), t);
    assert WeekView(w, start, today)[i] == RenderDay(w, start + i, today);
  }
}
