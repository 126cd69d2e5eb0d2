/**
 * `fetchAndParseICS`: every event of the feed is expanded and each of its
 * occurrences filed into a fresh `weekEvents`, one event at a time; a
 * recurring event is driven through its iterator by a capped loop.
 */
module Loader {
  import opened Wrappers
  import opened Calendar
  import opened Events
  import opened Buckets

  /** The library's recurrence iterator: each `Next()` answers the next step of the rule. */
  class RecurExpansion {
    const steps: Recurrence
    var calls: nat

    constructor (steps: Recurrence)
      ensures this.steps == steps && calls == 0
    {
      this.steps := steps;
      calls := 0;
    }

    method Next() returns (s: Step)
      modifies this
      ensures s == steps(old(calls))
      ensures calls == old(calls) + 1
    {
      s := steps(calls);
      calls := calls + 1;
    }
  }

  /** `processInstance`: files the record of the occurrence starting at `t`. */
  method ProcessInstance(week: WeekEvents, loc: Locale, t: int, seconds: int, summary: string)
    modifies week
    ensures week.buckets == AddEntry(old(week.buckets), MakeEntry(loc, t, seconds, summary))
  {
    week.Push(MakeEntry(loc, t, seconds, summary));
  }

  lemma EntriesAtSnoc(loc: Locale, ts: seq<int>, k: nat, seconds: int, summary: string)
    requires k < |ts|
    ensures EntriesAt(loc, ts[..k + 1], seconds, summary)
         == EntriesAt(loc, ts[..k], seconds, summary) + [MakeEntry(loc, ts[k], seconds, summary)]
  {
    assert ts[..k + 1][..k] == ts[..k];
  }

  /** The pushes for one more instant: the earlier pushes, then that instant's entry. */
  lemma ExpansionStep(start: WeekMap, loc: Locale, ts: seq<int>, k: nat, seconds: int, summary: string)
    requires k < |ts|
    ensures AddAll(start, EntriesAt(loc, ts[..k + 1], seconds, summary))
         == AddEntry(AddAll(start, EntriesAt(loc, ts[..k], seconds, summary)), MakeEntry(loc, ts[k], seconds, summary))
  {
    EntriesAtSnoc(loc, ts, k, seconds, summary);
    AddAllSnoc(start, EntriesAt(loc, ts[..k], seconds, summary), MakeEntry(loc, ts[k], seconds, summary));
  }

  /**
   * The capped loop: `next()` is called before the count is compared, so after
   * `MaxOccurrences` occurrences the iterator is advanced once more and that
   * answer is dropped.  An iterator that throws ends the loop; the records
   * already pushed stay.
   */
  method DriveExpansion(week: WeekEvents, expand: RecurExpansion, loc: Locale, seconds: int, summary: string)
    returns (threw: bool)
    requires expand.calls == 0
    modifies week, expand
    ensures week.buckets == AddAll(old(week.buckets), EntriesAt(loc, Expand(expand.steps), seconds, summary))
    ensures expand.calls == |Expand(expand.steps)| + 1
    ensures threw == expand.steps(|Expand(expand.steps)|).Throws?
  {
    ghost var ts := Expand(expand.steps);
    ghost var start := week.buckets;
    var count := 0;
    threw := false;
    while true
      invariant 0 <= count <= |ts|
      invariant expand.calls == count
      invariant week.buckets == AddAll(start, EntriesAt(loc, ts[..count], seconds, summary))
      decreases MaxOccurrences - count
    {
      var next := expand.Next();
      ExpandAt(expand.steps, count);
      if next.Throws? {
        threw := true;
        break;
      }
      if !next.Yield? || count >= MaxOccurrences {
        break;
      }
      assert ts[count] == next.start;
      ExpansionStep(start, loc, ts, count, seconds, summary);
      ProcessInstance(week, loc, next.start, seconds, summary);
      count := count + 1;
    }
    assert count == |ts|;
    assert ts[..count] == ts;
  }

  /**
   * The body of the per-event `try`: skip an event without start or summary,
   * push one record for an event without a recurrence rule, drive the
   * iterator of one with a rule.
   */
  method ProcessEvent(week: WeekEvents, ev: VEvent, loc: Locale) returns (outcome: EventOutcome)
    modifies week
    ensures week.buckets == AddAll(old(week.buckets), EventEntries(ev, loc))
    ensures outcome == Outcome(ev)
  {
    if ev.Unreadable? {
      return Aborted;
    }
    if ev.start.None? || ev.summary.None? || ev.summary.value == "" {
      return Ignored;
    }
    var seconds := if ev.duration.Some? then ev.duration.value else DefaultDurationSeconds;
    if ev.recurrence.Some? {
      var expand := new RecurExpansion(ev.recurrence.value);
      var threw := DriveExpansion(week, expand, loc, seconds, ev.summary.value);
      RecurringEventEntries(ev, loc);
      outcome := if threw then Aborted else Processed;
    } else {
      ProcessInstance(week, loc, ev.start.value, seconds, ev.summary.value);
      SingleEventEntries(ev, loc);
      ghost var e := MakeEntry(loc, ev.start.value, seconds, ev.summary.value);
      assert [e][..0] == [];
      assert AddAll(old(week.buckets), [e]) == AddEntry(old(week.buckets), e);
      outcome := Processed;
    }
  }

  /** Filing one more event: its entries pushed after those of the events before it. */
  lemma FeedStep(evs: seq<VEvent>, i: nat, loc: Locale)
    requires i < |evs|
    ensures AddAll(map[], AllEntries(evs[..i + 1], loc))
         == AddAll(AddAll(map[], AllEntries(evs[..i], loc)), EventEntries(evs[i], loc))
  {
    var before, ev := evs[..i], evs[i];
    assert evs[..i + 1] == before + [ev];
    AllEntriesSnoc(before, ev, loc);
    AddAllConcat(map[], AllEntries(before, loc), EventEntries(ev, loc));
  }

  /** What `fetchAndParseICS` returns when the feed loads. */
  datatype Loaded = Loaded(weekEvents: WeekMap, startOfWeek: int)

  /**
   * `fetchAndParseICS` from the parsed feed on: `None` when fetching or
   * parsing the whole calendar failed, otherwise the filled `weekEvents` and
   * the first day of the displayed week.  No occurrence is filtered by date.
   */
  method FetchAndParse(feed: Option<seq<VEvent>>, loc: Locale, today: int, weekOffset: int)
    returns (result: Option<Loaded>)
    ensures feed.None? ==> result.None?
    ensures feed.Some? ==> result == Some(Loaded(WeekEventsOf(feed.value, loc), StartOfWeek(today, weekOffset)))
  {
    if feed.None? {
      return None;
    }
    var evs := feed.value;
    var week := new WeekEvents();
    var startOfWeek := today - Weekday(today) + 7 * weekOffset;
    var i := 0;
    while i < |evs|
      invariant 0 <= i <= |evs|
      invariant week.buckets == AddAll(map[], AllEntries(evs[..i], loc))
    {
      var _ := ProcessEvent(week, evs[i], loc);
      FeedStep(evs, i, loc);
      i := i + 1;
    }
    assert evs[..i] == evs;
    assert week.buckets == WeekEventsOf(evs, loc);
    result := Some(Loaded(week.buckets, startOfWeek));
  }
}
