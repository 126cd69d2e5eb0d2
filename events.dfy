/**
 * The events of the calendar feed and the occurrences they expand to
 * (`fetchAndParseICS`): the skip rule, the one occurrence of an event without
 * a recurrence rule, the capped drive of the recurrence iterator, and the
 * record `processInstance` files under the occurrence's date key.
 */
module Events {
  import opened Wrappers
  import opened Formatting

  /** The cap on the occurrences taken from one recurring event. */
  const MaxOccurrences: nat := 20

  /** The duration of an event that states none: sixty minutes. */
  const DefaultDurationSeconds: int := 3600

  /** What one call of the recurrence iterator's `next()` does. */
  datatype Step = Yield(start: int) | Exhausted | Throws

  /**
   * The iterator's answers: `next()` called for the (k+1)-th time answers
   * `steps(k)`.  An infinite rule yields forever.
   */
  type Recurrence = nat -> Step

  /**
   * A `VEVENT` as the calendar library presents it: `Unreadable` when the
   * library throws while building the event; otherwise its start instant
   * (milliseconds since the epoch), summary, duration in seconds, and the
   * occurrence iterator when the event has a recurrence rule.
   */
  datatype VEvent =
    | Unreadable
    | VEvent(start: Option<int>, summary: Option<string>, duration: Option<int>, recurrence: Option<Recurrence>)

  /**
   * The host's local time: the local day number of an instant and
   * `toLocaleTimeString` with two-digit hours and minutes.
   */
  datatype Locale = Locale(dayOf: int -> int, timeOf: int -> string)

  /** The record pushed for one occurrence. */
  datatype Record = Record(time: string, endTime: string, duration: string, summary: string)

  /** A record together with the date key it is filed under. */
  datatype Entry = Entry(key: string, record: Record)

  /** An event without a start, or whose summary is missing or empty, is passed over. */
  predicate Skipped(ev: VEvent)
    requires ev.VEvent?
  {
    ev.start.None? || ev.summary.None? || ev.summary.value == ""
  }

  function DurationSeconds(ev: VEvent): (s: int)
    requires ev.VEvent?
    ensures ev.duration.None? ==> s == DefaultDurationSeconds
    ensures ev.duration.Some? ==> s == ev.duration.value
  {
    if ev.duration.Some? then ev.duration.value else DefaultDurationSeconds
  }

  /** `processInstance`: the entry for an occurrence starting at instant `t`. */
  function MakeEntry(loc: Locale, t: int, seconds: int, summary: string): (e: Entry)
    ensures e.key == DayKey(loc.dayOf(t))
    ensures e.record.time == loc.timeOf(t)
    ensures e.record.endTime == loc.timeOf(t + seconds * 1000)
    ensures e.record.duration == DurationText(seconds * 1000)
    ensures e.record.summary == summary
  {
    var ms := seconds * 1000;
    Entry(DayKey(loc.dayOf(t)),
          Record(loc.timeOf(t), loc.timeOf(t + ms), DurationText(ms), summary))
  }

  /** The instants the capped loop takes when `count` is `i`. */
  function ExpandFrom(steps: Recurrence, i: nat): (r: seq<int>)
    requires i <= MaxOccurrences
    ensures |r| <= MaxOccurrences - i
    ensures forall j :: 0 <= j < |r| ==> steps(i + j) == Yield(r[j])
    ensures i + |r| < MaxOccurrences ==> !steps(i + |r|).Yield?
    decreases MaxOccurrences - i
  {
    if i == MaxOccurrences then []
    else match steps(i)
      case Yield(t) => [t] + ExpandFrom(steps, i + 1)
      case _ => []
  }

  /**
   * The occurrences a recurring event contributes: the iterator's instants in
   * order, at most `MaxOccurrences` of them, ending early at the first call
   * that yields nothing.
   */
  function Expand(steps: Recurrence): (r: seq<int>)
    ensures |r| <= MaxOccurrences
    ensures forall j :: 0 <= j < |r| ==> steps(j) == Yield(r[j])
    ensures |r| < MaxOccurrences ==> !steps(|r|).Yield?
  {
    ExpandFrom(steps, 0)
  }

  /**
   * Where the capped loop stands after `k` occurrences: it takes another
   * exactly when the cap is not reached and the iterator yields, and what it
   * takes is the expansion's next instant.
   */
  lemma ExpandAt(steps: Recurrence, k: nat)
    ensures k < |Expand(steps)| ==> k < MaxOccurrences && steps(k) == Yield(Expand(steps)[k])
    ensures k == |Expand(steps)| ==> !(k < MaxOccurrences && steps(k).Yield?)
  {
  }

  /** The three properties of `Expand` determine it: it is the longest yielded prefix up to the cap. */
  lemma ExpandIsLongestPrefix(steps: Recurrence, r: seq<int>)
    requires |r| <= MaxOccurrences
    requires forall j :: 0 <= j < |r| ==> steps(j) == Yield(r[j])
    requires |r| < MaxOccurrences ==> !steps(|r|).Yield?
    ensures r == Expand(steps)
  {
    var e := Expand(steps);
    assert |r| == |e|;
    forall j | 0 <= j < |r| ensures r[j] == e[j] {
      assert steps(j) == Yield(r[j]) && steps(j) == Yield(e[j]);
    }
  }

  /** The start instants an event contributes. */
  function Starts(ev: VEvent): (ts: seq<int>)
    ensures ev.Unreadable? || Skipped(ev) ==> ts == []
    ensures ev.VEvent? && !Skipped(ev) && ev.recurrence.None? ==> ts == [ev.start.value]
    ensures ev.VEvent? && !Skipped(ev) && ev.recurrence.Some? ==> ts == Expand(ev.recurrence.value)
    ensures |ts| <= MaxOccurrences
  {
    if ev.Unreadable? || Skipped(ev) then []
    else if ev.recurrence.None? then [ev.start.value]
    else Expand(ev.recurrence.value)
  }

  /** The entries for the instants `ts`, in order. */
  function EntriesAt(loc: Locale, ts: seq<int>, seconds: int, summary: string): seq<Entry> {
    if ts == [] then []
    else EntriesAt(loc, ts[..|ts| - 1], seconds, summary) + [MakeEntry(loc, ts[|ts| - 1], seconds, summary)]
  }

  /** One entry per instant, the `i`-th made from the `i`-th instant. */
  lemma {:induction false} EntriesAtIndex(loc: Locale, ts: seq<int>, seconds: int, summary: string, i: nat)
    requires i < |ts|
    ensures |EntriesAt(loc, ts, seconds, summary)| == |ts|
    ensures EntriesAt(loc, ts, seconds, summary)[i] == MakeEntry(loc, ts[i], seconds, summary)
  {
    var init := ts[..|ts| - 1];
    if i < |ts| - 1 {
      EntriesAtIndex(loc, init, seconds, summary, i);
    } else if init != [] {
      EntriesAtIndex(loc, init, seconds, summary, 0);
    }
  }

  /** The entries one event pushes, in the order it pushes them. */
  function EventEntries(ev: VEvent, loc: Locale): seq<Entry> {
    if ev.Unreadable? || Skipped(ev) then []
    else EntriesAt(loc, Starts(ev), DurationSeconds(ev), ev.summary.value)
  }

  /** An unreadable event, or one without start or summary, pushes nothing. */
  lemma SkippedEventPushesNothing(ev: VEvent, loc: Locale)
    requires ev.Unreadable? || Skipped(ev)
    ensures EventEntries(ev, loc) == []
  {
  }

  /** An event without a recurrence rule pushes exactly one record, filed under its own start's day. */
  lemma SingleEventPushesOne(ev: VEvent, loc: Locale)
    requires ev.VEvent? && !Skipped(ev) && ev.recurrence.None?
    ensures |EventEntries(ev, loc)| == 1
    ensures EventEntries(ev, loc)[0].key == DayKey(loc.dayOf(ev.start.value))
    ensures EventEntries(ev, loc)[0].record.summary == ev.summary.value
    ensures EventEntries(ev, loc)[0].record.duration == DurationText(DurationSeconds(ev) * 1000)
  {
    SingleEventEntries(ev, loc);
  }

  lemma SingleEventEntries(ev: VEvent, loc: Locale)
    requires ev.VEvent? && !Skipped(ev) && ev.recurrence.None?
    ensures EventEntries(ev, loc) == [MakeEntry(loc, ev.start.value, DurationSeconds(ev), ev.summary.value)]
  {
    var t := ev.start.value;
    assert Starts(ev) == [t];
    assert EventEntries(ev, loc) == EntriesAt(loc, [t], DurationSeconds(ev), ev.summary.value);
    assert [t][..0] == [];
    assert EntriesAt(loc, [t], DurationSeconds(ev), ev.summary.value)
        == [MakeEntry(loc, t, DurationSeconds(ev), ev.summary.value)];
  }

  /**
   * A recurring event pushes one record per instant the iterator yields, in
   * iterator order, at most `MaxOccurrences`, stopping at the first call that
   * yields nothing.
   */
  lemma RecurringEventPushesPrefix(ev: VEvent, loc: Locale)
    requires ev.VEvent? && !Skipped(ev) && ev.recurrence.Some?
    ensures var es := EventEntries(ev, loc); var steps := ev.recurrence.value;
      && |es| <= MaxOccurrences
      && (forall j :: 0 <= j < |es| ==>
            steps(j).Yield? &&
            es[j] == MakeEntry(loc, steps(j).start, DurationSeconds(ev), ev.summary.value))
      && (|es| < MaxOccurrences ==> !steps(|es|).Yield?)
  {
    var steps := ev.recurrence.value;
    var ts := Expand(steps);
    var seconds, summary := DurationSeconds(ev), ev.summary.value;
    RecurringEventEntries(ev, loc);
    var es := EntriesAt(loc, ts, seconds, summary);
    if ts != [] {
      EntriesAtIndex(loc, ts, seconds, summary, 0);
    }
    assert |es| == |ts|;
    forall j | 0 <= j < |es|
      ensures steps(j).Yield?
      ensures es[j] == MakeEntry(loc, steps(j).start, seconds, summary)
    {
      EntriesAtIndex(loc, ts, seconds, summary, j);
      assert steps(j) == Yield(ts[j]);
      assert es[j] == MakeEntry(loc, ts[j], seconds, summary);
    }
  }

  lemma RecurringEventEntries(ev: VEvent, loc: Locale)
    requires ev.VEvent? && !Skipped(ev) && ev.recurrence.Some?
    ensures EventEntries(ev, loc) == EntriesAt(loc, Expand(ev.recurrence.value), DurationSeconds(ev), ev.summary.value)
  {
    assert Starts(ev) == Expand(ev.recurrence.value);
  }

  /** How the per-event `try` ends. */
  datatype EventOutcome =
    | Processed   // every occurrence taken was pushed
    | Ignored     // no start or no summary: returned without a word
    | Aborted     // the library threw: a warning is logged, records already pushed stay

  function Outcome(ev: VEvent): EventOutcome {
    if ev.Unreadable? then Aborted
    else if Skipped(ev) then Ignored
    else if ev.recurrence.Some? && ev.recurrence.value(|Expand(ev.recurrence.value)|).Throws? then Aborted
    else Processed
  }

  /** The entries of all events, event after event. */
  function AllEntries(evs: seq<VEvent>, loc: Locale): seq<Entry> {
    if evs == [] then []
    else AllEntries(evs[..|evs| - 1], loc) + EventEntries(evs[|evs| - 1], loc)
  }
}
