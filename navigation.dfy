/**
 * The page state: the module-level `weekOffset`, the three click handlers
 * that move it, and `updateSchedule`, which reloads the feed, renders the
 * week and sets the previous/next buttons' disabled flags.
 */
module Navigation {
  import opened Wrappers
  import opened Calendar
  import opened Events
  import opened Buckets
  import opened Loader
  import opened Render

  const MinWeekOffset: int := -3
  const MaxWeekOffset: int := 3

  predicate InRange(weekOffset: int) {
    MinWeekOffset <= weekOffset <= MaxWeekOffset
  }

  /** The previous-week button is disabled at the lower bound. */
  function PrevDisabled(weekOffset: int): bool {
    weekOffset <= MinWeekOffset
  }

  /** The next-week button is disabled at the upper bound. */
  function NextDisabled(weekOffset: int): bool {
    weekOffset >= MaxWeekOffset
  }

  datatype Click = PrevWeek | NextWeek | CurrentWeek

  /** Whether the handler changes the offset and calls `updateSchedule`. */
  function Refreshes(weekOffset: int, c: Click): bool {
    match c
    case PrevWeek => weekOffset > MinWeekOffset
    case NextWeek => weekOffset < MaxWeekOffset
    case CurrentWeek => true
  }

  /** The offset after a click. */
  function AfterClick(weekOffset: int, c: Click): (r: int)
    ensures InRange(weekOffset) ==> InRange(r)
    ensures c.PrevWeek? ==> r == (if PrevDisabled(weekOffset) then weekOffset else weekOffset - 1)
    ensures c.NextWeek? ==> r == (if NextDisabled(weekOffset) then weekOffset else weekOffset + 1)
    ensures c.CurrentWeek? ==> r == 0
  {
    match c
    case PrevWeek => if weekOffset > MinWeekOffset then weekOffset - 1 else weekOffset
    case NextWeek => if weekOffset < MaxWeekOffset then weekOffset + 1 else weekOffset
    case CurrentWeek => 0
  }

  /** A button is disabled exactly when its handler would do nothing. */
  lemma ButtonsMatchHandlers(weekOffset: int)
    ensures PrevDisabled(weekOffset) <==> !Refreshes(weekOffset, PrevWeek)
    ensures NextDisabled(weekOffset) <==> !Refreshes(weekOffset, NextWeek)
    ensures InRange(weekOffset) ==>
      (PrevDisabled(weekOffset) <==> weekOffset == MinWeekOffset) &&
      (NextDisabled(weekOffset) <==> weekOffset == MaxWeekOffset)
  {
  }

  /** The offset after a series of clicks. */
  function AfterClicks(weekOffset: int, cs: seq<Click>): int
    decreases |cs|
  {
    if cs == [] then weekOffset else AfterClicks(AfterClick(weekOffset, cs[0]), cs[1..])
  }

  /** No series of clicks takes the offset out of -3..3. */
  lemma {:induction false} ClicksStayInRange(weekOffset: int, cs: seq<Click>)
    requires InRange(weekOffset)
    ensures InRange(AfterClicks(weekOffset, cs))
    decreases |cs|
  {
    if cs != [] {
      ClicksStayInRange(AfterClick(weekOffset, cs[0]), cs[1..]);
    }
  }

  function Repeat(c: Click, k: nat): (cs: seq<Click>)
    ensures |cs| == k
  {
    if k == 0 then [] else [c] + Repeat(c, k - 1)
  }

  /** Pressing "previous" `k` times goes back `k` weeks, but never past the lower bound. */
  lemma {:induction false} RepeatedPrevStopsAtBound(weekOffset: int, k: nat)
    requires InRange(weekOffset)
    ensures AfterClicks(weekOffset, Repeat(PrevWeek, k))
         == if weekOffset - k < MinWeekOffset then MinWeekOffset else weekOffset - k
    decreases k
  {
    if k > 0 {
      RepeatedPrevStopsAtBound(AfterClick(weekOffset, PrevWeek), k - 1);
    }
  }

  /** Pressing "next" `k` times goes forward `k` weeks, but never past the upper bound. */
  lemma {:induction false} RepeatedNextStopsAtBound(weekOffset: int, k: nat)
    requires InRange(weekOffset)
    ensures AfterClicks(weekOffset, Repeat(NextWeek, k))
         == if weekOffset + k > MaxWeekOffset then MaxWeekOffset else weekOffset + k
    decreases k
  {
    if k > 0 {
      RepeatedNextStopsAtBound(AfterClick(weekOffset, NextWeek), k - 1);
    }
  }

  /** The page: the week offset and what the last updates left on screen. */
  class Schedule {
    var weekOffset: int
    var table: seq<DayView>
    var wrapperClass: string
    var prevDisabled: bool
    var nextDisabled: bool

    ghost predicate Valid()
      reads this
    {
      InRange(weekOffset)
    }

    /**
     * What `updateSchedule` leaves: the week of `feed` rendered when it
     * loaded (otherwise the blocks and wrapper class shown before), and the
     * buttons' flags for the current offset either way.
     */
    ghost predicate Updated(feed: Option<seq<VEvent>>, loc: Locale, today: int,
                            oldTable: seq<DayView>, oldWrapperClass: string)
      reads this
    {
      && (feed.Some? ==>
            table == WeekView(WeekEventsOf(feed.value, loc), StartOfWeek(today, weekOffset), today) &&
            wrapperClass == WrapperClass(weekOffset))
      && (feed.None? ==> table == oldTable && wrapperClass == oldWrapperClass)
      && prevDisabled == PrevDisabled(weekOffset)
      && nextDisabled == NextDisabled(weekOffset)
    }

    /** The page before its first update: the current week. */
    constructor ()
      ensures Valid() && weekOffset == 0
      ensures table == [] && wrapperClass == ""
      ensures !prevDisabled && !nextDisabled
    {
      weekOffset := 0;
      table := [];
      wrapperClass := "";
      prevDisabled := false;
      nextDisabled := false;
    }

    /** `updateSchedule`, with `feed` the outcome of its fetch and `today` its clock reading. */
    method UpdateSchedule(feed: Option<seq<VEvent>>, loc: Locale, today: int)
      modifies this
      ensures weekOffset == old(weekOffset)
      ensures Updated(feed, loc, today, old(table), old(wrapperClass))
    {
      var result := FetchAndParse(feed, loc, today, weekOffset);
      if result.Some? {
        table, wrapperClass := RenderSchedule(result.value.weekEvents, result.value.startOfWeek, today, weekOffset);
      }
      prevDisabled := weekOffset <= MinWeekOffset;
      nextDisabled := weekOffset >= MaxWeekOffset;
    }

    /** The previous-week handler. */
    method PrevWeek(feed: Option<seq<VEvent>>, loc: Locale, today: int)
      requires Valid()
      modifies this
      ensures Valid()
      ensures weekOffset == AfterClick(old(weekOffset), Click.PrevWeek)
      ensures Refreshes(old(weekOffset), Click.PrevWeek) ==> Updated(feed, loc, today, old(table), old(wrapperClass))
      ensures !Refreshes(old(weekOffset), Click.PrevWeek) ==> unchanged(this)
    {
      if weekOffset > MinWeekOffset {
        weekOffset := weekOffset - 1;
        UpdateSchedule(feed, loc, today);
      }
    }

    /** The next-week handler. */
    method NextWeek(feed: Option<seq<VEvent>>, loc: Locale, today: int)
      requires Valid()
      modifies this
      ensures Valid()
      ensures weekOffset == AfterClick(old(weekOffset), Click.NextWeek)
      ensures Refreshes(old(weekOffset), Click.NextWeek) ==> Updated(feed, loc, today, old(table), old(wrapperClass))
      ensures !Refreshes(old(weekOffset), Click.NextWeek) ==> unchanged(this)
    {
      if weekOffset < MaxWeekOffset {
        weekOffset := weekOffset + 1;
        UpdateSchedule(feed, loc, today);
      }
    }

    /** The current-week handler: back to offset 0, always followed by an update. */
    method CurrentWeek(feed: Option<seq<VEvent>>, loc: Locale, today: int)
      requires Valid()
      modifies this
      ensures Valid()
      ensures weekOffset == AfterClick(old(weekOffset), Click.CurrentWeek)
      ensures Updated(feed, loc, today, old(table), old(wrapperClass))
    {
      weekOffset := 0;
      UpdateSchedule(feed, loc, today);
    }
  }
}
