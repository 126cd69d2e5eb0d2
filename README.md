# Weekly schedule from an iCalendar feed — a Dafny model

The page shows one week of a public Google calendar. It loads the calendar's ICS feed and expands every event into occurrences:

- an event without a recurrence rule has one occurrence;
- a recurring event has at most 20, taken from the calendar library's iterator.

Each occurrence is filed in the `weekEvents` dictionary under its local date key `YYYY-MM-DD`, as a record. The record holds the start and end time strings, a `"<H>h <M>m"` duration and the summary. The page then renders eight day blocks, starting from the Sunday of the displayed week. Each block shows its records ordered by time string, or "No Events" when there are none. A week offset, clamped to -3..3, selects the week; "previous", "next" and "current" buttons move it and re-run the whole load-and-render.

This project models that core of `script/script.js`:

- `Calendar`: local days as day numbers from 1 January 1970, their Gregorian dates and weekdays, and the first day of the displayed week.
- `Text`: `String(n)`, `padStart` and character-by-character string order.
- `Formatting`: the date key and the duration string, each with a parser that reads it back.
- `Events`: the events as the calendar library presents them, the skip rule, the capped iteration and the record built for an occurrence.
- `Buckets`: the `weekEvents` dictionary, as pure functions and as the `WeekEvents` class filled in place.
- `Loader`: `fetchAndParseICS` as imperative code. `RecurExpansion` stands for the library's iterator, `DriveExpansion` is the capped `while` loop, and `FetchAndParse` is the loop over the events.
- `Render`: `renderSchedule`, made of the day list loop, the lookup, the stable sort by time string, the event line and the wrapper class.
- `Navigation`: the `weekOffset` state machine, the button flags and the three click handlers, as the `Schedule` class.

What the code does that a reader may not expect:

- No occurrence is filtered by date. `endOfWeek` is computed and never used, so every occurrence of every event is filed. Only the keys of the eight rendered days are ever looked up (`Render.ShownKeysAreTheWeek`).
- Eight days are rendered (`i` runs from 0 to 7), not seven.
- Date keys are always local calendar dates.
- The duration is always `"<H>h <M>m"`, with JavaScript's floor division for hours and its truncating `%` for minutes.
- Time strings are compared as strings. With a 12-hour clock, "09:00 PM" therefore sorts before "10:00 AM". This is the code's behaviour and the model keeps it.

## Model

| member | source | states |
|---|---|---|
| Calendar.DaysInMonth | script/script.js:99 | month lengths used when `setDate` rolls over: 28 to 31 days, February 29 exactly in leap years |
| Calendar.YearLength | script/script.js:99 | the month lengths add up to 366 days in a leap year and 365 otherwise |
| Calendar.NextDay | script/script.js:99 | the day after a valid date is a valid, later date with no valid date strictly between them |
| Calendar.PrevDay | script/script.js:22 | the day before a valid date is a valid, earlier date with no valid date strictly between them |
| Calendar.DateOfDay | script/script.js:98-99 | every day number has a valid calendar date |
| Calendar.DateOfDayInjective | script/script.js:98-99 | two day numbers have the same date exactly when they are equal |
| Calendar.DateOfNextDay | script/script.js:99 | the date of day d+1 is the day after the date of day d, before and after 1970 alike |
| Calendar.Weekday | script/script.js:22 | `getDay()` is in 0..6 |
| Calendar.WeekdayOfNextDay | script/script.js:22 | weekdays advance by one per day and repeat every seven days |
| Calendar.StartOfWeek | script/script.js:21-23 | the start of the week is a Sunday, and today lies in the seven days from it shifted back by `weekOffset` weeks |
| Calendar.StartOfWeekShift | script/script.js:22 | an offset moves the start by exactly that many whole weeks from this week's Sunday |
| Calendar.StartOfWeekUnique | script/script.js:21-23 | this week's Sunday is the only Sunday within seven days up to today |
| Text.NatToStringShape | script/script.js:42-43 | `String(n)` of a natural number is non-empty and all digits, and has one digit exactly when n < 10 |
| Text.ParseIntToString | script/script.js:41 | `String(n)` of any integer reads back to n |
| Text.IntToStringInjective | script/script.js:41 | different integers have different strings |
| Text.PadStartShape | script/script.js:42-43 | `padStart` gives the requested width, ends with the original string and is fill characters before it |
| Text.LexTotal | script/script.js:128 | any two time strings are comparable |
| Text.LexAntisymmetric | script/script.js:128 | strings that compare both ways are equal |
| Text.LexTransitive | script/script.js:128 | the order on time strings is transitive |
| Formatting.TwoDigitsReadsBack | script/script.js:42-43 | a month or day padded to two digits is two characters long and reads back to its value |
| Formatting.DateKeyReadsBack | script/script.js:41-43 | the date key of a valid date parses back to that date |
| Formatting.DateKeyInjective | script/script.js:41-43 | two valid dates have the same key exactly when they are equal |
| Formatting.DayKeyInjective | script/script.js:104-106 | two days have the same date key exactly when they are the same day |
| Formatting.JsRem60 | script/script.js:51 | JavaScript `% 60` is the mathematical remainder for a non-negative dividend; for a negative one it is in -59..0 and differs from the dividend by a multiple of 60, so it is the truncating remainder |
| Formatting.PartsOfNonNegative | script/script.js:48-51 | for a non-negative duration, hours*60 + minutes is the whole minutes and minutes is in 0..59 |
| Formatting.PartsOfNegative | script/script.js:48-51 | for a negative duration that is not whole hours, minutes is in -59..-1 and hours*60 + minutes is one hour short of the whole minutes |
| Formatting.DurationTextValue | script/script.js:52 | the duration string reads back to hours*60 + minutes |
| Formatting.PartsOfWholeHours | script/script.js:48-51 | a whole number of hours, of either sign, has minutes 0 and hours*60 equal to the whole minutes |
| Formatting.DurationTextReadsBack | script/script.js:48-52 | the duration string of a non-negative duration, or of a whole number of hours, reads back to its whole minutes; any other negative duration reads back an hour short |
| Events.DurationSeconds | script/script.js:63 | an event without a duration lasts 3600 seconds; otherwise its own duration |
| Events.MakeEntry | script/script.js:36-60 | an occurrence's record is filed under the date key of its local start day; its time is the start's time string, its end time the time string of the start plus the duration, its duration the duration text of the duration, and its summary the event's |
| Events.Expand | script/script.js:71-76 | at most 20 instants, each the iterator's answer at its position, ending early at the first answer that is not an instant |
| Events.ExpandAt | script/script.js:73-76 | after k occurrences the loop takes another exactly when the cap is not reached and the iterator yields, and it takes the expansion's next instant |
| Events.ExpandIsLongestPrefix | script/script.js:71-76 | any sequence with those three properties is the expansion |
| Events.Starts | script/script.js:29-79 | a skipped or unreadable event has no start; a non-recurring one has its own start; a recurring one has the iterator's expansion; any event has at most 20 |
| Events.EntriesAtIndex | script/script.js:75 | one entry per instant, the i-th made from the i-th instant |
| Events.SkippedEventPushesNothing | script/script.js:31-32 | an unreadable event, or one without start or non-empty summary, pushes nothing |
| Events.SingleEventPushesOne | script/script.js:77-79 | an event without a rule pushes one record, under its start's day key, with its summary and duration |
| Events.RecurringEventPushesPrefix | script/script.js:65-76 | a recurring event pushes one record per yielded instant in iterator order, at most 20, stopping at the first answer that is not an instant |
| Buckets.AddEntry | script/script.js:54-60 | a push adds the key, appends the record to that key's list and leaves every other key's list alone |
| Buckets.RecordsUnderEmpty | script/script.js:54 | no records are filed under a key exactly when no entry has that key |
| Buckets.AddAllAt | script/script.js:54-60 | after a series of pushes, each key's list is its old list followed by that key's records in push order |
| Buckets.AddAllKeys | script/script.js:54 | the pushes add exactly the pushed entries' keys |
| Buckets.AddAllSnoc | script/script.js:54-60 | pushing one more entry after a run of pushes is one more push |
| Buckets.AddAllConcat | script/script.js:29-83 | pushing two runs of entries is pushing their concatenation |
| Buckets.AddAllNoEmptyBucket | script/script.js:54-55 | pushes never leave a key with an empty list |
| Buckets.WeekEventsAt | script/script.js:16-83 | the finished `weekEvents` holds under each key every record filed under it across all events in feed order, holds the key exactly when such a record exists, and has no empty list |
| Buckets.AllEntriesSnoc | script/script.js:29 | the events' entries come event after event |
| Buckets.WeekEvents.constructor | script/script.js:16 | `weekEvents` starts empty |
| Buckets.WeekEvents.Push | script/script.js:54-60 | the record is appended under its key (created empty when absent); other keys are unchanged |
| Loader.RecurExpansion.constructor | script/script.js:66-69 | a fresh iterator has answered nothing |
| Loader.RecurExpansion.Next | script/script.js:73 | each call returns the next answer of the rule |
| Loader.ProcessInstance | script/script.js:36-61 | the occurrence's record is pushed under its key |
| Loader.EntriesAtSnoc | script/script.js:73-76 | the entries of one more instant are the earlier entries followed by the new one |
| Loader.ExpansionStep | script/script.js:73-76 | one more loop iteration adds exactly the next instant's record to what the earlier iterations pushed |
| Loader.DriveExpansion | script/script.js:71-76 | the capped loop pushes exactly the expansion's records, calls `next()` one more time than it takes occurrences, and ends by an exception exactly when that last call throws |
| Loader.ProcessEvent | script/script.js:30-82 | one event's pushes are its entries, and the event ends processed, ignored or aborted according to its data |
| Loader.FeedStep | script/script.js:29-83 | processing one more event pushes its entries after those of the events before it |
| Loader.FetchAndParse | script/script.js:8-90 | no result when the feed fails to load; otherwise every event's entries filed in feed order, and the week's start for the offset |
| Render.SortByTimeSorted | script/script.js:128 | the sorted list is ordered by time string |
| Render.SortByTimePermutes | script/script.js:128 | the sorted list holds the same records as the original, each as often |
| Render.SortByTimeStable | script/script.js:128 | records with the same time string keep their original order |
| Render.SortByTimeCorrect | script/script.js:128 | the sorted list is ordered by time string, holds the same records, and keeps records with equal time strings in their original order |
| Render.LexReflexive | script/script.js:128 | every time string compares no later than itself |
| Render.InsertMultiset | script/script.js:128 | one insertion step adds exactly one record |
| Render.InsertSorted | script/script.js:128 | one insertion step keeps the list ordered |
| Render.InsertStable | script/script.js:128 | one insertion step keeps equal time strings in their order |
| Render.EventLine | script/script.js:130 | an event line is the start time and an en dash, then the end time and " (", and ends with the duration, ") - " and the summary, with nothing else in it |
| Render.Lines | script/script.js:124-133 | a block without records shows "No Events" alone; otherwise one line per record, the i-th being the event line of the i-th record |
| Render.WrapperClass | script/script.js:144-148 | the class is "current-week" exactly for offset 0, "past-week" exactly for negative offsets and "future-week" exactly for positive ones |
| Render.DaysToRender | script/script.js:96-101 | eight days, the i-th being the start of the week plus i |
| Render.RenderSchedule | script/script.js:92-149 | the blocks are the week's eight day views and the wrapper class matches the offset |
| Render.ShownKeysAreTheWeek | script/script.js:96-108 | the render looks up eight distinct keys, and a day's key is among them exactly when the day is one of the eight |
| Render.OccurrenceFiledUnderItsDay | script/script.js:41-43 | an occurrence is filed under a day's key exactly when it starts on that local day |
| Render.WeekViewShowsItsDay | script/script.js:103-128 | block i is day start+i, flags today, and shows exactly the records filed under its key (as a multiset), sorted by time; it is empty exactly when the key is absent |
| Render.WeekViewKeepsFilingOrder | script/script.js:124-128 | within block i, the records with any given time string appear in the order they were filed under the day's key |
| Navigation.AfterClick | script/script.js:161-178 | "previous" and "next" move the offset by one unless it is at the bound, "current" resets it to 0, and the offset never leaves -3..3 |
| Navigation.ButtonsMatchHandlers | script/script.js:154-155 | a button is disabled exactly when its handler would do nothing, that is at the bound |
| Navigation.ClicksStayInRange | script/script.js:158-178 | no series of clicks takes the offset out of -3..3 |
| Navigation.RepeatedPrevStopsAtBound | script/script.js:161-166 | k clicks on "previous" go back k weeks but never past -3 |
| Navigation.RepeatedNextStopsAtBound | script/script.js:168-173 | k clicks on "next" go forward k weeks but never past 3 |
| Navigation.Schedule.constructor | script/script.js:3 | the page starts at offset 0 |
| Navigation.Schedule.UpdateSchedule | script/script.js:151-156 | the offset is kept; when the feed loads, the week for the offset is rendered, otherwise the previous blocks stay; the button flags always match the offset |
| Navigation.Schedule.PrevWeek | script/script.js:161-166 | the offset moves back one and the page is updated, unless at -3 when nothing changes |
| Navigation.Schedule.NextWeek | script/script.js:168-173 | the offset moves forward one and the page is updated, unless at 3 when nothing changes |
| Navigation.Schedule.CurrentWeek | script/script.js:175-178 | the offset becomes 0 and the page is always updated |

## Left out

- Fetching the feed through the CORS proxy, the ICS text and the calendar library's parsing are not modelled. The outcome of the fetch and parse is the `feed` parameter: `None` when any of them fails, otherwise the events.
- Building each `ICAL.Event` is modelled only by its outcome. `Unreadable` stands for an event whose construction throws.
- The library's recurrence rules are not modelled. The iterator is a parameter that yields an instant, is exhausted or throws at each call.
- An exception thrown inside `processInstance` itself (for example by `toJSDate`) is not modelled. Only the iterator and the event construction can abort an event.
- Time zones and daylight saving are not modelled. The local day of an instant and `toLocaleTimeString` are supplied as functions (`Events.Locale`).
- The second clock reading in `renderSchedule`, used for the "today" highlight, is not modelled. The model uses the same `today` as the loader, so a load that straddles midnight is not captured.
- `localeCompare` is modelled as lexicographic order on code points (Dafny characters are Unicode scalar values). Locale collation rules are not modelled, and neither is the difference from UTF-16 code-unit order, which shows only for characters above U+FFFF.
- The sort reorders the array stored in `weekEvents` in place. The model sorts a copy and leaves the dictionary's lists in push order, so that aliasing is not captured.
- The DOM is modelled as values: element creation, CSS classes other than the wrapper's, and the localized day header (`toLocaleDateString`) are left out.
- `console.warn` and `console.error` are not modelled; each catch path is represented by its outcome (`Events.EventOutcome`, `None`).
- Concurrent updates are not modelled. Each update runs to completion before the next click.
