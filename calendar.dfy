/**
 * Local calendar days.  A day is a day number counted from 1 January 1970
 * (the day JavaScript's epoch falls on); its calendar date is what the local
 * `Date` getters report: `getFullYear()`, `getMonth() + 1` and `getDate()`.
 * The proleptic Gregorian calendar is defined by succession: the date of day
 * `d + 1` is the day after the date of day `d`, as `Date.setDate` normalises
 * a day of the month that runs past the end of the month.
 */
module Calendar {

  datatype Date = Date(year: int, month: int, day: int)

  predicate IsLeapYear(y: int) {
    y % 4 == 0 && (y % 100 != 0 || y % 400 == 0)
  }

  function DaysInMonth(y: int, m: int): (n: int)
    ensures 28 <= n <= 31
    ensures m == 2 ==> (n == 29 <==> IsLeapYear(y))
  {
    if m == 2 then (if IsLeapYear(y) then 29 else 28)
    else if m == 4 || m == 6 || m == 9 || m == 11 then 30
    else 31
  }

  /** The twelve months of a year add up to 366 days in a leap year and 365 otherwise. */
  lemma YearLength(y: int)
    ensures DaysInMonth(y, 1) + DaysInMonth(y, 2) + DaysInMonth(y, 3) + DaysInMonth(y, 4)
          + DaysInMonth(y, 5) + DaysInMonth(y, 6) + DaysInMonth(y, 7) + DaysInMonth(y, 8)
          + DaysInMonth(y, 9) + DaysInMonth(y, 10) + DaysInMonth(y, 11) + DaysInMonth(y, 12)
         == if IsLeapYear(y) then 366 else 365
  {
  }

  /** A month 1..12 and a day that exists in that month. */
  predicate Valid(c: Date) {
    1 <= c.month <= 12 && 1 <= c.day <= DaysInMonth(c.year, c.month)
  }

  /** Chronological order on dates: by year, then month, then day. */
  predicate Before(a: Date, b: Date) {
    a.year < b.year ||
    (a.year == b.year && (a.month < b.month || (a.month == b.month && a.day < b.day)))
  }

  /** The following calendar day: later, with no valid date in between. */
  function NextDay(c: Date): (r: Date)
    requires Valid(c)
    ensures Valid(r) && Before(c, r)
    ensures forall x :: Valid(x) && Before(c, x) ==> !Before(x, r)
  {
    if c.day < DaysInMonth(c.year, c.month) then Date(c.year, c.month, c.day + 1)
    else if c.month < 12 then Date(c.year, c.month + 1, 1)
    else Date(c.year + 1, 1, 1)
  }

  /** The preceding calendar day: earlier, with no valid date in between. */
  function PrevDay(c: Date): (r: Date)
    requires Valid(c)
    ensures Valid(r) && Before(r, c)
    ensures forall x :: Valid(x) && Before(x, c) ==> !Before(r, x)
  {
    if c.day > 1 then Date(c.year, c.month, c.day - 1)
    else if c.month > 1 then Date(c.year, c.month - 1, DaysInMonth(c.year, c.month - 1))
    else Date(c.year - 1, 12, 31)
  }

  lemma NextDayPrevDayInverse(c: Date)
    requires Valid(c)
    ensures PrevDay(NextDay(c)) == c
    ensures NextDay(PrevDay(c)) == c
  {
  }

  const Epoch: Date := Date(1970, 1, 1)

  /** The calendar date of day number `d`. */
  function DateOfDay(d: int): (c: Date)
    ensures Valid(c)
    decreases if d < 0 then -d else d
  {
    if d == 0 then Epoch
    else if d > 0 then NextDay(DateOfDay(d - 1))
    else PrevDay(DateOfDay(d + 1))
  }

  /** Consecutive day numbers have consecutive dates, before and after the epoch alike. */
  lemma DateOfNextDay(d: int)
    ensures DateOfDay(d + 1) == NextDay(DateOfDay(d))
  {
    if d < 0 {
      NextDayPrevDayInverse(DateOfDay(d + 1));
    }
  }

  lemma {:induction false} DateOfDayIncreasing(a: int, b: int)
    requires a < b
    ensures Before(DateOfDay(a), DateOfDay(b))
    decreases b - a
  {
    DateOfNextDay(b - 1);
    if a < b - 1 {
      DateOfDayIncreasing(a, b - 1);
    }
  }

  /** Two day numbers have the same date exactly when they are the same day. */
  lemma DateOfDayInjective(a: int, b: int)
    ensures DateOfDay(a) == DateOfDay(b) <==> a == b
  {
    if a < b {
      DateOfDayIncreasing(a, b);
    } else if b < a {
      DateOfDayIncreasing(b, a);
    }
  }

  /** `Date.getDay()`: 0 is Sunday; 1 January 1970 was a Thursday. */
  function Weekday(d: int): (w: int)
    ensures 0 <= w < 7
  {
    (d + 4) % 7
  }

  /** Each day is one weekday further on, Saturday wrapping round to Sunday. */
  lemma WeekdayOfNextDay(d: int)
    ensures Weekday(d + 1) == (Weekday(d) + 1) % 7
    ensures Weekday(d + 7) == Weekday(d)
  {
    var q, w := (d + 4) / 7, (d + 4) % 7;
    assert d + 4 == 7 * q + w && 0 <= w < 7;
    if w < 6 {
      assert d + 5 == 7 * q + (w + 1);
    } else {
      assert d + 5 == 7 * (q + 1);
    }
    assert d + 11 == 7 * (q + 1) + w;
  }

  /**
   * The first day of the displayed week: today moved back to its Sunday,
   * then `weekOffset` whole weeks forward (backward when negative).
   */
  function StartOfWeek(today: int, weekOffset: int): (s: int)
    ensures Weekday(s) == 0
    ensures s - 7 * weekOffset <= today < s - 7 * weekOffset + 7
  {
    today - Weekday(today) + 7 * weekOffset
  }

  /** Every week offset moves the start by whole weeks from this week's Sunday. */
  lemma StartOfWeekShift(today: int, weekOffset: int)
    ensures StartOfWeek(today, weekOffset) == StartOfWeek(today, 0) + 7 * weekOffset
    ensures StartOfWeek(today, 0) <= today < StartOfWeek(today, 0) + 7
  {
  }

  /** The start of the week is the only Sunday of its seven days. */
  lemma {:induction false} StartOfWeekUnique(today: int, s: int)
    requires Weekday(s) == 0
    requires s <= today < s + 7
    ensures s == StartOfWeek(today, 0)
  {
    var t := StartOfWeek(today, 0);
    assert (s + 4) % 7 == 0 && (t + 4) % 7 == 0;
    assert -7 < s - t < 7;
  }
}
