/**
 * The two strings `processInstance` builds from an occurrence: the date key
 * `Y-MM-DD` that names the occurrence's local day, and the duration text
 * `<H>h <M>m`.
 */
module Formatting {
  import opened Wrappers
  import opened Calendar
  import opened Text

  /** The two-digit field `String(n).padStart(2, '0')`. */
  function TwoDigits(n: int): string {
    PadStart(IntToString(n), 2, '0')
  }

  lemma TwoDigitsReadsBack(n: int)
    requires 0 <= n < 100
    ensures |TwoDigits(n)| == 2
    ensures ParseDigits(TwoDigits(n)) == n
  {
    var s := NatToString(n);
    assert IntToString(n) == s;
    ParseNatToString(n);
    if n < 10 {
      var c := DigitChar(n);
      assert s == [c];
      var t := ['0', c];
      assert TwoDigits(n) == t;
      assert t[..1] == ['0'];
      assert ParseDigits(['0']) == 0 by {
        assert ['0'][..0] == [];
      }
      assert ParseDigits(t) == DigitValue(c);
    } else {
      assert |s| == 2;
      assert TwoDigits(n) == s;
    }
  }

  /** The bucket key of a date: the year, `-`, the month padded to two digits, `-`, the day padded to two digits. */
  function DateKey(c: Date): string {
    IntToString(c.year) + "-" + TwoDigits(c.month) + "-" + TwoDigits(c.day)
  }

  /** Reads a date key back into its year, month and day. */
  function ParseDateKey(k: string): Option<Date> {
    if |k| < 7 || k[|k| - 6] != '-' || k[|k| - 3] != '-' then None
    else Some(Date(ParseInt(k[..|k| - 6]), ParseDigits(k[|k| - 5..|k| - 3]), ParseDigits(k[|k| - 2..])))
  }

  lemma IntToStringNonEmpty(n: int)
    ensures |IntToString(n)| >= 1
  {
  }

  lemma SplitKey(y: string, m: string, d: string)
    requires |m| == 2 && |d| == 2
    ensures var k := y + "-" + m + "-" + d;
      |k| == |y| + 6 && k[..|k| - 6] == y && k[|k| - 6] == '-' &&
      k[|k| - 5..|k| - 3] == m && k[|k| - 3] == '-' && k[|k| - 2..] == d
  {
  }

  /** A key made of a non-empty year and two two-character fields reads back field by field. */
  lemma ParseDateKeyOf(y: string, m: string, d: string)
    requires |y| >= 1 && |m| == 2 && |d| == 2
    ensures ParseDateKey(y + "-" + m + "-" + d) == Some(Date(ParseInt(y), ParseDigits(m), ParseDigits(d)))
  {
    SplitKey(y, m, d);
  }

  lemma {:induction false} DateKeyReadsBack(c: Date)
    requires Valid(c)
    ensures ParseDateKey(DateKey(c)) == Some(c)
  {
    var y, m, d := IntToString(c.year), TwoDigits(c.month), TwoDigits(c.day);
    TwoDigitsReadsBack(c.month);
    TwoDigitsReadsBack(c.day);
    ParseIntToString(c.year);
    IntToStringNonEmpty(c.year);
    ParseDateKeyOf(y, m, d);
    assert DateKey(c) == y + "-" + m + "-" + d;
  }

  /** Distinct dates never share a bucket key. */
  lemma DateKeyInjective(a: Date, b: Date)
    requires Valid(a) && Valid(b)
    ensures DateKey(a) == DateKey(b) <==> a == b
  {
    DateKeyReadsBack(a);
    DateKeyReadsBack(b);
  }

  /** The bucket key of a local day number. */
  function DayKey(d: int): string {
    DateKey(DateOfDay(d))
  }

  /** Two days share a bucket key exactly when they are the same day. */
  lemma DayKeyInjective(a: int, b: int)
    ensures DayKey(a) == DayKey(b) <==> a == b
  {
    DateKeyInjective(DateOfDay(a), DateOfDay(b));
    DateOfDayInjective(a, b);
  }

  /**
   * JavaScript's `minutes % 60`: the remainder takes the sign of the
   * dividend, and the dividend minus it is a multiple of 60.
   */
  function JsRem60(a: int): (r: int)
    ensures a >= 0 ==> r == a % 60
    ensures a < 0 ==> -60 < r <= 0 && (a - r) % 60 == 0
  {
    if a >= 0 then a % 60 else -((-a) % 60)
  }

  datatype DurationParts = DurationParts(hours: int, minutes: int)

  /**
   * `Math.floor(ms / 60000)` whole minutes, split into `Math.floor(minutes / 60)`
   * hours and `minutes % 60` minutes.
   */
  function PartsOf(ms: int): DurationParts {
    var total := ms / 60000;
    DurationParts(total / 60, JsRem60(total))
  }

  /** A non-negative duration splits into whole hours and 0..59 minutes that add up to its whole minutes. */
  lemma PartsOfNonNegative(ms: int)
    requires ms >= 0
    ensures PartsOf(ms).hours >= 0
    ensures 0 <= PartsOf(ms).minutes < 60
    ensures PartsOf(ms).hours * 60 + PartsOf(ms).minutes == ms / 60000
  {
  }

  lemma MultipleOf60(k: int)
    ensures (60 * k) / 60 == k && (60 * k) % 60 == 0
  {
  }

  /** A whole number of hours, of either sign, has no minutes part. */
  lemma PartsOfWholeHours(ms: int)
    requires (ms / 60000) % 60 == 0
    ensures PartsOf(ms).minutes == 0
    ensures PartsOf(ms).hours * 60 == ms / 60000
  {
    var t := ms / 60000;
    var q := t / 60;
    assert t == 60 * q;
    MultipleOf60(-q);
  }

  /**
   * A negative duration that is not a whole number of hours: both parts come
   * out negative and together read one hour less than the duration's minutes.
   */
  lemma {:induction false} PartsOfNegative(ms: int)
    requires ms < 0 && (ms / 60000) % 60 != 0
    ensures PartsOf(ms).hours < 0
    ensures -60 < PartsOf(ms).minutes < 0
    ensures PartsOf(ms).hours * 60 + PartsOf(ms).minutes == ms / 60000 - 60
  {
    var t := ms / 60000;
    var q, r := (-t) / 60, (-t) % 60;
    assert -t == 60 * q + r && 0 < r < 60;
    assert t == 60 * (-q - 1) + (60 - r);
    assert t / 60 == -q - 1;
  }

  /** The duration text `${hours}h ${minutes}m`; both parts always appear. */
  function DurationText(ms: int): string {
    var p := PartsOf(ms);
    IntToString(p.hours) + "h " + IntToString(p.minutes) + "m"
  }

  /** The index of the first `c` in `s`, or `|s|` when there is none. */
  function IndexOf(s: string, c: char): (i: nat)
    ensures i <= |s|
    ensures i < |s| ==> s[i] == c
    ensures forall j :: 0 <= j < i ==> s[j] != c
  {
    if s == [] then 0 else if s[0] == c then 0 else 1 + IndexOf(s[1..], c)
  }

  /** Reads a duration text back as a number of minutes. */
  function ParseDuration(s: string): Option<int> {
    var i := IndexOf(s, 'h');
    if i + 3 > |s| || s[i + 1] != ' ' || s[|s| - 1] != 'm' then None
    else Some(ParseInt(s[..i]) * 60 + ParseInt(s[i + 2..|s| - 1]))
  }

  lemma IntToStringHasNo(n: int, c: char)
    requires !IsDigit(c) && c != '-'
    ensures forall j :: 0 <= j < |IntToString(n)| ==> IntToString(n)[j] != c
  {
    if n < 0 {
      var s := NatToString(-n);
      NatToStringShape(-n);
      assert IntToString(n) == ['-'] + s;
    } else {
      NatToStringShape(n);
    }
  }

  lemma {:induction false} ParseDurationOf(h: string, m: string)
    requires |h| >= 1
    requires forall j :: 0 <= j < |h| ==> h[j] != 'h'
    ensures ParseDuration(h + "h " + m + "m") == Some(ParseInt(h) * 60 + ParseInt(m))
  {
    var s := h + "h " + m + "m";
    assert s[|h|] == 'h' && s[|h| + 1] == ' ' && s[|s| - 1] == 'm';
    assert forall j :: 0 <= j < |h| ==> s[j] == h[j];
    assert IndexOf(s, 'h') == |h|;
    assert s[..|h|] == h;
    assert s[|h| + 2..|s| - 1] == m;
  }

  /** The duration text reads back as its hours times sixty plus its minutes. */
  lemma DurationTextValue(ms: int)
    ensures ParseDuration(DurationText(ms)) == Some(PartsOf(ms).hours * 60 + PartsOf(ms).minutes)
  {
    var p := PartsOf(ms);
    var h, m := IntToString(p.hours), IntToString(p.minutes);
    IntToStringHasNo(p.hours, 'h');
    IntToStringNonEmpty(p.hours);
    ParseDurationOf(h, m);
    ParseIntToString(p.hours);
    ParseIntToString(p.minutes);
  }

  /**
   * The duration text stands for the whole minutes of a non-negative
   * duration or of a whole number of hours; for any other negative duration
   * it stands for one hour less.
   */
  lemma DurationTextReadsBack(ms: int)
    ensures ms >= 0 || (ms / 60000) % 60 == 0 ==>
      ParseDuration(DurationText(ms)) == Some(ms / 60000)
    ensures ms < 0 && (ms / 60000) % 60 != 0 ==>
      ParseDuration(DurationText(ms)) == Some(ms / 60000 - 60)
  {
    DurationTextValue(ms);
    if ms >= 0 {
      PartsOfNonNegative(ms);
    } else if (ms / 60000) % 60 == 0 {
      PartsOfWholeHours(ms);
    } else {
      PartsOfNegative(ms);
    }
  }
}
