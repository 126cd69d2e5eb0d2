/**
 * The JavaScript string operations the schedule relies on: `String(n)` of an
 * integer, `padStart` with a one-character filler, and the comparison of two
 * strings character by character.
 */
module Text {

  predicate IsDigit(c: char) {
    '0' <= c <= '9'
  }

  function DigitChar(n: int): (c: char)
    requires 0 <= n < 10
    ensures IsDigit(c)
  {
    "0123456789"[n]
  }

  function DigitValue(c: char): int {
    c as int - '0' as int
  }

  predicate AllDigits(s: string) {
    forall i :: 0 <= i < |s| ==> IsDigit(s[i])
  }

  /** The decimal digits of a non-negative integer, without leading zeros. */
  function NatToString(n: nat): string {
    if n < 10 then [DigitChar(n)] else NatToString(n / 10) + [DigitChar(n % 10)]
  }

  /** At least one character, all of them digits; one digit below ten, at most two below a hundred. */
  lemma {:induction false} NatToStringShape(n: nat)
    ensures 1 <= |NatToString(n)| && AllDigits(NatToString(n))
    ensures |NatToString(n)| == 1 <==> n < 10
    ensures n < 100 ==> |NatToString(n)| <= 2
  {
    if n >= 10 {
      NatToStringShape(n / 10);
    }
  }

  /** `String(n)` for an integer: a minus sign before the digits of a negative one. */
  function IntToString(n: int): string {
    if n < 0 then "-" + NatToString(-n) else NatToString(n)
  }

  /** The value of a string of decimal digits, leading zeros allowed. */
  function ParseDigits(s: string): int {
    if s == [] then 0 else ParseDigits(s[..|s| - 1]) * 10 + DigitValue(s[|s| - 1])
  }

  function ParseInt(s: string): int {
    if |s| > 0 && s[0] == '-' then -ParseDigits(s[1..]) else ParseDigits(s)
  }

  lemma {:induction false} ParseNatToString(n: nat)
    ensures ParseDigits(NatToString(n)) == n
  {
    if n >= 10 {
      var s := NatToString(n / 10);
      var c := DigitChar(n % 10);
      ParseNatToString(n / 10);
      assert (s + [c])[..|s + [c]| - 1] == s;
      assert DigitValue(c) == n % 10;
    } else {
      assert DigitValue(DigitChar(n)) == n;
    }
  }

  lemma ParseNegativeToString(n: int)
    requires n < 0
    ensures ParseInt(IntToString(n)) == n
  {
    NegativeToString(n);
    ParseNatToString(-n);
    ParseMinus(IntToString(n), NatToString(-n), -n);
  }

  /** A negative number is written as a minus sign before its magnitude. */
  lemma NegativeToString(n: int)
    requires n < 0
    ensures IntToString(n) == "-" + NatToString(-n)
  {
  }

  /** A minus sign in front of digits negates their value. */
  lemma ParseMinus(s: string, digits: string, m: int)
    requires s == "-" + digits && ParseDigits(digits) == m
    ensures ParseInt(s) == -m
  {
    assert s[1..] == digits;
  }

  lemma ParseNonNegativeToString(n: nat)
    ensures ParseInt(IntToString(n)) == n
  {
    var digits := NatToString(n);
    ParseNatToString(n);
    NatToStringShape(n);
    assert IntToString(n) == digits;
    assert IsDigit(digits[0]);
  }

  /** `String(n)` loses nothing: reading it back gives `n`. */
  lemma ParseIntToString(n: int)
    ensures ParseInt(IntToString(n)) == n
  {
    if n < 0 {
      ParseNegativeToString(n);
    } else {
      ParseNonNegativeToString(n);
    }
  }

  lemma IntToStringInjective(a: int, b: int)
    ensures IntToString(a) == IntToString(b) <==> a == b
  {
    ParseIntToString(a);
    ParseIntToString(b);
  }

  /** `s.padStart(width, fill)`: `fill` repeated in front of `s` up to `width` characters. */
  function PadStart(s: string, width: nat, fill: char): string
    decreases width - |s|
  {
    if |s| < width then PadStart([fill] + s, width, fill) else s
  }

  /** The padded string is `width` long (or `s` itself when longer), ends with `s`, and is `fill` before it. */
  lemma {:induction false} PadStartShape(s: string, width: nat, fill: char)
    ensures var r := PadStart(s, width, fill);
      && |r| == (if |s| < width then width else |s|)
      && r[|r| - |s|..] == s
      && forall i :: 0 <= i < |r| - |s| ==> r[i] == fill
    decreases width - |s|
  {
    if |s| < width {
      PadStartShape([fill] + s, width, fill);
      var r := PadStart(s, width, fill);
      assert r[|r| - |s| - 1..] == [fill] + s;
      assert r[|r| - |s|..] == ([fill] + s)[1..];
    }
  }

  /**
   * `a` comes no later than `b` when compared character by character, a
   * proper prefix coming first.
   */
  predicate LexLessEq(a: string, b: string)
    decreases |a|
  {
    |a| == 0 ||
    (|b| > 0 && (a[0] < b[0] || (a[0] == b[0] && LexLessEq(a[1..], b[1..]))))
  }

  lemma {:induction false} LexTotal(a: string, b: string)
    ensures LexLessEq(a, b) || LexLessEq(b, a)
    decreases |a|
  {
    if |a| > 0 && |b| > 0 && a[0] == b[0] {
      LexTotal(a[1..], b[1..]);
    }
  }

  lemma {:induction false} LexAntisymmetric(a: string, b: string)
    requires LexLessEq(a, b) && LexLessEq(b, a)
    ensures a == b
    decreases |a|
  {
    if |a| > 0 {
      LexAntisymmetric(a[1..], b[1..]);
      assert a == [a[0]] + a[1..] && b == [b[0]] + b[1..];
    }
  }

  lemma {:induction false} LexTransitive(a: string, b: string, c: string)
    requires LexLessEq(a, b) && LexLessEq(b, c)
    ensures LexLessEq(a, c)
    decreases |a|
  {
    if |a| > 0 && a[0] == b[0] && b[0] == c[0] {
      LexTransitive(a[1..], b[1..], c[1..]);
    }
  }
}
