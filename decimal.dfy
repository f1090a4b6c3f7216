/** Decimal numerals: Python's `str(n)` for a non-negative `int`, the value a
    string of digits denotes, and the zero padding of the format spec `0{w}d`. */
module Decimal {
  import opened Text

  predicate IsDigit(c: char)
  {
    '0' <= c <= '9'
  }

  predicate IsDigits(s: string)
  {
    forall i :: 0 <= i < |s| ==> IsDigit(s[i])
  }

  function DigitValue(c: char): nat
    requires IsDigit(c)
  {
    c as int - '0' as int
  }

  function DigitChar(d: nat): (c: char)
    requires d < 10
    ensures IsDigit(c) && DigitValue(c) == d
  {
    ('0' as int + d) as char
  }

  function Pow10(k: nat): (r: nat)
    ensures r >= 1
  {
    if k == 0 then 1 else 10 * Pow10(k - 1)
  }

  /** The number denoted by a string of digits, most significant first;
      leading zeros contribute nothing. A string of k digits denotes less
      than 10^k. */
  function Value(s: string): (v: nat)
    requires IsDigits(s)
    ensures v < Pow10(|s|)
  {
    if s == [] then 0
    else
      var d, p := DigitValue(s[0]), Pow10(|s| - 1);
      assert d * p <= 9 * p;
      d * p + Value(s[1..])
  }

  /** `str(n)`: the digits of `n`, most significant first. */
  function DecimalString(n: nat): (s: string)
    ensures 1 <= |s|
  {
    if n < 10 then [DigitChar(n)]
    else DecimalString(n / 10) + [DigitChar(n % 10)]
  }

  /** `format(s, '0{w}')` on a numeral: `s` preceded by as many zeros as make
      it `w` long; a numeral already `w` or longer is left as it is. */
  function ZeroPad(s: string, w: nat): (r: string)
    ensures |r| == if |s| < w then w else |s|
  {
    if |s| >= w then s else seq(w - |s|, _ => '0') + s
  }

  /** Appending a digit multiplies the value by ten and adds the digit. */
  lemma {:induction false} ValueSnoc(s: string, c: char)
    requires IsDigits(s) && IsDigit(c)
    ensures IsDigits(s + [c])
    ensures Value(s + [c]) == 10 * Value(s) + DigitValue(c)
  {
    var t := s + [c];
    assert IsDigits(t);
    if s != [] {
      assert t[0] == s[0] && t[1..] == s[1..] + [c];
      ValueSnoc(s[1..], c);
      assert Value(t) == DigitValue(s[0]) * Pow10(|s|) + Value(s[1..] + [c]);
      assert Pow10(|s|) == 10 * Pow10(|s| - 1);
      ShiftLeadingDigit(DigitValue(s[0]), Pow10(|s| - 1), Value(s[1..]), DigitValue(c));
    }
  }

  /** A step of the proofs about numerals: regrouping a leading digit's place value. */
  lemma ShiftLeadingDigit(d: nat, p: nat, v: nat, c: nat)
    ensures d * (10 * p) + (10 * v + c) == 10 * (d * p + v) + c
  {
  }

  /** `str(n)` is made of digits, has no leading zero unless `n` is 0, and
      reads back as `n`. */
  lemma {:induction false} DecimalRoundTrip(n: nat)
    ensures IsDigits(DecimalString(n))
    ensures DecimalString(n)[0] == '0' ==> n == 0
    ensures Value(DecimalString(n)) == n
  {
    if n >= 10 {
      var s := DecimalString(n / 10);
      DecimalRoundTrip(n / 10);
      ValueSnoc(s, DigitChar(n % 10));
      assert DecimalString(n)[0] == s[0];
    }
  }

  /** A smaller number never needs more digits. */
  lemma {:induction false} DecimalWidthMonotone(i: nat, n: nat)
    requires i <= n
    ensures |DecimalString(i)| <= |DecimalString(n)|
  {
    if i >= 10 {
      DecimalWidthMonotone(i / 10, n / 10);
    }
  }

  /** Leading zeros do not change the value. */
  lemma {:induction false} ZeroPadValue(s: string, w: nat)
    requires IsDigits(s)
    ensures IsDigits(ZeroPad(s, w))
    ensures Value(ZeroPad(s, w)) == Value(s)
  {
    if |s| < w {
      LeadingZeros(w - |s|, s);
    }
  }

  /** Leading zeros keep a numeral a numeral and keep its value. */
  lemma {:induction false} LeadingZeros(k: nat, s: string)
    requires IsDigits(s)
    ensures IsDigits(seq(k, _ => '0') + s)
    ensures Value(seq(k, _ => '0') + s) == Value(s)
  {
    var t := seq(k, _ => '0') + s;
    assert IsDigits(t);
    if k > 0 {
      assert t[0] == '0' && DigitValue(t[0]) == 0;
      assert t[1..] == seq(k - 1, _ => '0') + s;
      LeadingZeros(k - 1, s);
    } else {
      assert t == s;
    }
  }

  /** A larger leading digit outweighs whatever follows it. */
  lemma LeadingDigitDominates(a: nat, b: nat, p: nat, x: nat, y: nat)
    requires b < a && y < p
    ensures b * p + y < a * p + x
  {
    assert (b + 1) * p <= a * p;
  }

  /** Between numerals of the same width, the smaller number sorts first as a
      string. */
  lemma {:induction false} SameWidthOrder(s: string, t: string)
    requires IsDigits(s) && IsDigits(t) && |s| == |t|
    requires Value(s) < Value(t)
    ensures LexLess(s, t)
  {
    assert s != [];
    var p := Pow10(|s| - 1);
    var a, b := DigitValue(s[0]), DigitValue(t[0]);
    assert Value(s) == a * p + Value(s[1..]);
    assert Value(t) == b * p + Value(t[1..]);
    if s[0] == t[0] {
      SameWidthOrder(s[1..], t[1..]);
    } else if a > b {
      LeadingDigitDominates(a, b, p, Value(s[1..]), Value(t[1..]));
    }
  }
}
