/** Character-level helpers the report generators rely on: decimal rendering
    of integers (Python's `str(int)` and the `%d`/`%m`/`%Y` strftime fields)
    and the ASCII part of `str.upper()`. */
module Text {
  import Seqs

  /** The decimal digit character for `d`. */
  function DigitChar(d: nat): (c: char)
    requires d < 10
    ensures '0' <= c <= '9'
  {
    "0123456789"[d]
  }

  predicate IsDigit(c: char) {
    '0' <= c <= '9'
  }

  predicate AllDigits(s: string) {
    forall i :: 0 <= i < |s| ==> IsDigit(s[i])
  }

  /** The value a string of decimal digits denotes; the inverse of `NatToString`. */
  function DigitsValue(s: string): nat
    requires AllDigits(s)
  {
    if |s| == 0 then 0
    else
      assert IsDigit(s[|s| - 1]);
      DigitsValue(s[..|s| - 1]) * 10 + (s[|s| - 1] as int - '0' as int)
  }

  /** Decimal representation of `n` without leading zeros (as Python's `str`). */
  function NatToString(n: nat): (r: string)
    ensures |r| > 0
    ensures AllDigits(r)
    ensures DigitsValue(r) == n
    ensures |r| > 1 ==> r[0] != '0'
  {
    if n < 10 then [DigitChar(n)]
    else
      var front := NatToString(n / 10);
      var r := front + [DigitChar(n % 10)];
      assert r[..|r| - 1] == front;
      r
  }

  /** Python's `str(i)` for an `int`: a minus sign before the magnitude. */
  function IntToString(i: int): (r: string)
    ensures |r| > 0
    ensures i >= 0 ==> r == NatToString(i)
    ensures i < 0 ==> r[0] == '-' && r[1..] == NatToString(-i)
  {
    if i < 0 then "-" + NatToString(-i) else NatToString(i)
  }

  function Pow10(k: nat): nat {
    if k == 0 then 1 else 10 * Pow10(k - 1)
  }

  /** A number below `10^w` has at most `w` decimal digits. */
  lemma {:induction false} NatToStringFits(n: nat, w: nat)
    requires 0 < w && n < Pow10(w)
    ensures |NatToString(n)| <= w
  {
    if n >= 10 {
      assert w != 1;
      assert n / 10 < Pow10(w - 1);
      NatToStringFits(n / 10, w - 1);
    }
  }

  /** Leading zeros do not change the value a digit string denotes. */
  lemma {:induction false} LeadingZerosValue(zeros: string, digits: string)
    requires forall i :: 0 <= i < |zeros| ==> zeros[i] == '0'
    requires AllDigits(digits)
    ensures AllDigits(zeros + digits)
    ensures DigitsValue(zeros + digits) == DigitsValue(digits)
    decreases |zeros| + |digits|
  {
    var s := zeros + digits;
    if |digits| > 0 {
      var front := digits[..|digits| - 1];
      assert s[..|s| - 1] == zeros + front;
      LeadingZerosValue(zeros, front);
    } else if |zeros| > 0 {
      assert s[..|s| - 1] == zeros[..|zeros| - 1] + digits;
      LeadingZerosValue(zeros[..|zeros| - 1], digits);
    }
  }

  /** `n` in decimal, left-padded with zeros to at least `width` characters
      (the `%02d` / `%04d` style fields of strftime and `isoformat`): exactly
      `width` characters when the digits fit, the bare digits otherwise. */
  function ZeroPad(n: nat, width: nat): (r: string)
    ensures |NatToString(n)| < width ==> |r| == width
    ensures |NatToString(n)| >= width ==> r == NatToString(n)
  {
    var digits := NatToString(n);
    if |digits| >= width then digits
    else seq(width - |digits|, _ => '0') + digits
  }

  /** A padded field is a run of zeros followed by the digits of `n`, and
      it reads back as `n`. */
  lemma ZeroPadReadsBack(n: nat, width: nat)
    ensures ZeroPad(n, width)[|ZeroPad(n, width)| - |NatToString(n)|..] == NatToString(n)
    ensures forall i :: 0 <= i < |ZeroPad(n, width)| - |NatToString(n)| ==> ZeroPad(n, width)[i] == '0'
    ensures AllDigits(ZeroPad(n, width)) && DigitsValue(ZeroPad(n, width)) == n
  {
    var digits := NatToString(n);
    if |digits| < width {
      var zeros := seq(width - |digits|, _ => '0');
      assert ZeroPad(n, width) == zeros + digits;
      LeadingZerosValue(zeros, digits);
    }
  }

  /** A field of width `w` holding a number below `10^w` is exactly `w`
      digits that read back as the number. */
  lemma ZeroPadField(n: nat, w: nat)
    requires 0 < w && n < Pow10(w)
    ensures |ZeroPad(n, w)| == w
    ensures AllDigits(ZeroPad(n, w)) && DigitsValue(ZeroPad(n, w)) == n
  {
    NatToStringFits(n, w);
    ZeroPadReadsBack(n, w);
  }

  predicate IsLowerAscii(c: char) {
    'a' <= c <= 'z'
  }

  /** `c.upper()` restricted to ASCII: a lower-case letter becomes the
      capital at the same place in the alphabet, every other character is
      left alone. */
  function UpperChar(c: char): (u: char)
    ensures !IsLowerAscii(u)
    ensures IsLowerAscii(c) ==> 'A' <= u <= 'Z' && u as int - 'A' as int == c as int - 'a' as int
    ensures !IsLowerAscii(c) ==> u == c
  {
    if IsLowerAscii(c) then (c as int - 32) as char else c
  }

  /** `s.upper()` for ASCII text, character by character. */
  function Upper(s: string): (r: string)
    ensures |r| == |s|
    ensures forall i :: 0 <= i < |s| ==> r[i] == UpperChar(s[i])
  {
    if |s| == 0 then ""
    else Upper(s[..|s| - 1]) + [UpperChar(s[|s| - 1])]
  }
}
