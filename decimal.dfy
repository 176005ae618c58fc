/** Decimal rendering of integers, as Python's `str(int)` and the
    `{n:04d}` format specifier produce it, with a parser that reads the
    rendering back. */
module Decimal {

  import opened Wrappers

  predicate IsDigit(c: char) { '0' <= c <= '9' }

  function DigitChar(d: nat): (c: char)
    requires d < 10
    ensures IsDigit(c) && c as int - '0' as int == d
  {
    ['0', '1', '2', '3', '4', '5', '6', '7', '8', '9'][d]
  }

  /** The digits of n, most significant first, without leading zeros
      (except for n == 0, which is "0"). */
  function Digits(n: nat): (s: string)
    ensures |s| >= 1
    ensures forall i :: 0 <= i < |s| ==> IsDigit(s[i])
    ensures n >= 10 ==> s[0] != '0'
    decreases n
  {
    if n < 10 then [DigitChar(n)] else Digits(n / 10) + [DigitChar(n % 10)]
  }

  /** The value of a string of decimal digits. */
  function DigitsValue(s: string): nat
    requires forall i :: 0 <= i < |s| ==> IsDigit(s[i])
  {
    if |s| == 0 then 0
    else DigitsValue(s[..|s| - 1]) * 10 + DigitValue(s[|s| - 1])
  }

  function DigitValue(c: char): (d: nat)
    requires IsDigit(c)
    ensures d < 10
  {
    c as int - '0' as int
  }

  /** `str(i)` for a Python int: an optional minus sign, then the digits. */
  function Render(i: int): (s: string)
    ensures |s| >= 1
  {
    if i < 0 then "-" + Digits(-i) else Digits(i)
  }

  /** Reads back what Render writes: an optional minus sign then digits. */
  function Parse(s: string): Option<int>
  {
    if |s| >= 2 && s[0] == '-' && forall i :: 1 <= i < |s| ==> IsDigit(s[i]) then
      Some(-(DigitsValue(s[1..]) as int))
    else if |s| >= 1 && forall i :: 0 <= i < |s| ==> IsDigit(s[i]) then
      Some(DigitsValue(s) as int)
    else
      None
  }

  /** `f"{n:04d}"`: the digits of n, left-padded with zeros to width 4;
      a wider number is not truncated. */
  function Pad4(n: nat): (s: string)
    ensures |s| == if |Digits(n)| < 4 then 4 else |Digits(n)|
    ensures forall i :: 0 <= i < |s| ==> IsDigit(s[i])
  {
    Zeros(4 - |Digits(n)|) + Digits(n)
  }

  function Zeros(k: int): (s: string)
    ensures |s| == if k < 0 then 0 else k
    ensures forall i :: 0 <= i < |s| ==> s[i] == '0'
    decreases k
  {
    if k <= 0 then "" else "0" + Zeros(k - 1)
  }

  lemma {:induction false} DigitsRoundTrip(n: nat)
    ensures DigitsValue(Digits(n)) == n
    decreases n
  {
    if n >= 10 {
      DigitsRoundTrip(n / 10);
      var s := Digits(n);
      assert s[..|s| - 1] == Digits(n / 10);
    }
  }

  /** Leading zeros do not change the value of a digit string. */
  lemma {:induction false} LeadingZerosValue(z: string, s: string)
    requires forall i :: 0 <= i < |z| ==> z[i] == '0'
    requires forall i :: 0 <= i < |s| ==> IsDigit(s[i])
    ensures forall i :: 0 <= i < |z + s| ==> IsDigit((z + s)[i])
    ensures DigitsValue(z + s) == DigitsValue(s)
    decreases |s|
  {
    var t := z + s;
    if |s| == 0 {
      LeadingZerosAreZero(z);
      assert t == z;
    } else {
      assert t[..|t| - 1] == z + s[..|s| - 1];
      LeadingZerosValue(z, s[..|s| - 1]);
    }
  }

  lemma {:induction false} LeadingZerosAreZero(z: string)
    requires forall i :: 0 <= i < |z| ==> z[i] == '0'
    ensures forall i :: 0 <= i < |z| ==> IsDigit(z[i])
    ensures DigitsValue(z) == 0
    decreases |z|
  {
    if |z| > 0 {
      LeadingZerosAreZero(z[..|z| - 1]);
    }
  }

  /** Parsing the rendering of an integer gives the integer back, so
      `str` on ints is injective. */
  lemma RenderRoundTrip(i: int)
    ensures Parse(Render(i)) == Some(i)
  {
    if i < 0 {
      var n: nat := -i;
      var d := Digits(n);
      assert Render(i) == "-" + d;
      ParseNegative(d);
      DigitsRoundTrip(n);
    } else {
      var n: nat := i;
      ParseDigits(Digits(n));
      DigitsRoundTrip(n);
    }
  }

  lemma ParseNegative(d: string)
    requires |d| >= 1 && forall k :: 0 <= k < |d| ==> IsDigit(d[k])
    ensures Parse("-" + d) == Some(-(DigitsValue(d) as int))
  {
    var s := "-" + d;
    assert s[1..] == d;
    forall k | 1 <= k < |s| ensures IsDigit(s[k]) {
      assert s[k] == d[k - 1];
    }
  }

  lemma ParseDigits(d: string)
    requires |d| >= 1 && forall k :: 0 <= k < |d| ==> IsDigit(d[k])
    ensures Parse(d) == Some(DigitsValue(d) as int)
  {
    assert IsDigit(d[0]);
  }

  /** The zero-padded index reads back as the index, so two different
      frame indices never share a padded name. */
  lemma Pad4RoundTrip(n: nat)
    ensures DigitsValue(Pad4(n)) == n
  {
    LeadingZerosValue(Zeros(4 - |Digits(n)|), Digits(n));
    DigitsRoundTrip(n);
  }

  lemma Pad4Injective(m: nat, n: nat)
    requires Pad4(m) == Pad4(n)
    ensures m == n
  {
    Pad4RoundTrip(m);
    Pad4RoundTrip(n);
  }
}
