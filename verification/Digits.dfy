/** Decimal numbers as the host list code prints and reads them: "%0*lu", strtoul,
    and the arithmetic of leading zeros (`_zero_padded`). */
module Digits {

  predicate IsDigit(c: char) {
    '0' <= c <= '9'
  }

  predicate AllDigits(s: string) {
    forall i :: 0 <= i < |s| ==> IsDigit(s[i])
  }

  function DigitChar(d: nat): (c: char)
    requires d < 10
    ensures IsDigit(c) && DigitValue(c) == d
  {
    ('0' as int + d) as char
  }

  function DigitValue(c: char): (d: nat)
    requires IsDigit(c)
    ensures d < 10
  {
    c as int - '0' as int
  }

  /** "%lu" */
  function Decimal(n: nat): (s: string)
    ensures |s| > 0 && AllDigits(s)
  {
    if n < 10 then [DigitChar(n)] else Decimal(n / 10) + [DigitChar(n % 10)]
  }

  function DigitCount(n: nat): (k: nat)
    ensures k == |Decimal(n)|
  {
    if n < 10 then 1 else DigitCount(n / 10) + 1
  }

  /** Number of leading zeros that pad n to the given width. */
  function Pad(n: nat, width: nat): nat {
    if width > DigitCount(n) then width - DigitCount(n) else 0
  }

  function Zeros(k: nat): (s: string)
    ensures |s| == k && AllDigits(s)
  {
    seq(k, _ => '0')
  }

  /** "%0*lu" */
  function Number(n: nat, width: nat): (s: string)
    ensures |s| == DigitCount(n) + Pad(n, width) && AllDigits(s)
  {
    Zeros(Pad(n, width)) + Decimal(n)
  }

  /** The number a string of digits denotes (strtoul before saturation). */
  function Value(s: string): nat
    requires AllDigits(s)
  {
    if |s| == 0 then 0 else 10 * Value(s[..|s| - 1]) + DigitValue(s[|s| - 1])
  }

  const ULONG_MAX: nat := 0xFFFF_FFFF_FFFF_FFFF

  /** strtoul on a string of digits: it saturates. */
  function StrToUl(s: string): (n: nat)
    requires AllDigits(s)
    ensures Value(s) <= ULONG_MAX ==> n == Value(s)
    ensures n <= ULONG_MAX
  {
    if Value(s) > ULONG_MAX then ULONG_MAX else Value(s)
  }

  /** `_zero_padded`: the loop divides a copy of num until nothing is left. */
  method ZeroPadded(num: nat, width: nat) returns (zeros: nat)
    ensures zeros == Pad(num, width)
  {
    var n: nat, rest: nat := 1, num / 10;
    while rest != 0
      invariant n + (if rest == 0 then 0 else DigitCount(rest)) == DigitCount(num)
    {
      n := n + 1;
      rest := rest / 10;
    }
    zeros := if width > n then width - n else 0;
  }

  lemma {:induction false} DigitCountMonotone(m: nat, n: nat)
    requires m <= n
    ensures DigitCount(m) <= DigitCount(n)
  {
    if n >= 10 {
      if m >= 10 { DigitCountMonotone(m / 10, n / 10); }
    }
  }

  /** The key fact behind every width rewrite: two widths that pad lo the same way pad
      every larger number the same way. */
  lemma PadStable(lo: nat, n: nat, v: nat, w: nat)
    requires lo <= n && Pad(lo, v) == Pad(lo, w)
    ensures Pad(n, v) == Pad(n, w) && Number(n, v) == Number(n, w)
  {
    DigitCountMonotone(lo, n);
  }

  lemma {:induction false} ValueZeros(k: nat)
    ensures Value(Zeros(k)) == 0
  {
    if k > 0 {
      assert Zeros(k)[..k - 1] == Zeros(k - 1);
      ValueZeros(k - 1);
    }
  }

  lemma {:induction false} ValueDecimal(zeros: nat, n: nat)
    ensures Value(Zeros(zeros) + Decimal(n)) == n
  {
    var s := Zeros(zeros) + Decimal(n);
    if n < 10 {
      assert s[..|s| - 1] == Zeros(zeros);
      ValueZeros(zeros);
    } else {
      assert s[..|s| - 1] == Zeros(zeros) + Decimal(n / 10);
      ValueDecimal(zeros, n / 10);
    }
  }

  /** Reading back what was printed gives the number, whatever the padding. */
  lemma ValueNumber(n: nat, width: nat)
    ensures Value(Number(n, width)) == n
  {
    ValueDecimal(Pad(n, width), n);
  }

  lemma NumberAppend(n: nat, d: nat, width: nat)
    requires d < 10 && DigitCount(n) <= width
    ensures Number(10 * n + d, width + 1) == Number(n, width) + [DigitChar(d)]
    ensures DigitCount(10 * n + d) <= width + 1
  {
    var m := 10 * n + d;
    assert m / 10 == n && m % 10 == d;
    if n == 0 {
      assert Decimal(n) == ['0'] && Zeros(width - 1) + ['0'] == Zeros(width);
    }
  }

  /** Printing back what was read, at the width it was written with, gives the text. */
  lemma {:induction false} NumberValue(s: string)
    requires |s| > 0 && AllDigits(s)
    ensures DigitCount(Value(s)) <= |s|
    ensures Number(Value(s), |s|) == s
  {
    var t, c := s[..|s| - 1], s[|s| - 1];
    assert s == t + [c];
    assert DigitChar(DigitValue(c)) == c;
    if |s| > 1 {
      NumberValue(t);
      NumberAppend(Value(t), DigitValue(c), |t|);
    }
  }

  lemma {:induction false} ValueTail(s: string)
    requires |s| > 0 && AllDigits(s)
    ensures Value(s[1..]) <= Value(s)
  {
    var t := s[1..];
    if |t| > 0 {
      assert s[..|s| - 1][1..] == t[..|t| - 1];
      ValueTail(s[..|s| - 1]);
    }
  }
}
