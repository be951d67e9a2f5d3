/** Decimal numerals: zero-padded to a width, and plain. */
module Decimal {
  import opened Lexicographic

  function Pow10(n: nat): (p: nat)
    ensures p > 0
  {
    if n == 0 then 1 else 10 * Pow10(n - 1)
  }

  function Digit(d: int): char
    requires 0 <= d < 10
  {
    '0' + d as char
  }

  predicate IsDigit(c: char) {
    '0' <= c <= '9'
  }

  function DigitValue(c: char): (d: int)
    requires IsDigit(c)
    ensures 0 <= d < 10
  {
    (c - '0') as int
  }

  /** `n` in exactly `width` decimal digits. */
  function Pad(n: int, width: nat): (s: string)
    requires 0 <= n < Pow10(width)
    ensures |s| == width
  {
    if width == 0 then "" else Pad(n / 10, width - 1) + [Digit(n % 10)]
  }

  predicate AllDigits(s: string) {
    forall i :: 0 <= i < |s| ==> IsDigit(s[i])
  }

  function Number(s: string): (n: int)
    requires AllDigits(s)
    ensures 0 <= n
  {
    if s == "" then 0 else 10 * Number(s[..|s| - 1]) + DigitValue(s[|s| - 1])
  }

  lemma {:induction false} NumberOfPad(n: int, width: nat)
    requires 0 <= n < Pow10(width)
    ensures AllDigits(Pad(n, width)) && Number(Pad(n, width)) == n
  {
    if width > 0 {
      NumberOfPad(n / 10, width - 1);
      assert Pad(n, width)[..width - 1] == Pad(n / 10, width - 1);
    }
  }

  /** The last digit decides between numerals that agree before it. */
  lemma LastDigitOrder(a: string, b: string, x: int, y: int)
    requires |a| == |b| && 0 <= x < 10 && 0 <= y < 10
    ensures LexLess(a + [Digit(x)], b + [Digit(y)]) <==> LexLess(a, b) || (a == b && x < y)
  {
    if a == b {
      LexLessTotal(a, b);
      LexLessCommonPrefix(a, [Digit(x)], [Digit(y)]);
    } else {
      LexLessDifferentHeads(a, b, [Digit(x)], [Digit(y)]);
    }
  }

  lemma LastDigitDecides(m: int, n: int)
    ensures m < n <==> m / 10 < n / 10 || (m / 10 == n / 10 && m % 10 < n % 10)
  {
    assert m == 10 * (m / 10) + m % 10 && n == 10 * (n / 10) + n % 10;
  }

  /** Equal-width numerals compare as the numbers they denote. */
  lemma {:induction false} PadOrder(m: int, n: int, width: nat)
    requires 0 <= m < Pow10(width) && 0 <= n < Pow10(width)
    ensures LexLess(Pad(m, width), Pad(n, width)) <==> m < n
    ensures Pad(m, width) == Pad(n, width) <==> m == n
  {
    NumberOfPad(m, width);
    NumberOfPad(n, width);
    if width > 0 {
      hide LexLess, Number;
      PadOrder(m / 10, n / 10, width - 1);
      LastDigitOrder(Pad(m / 10, width - 1), Pad(n / 10, width - 1), m % 10, n % 10);
      LastDigitDecides(m, n);
    }
  }
}
