/** Fixed-width decimal texts: what strftime writes for %d, %m and %Y and what strptime reads back. */
module Decimal {
  import opened Seqs

  /** An ASCII decimal digit. */
  predicate IsDigit(c: char)
  {
    '0' <= c <= '9'
  }

  predicate AllDigits(s: string)
  {
    forall i :: 0 <= i < |s| ==> IsDigit(s[i])
  }

  function DigitChar(n: int): char
    requires 0 <= n <= 9
  {
    (48 + n) as char
  }

  function DigitValue(c: char): int
    requires IsDigit(c)
  {
    c as int - 48
  }

  function Pow10(w: nat): nat
  {
    if w == 0 then 1 else 10 * Pow10(w - 1)
  }

  /** `n` written in exactly `w` digits, zero-padded on the left. */
  function Pad(n: nat, w: nat): (s: string)
    ensures |s| == w && AllDigits(s)
  {
    if w == 0 then [] else Pad(n / 10, w - 1) + [DigitChar(n % 10)]
  }

  /** The number a digit string spells, as `int()` reads it. */
  function DecValue(s: string): (v: nat)
    requires AllDigits(s)
    ensures v < Pow10(|s|)
  {
    if |s| == 0 then 0 else DecValue(s[..|s| - 1]) * 10 + DigitValue(s[|s| - 1])
  }

  /** Reading back a padded number gives the number. */
  lemma {:induction false} PadValue(n: nat, w: nat)
    requires n < Pow10(w)
    ensures DecValue(Pad(n, w)) == n
  {
    if w > 0 {
      var s := Pad(n, w);
      assert s[..w - 1] == Pad(n / 10, w - 1);
      PadValue(n / 10, w - 1);
    }
  }

  /** Padding the value of a digit string to its own width gives the string back. */
  lemma {:induction false} ValuePad(s: string)
    requires AllDigits(s)
    ensures Pad(DecValue(s), |s|) == s
  {
    if |s| > 0 {
      var pre := s[..|s| - 1];
      var v := DecValue(s);
      assert v / 10 == DecValue(pre) && v % 10 == DigitValue(s[|s| - 1]);
      ValuePad(pre);
      assert s == pre + [s[|s| - 1]];
    }
  }

  /** Two numbers padded to the same width compare as texts exactly as they compare as numbers. */
  lemma {:induction false} PadOrder(x: nat, y: nat, w: nat)
    requires x < Pow10(w) && y < Pow10(w)
    ensures TextLess(Pad(x, w), Pad(y, w)) <==> x < y
  {
    if w > 0 {
      var cx, cy := [DigitChar(x % 10)], [DigitChar(y % 10)];
      TextLessConcat(Pad(x / 10, w - 1), cx, Pad(y / 10, w - 1), cy);
      PadOrder(x / 10, y / 10, w - 1);
      PadValue(x / 10, w - 1);
      PadValue(y / 10, w - 1);
      assert TextLess(cx, cy) <==> x % 10 < y % 10;
      LastDigitOrder(x, y);
    }
  }

  /** Numbers compare by everything but their last digit first, then by that digit. */
  lemma LastDigitOrder(x: nat, y: nat)
    ensures x < y <==> x / 10 < y / 10 || (x / 10 == y / 10 && x % 10 < y % 10)
  {
    assert x == 10 * (x / 10) + x % 10 && y == 10 * (y / 10) + y % 10;
  }
}
