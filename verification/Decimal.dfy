/** Canonical decimal text of natural numbers and its reading. */
module Decimal {

  predicate IsDigit(c: char) {
    '0' <= c <= '9'
  }

  function DigitChar(d: nat): (c: char)
    requires d < 10
    ensures IsDigit(c) && DigitValue(c) == d
  {
    '0' + d as char
  }

  function DigitValue(c: char): (d: nat)
    requires IsDigit(c)
    ensures d < 10
  {
    c as int - '0' as int
  }

  predicate AllDigits(s: string) {
    forall i :: 0 <= i < |s| ==> IsDigit(s[i])
  }

  /** The decimal text of n without leading zeros ("0" for zero). */
  function Text(n: nat): (s: string)
    ensures |s| > 0 && AllDigits(s)
  {
    if n < 10 then [DigitChar(n)] else Text(n / 10) + [DigitChar(n % 10)]
  }

  /** The decimal text of an integer, with a '-' for negative ones. */
  function IntText(i: int): (s: string)
    ensures |s| > 0
  {
    if i < 0 then "-" + Text(-i) else Text(i)
  }

  /** The number a digit string stands for; leading zeros are allowed. */
  function Value(s: string): nat
    requires AllDigits(s)
  {
    if s == [] then 0 else Value(s[..|s| - 1]) * 10 + DigitValue(s[|s| - 1])
  }

  predicate Canonical(s: string) {
    |s| > 0 && AllDigits(s) && (|s| > 1 ==> s[0] != '0')
  }

  function Pow10(k: nat): (p: nat)
    ensures p > 0
  {
    if k == 0 then 1 else 10 * Pow10(k - 1)
  }

  const POWERS_OF_TEN: seq<nat> := [
    1, 10, 100, 1_000, 10_000, 100_000, 1_000_000, 10_000_000, 100_000_000, 1_000_000_000,
    10_000_000_000, 100_000_000_000, 1_000_000_000_000, 10_000_000_000_000, 100_000_000_000_000,
    1_000_000_000_000_000, 10_000_000_000_000_000, 100_000_000_000_000_000, 1_000_000_000_000_000_000,
    10_000_000_000_000_000_000, 100_000_000_000_000_000_000]

  lemma {:induction false} PowerTable(k: nat)
    requires k <= 20
    ensures Pow10(k) == POWERS_OF_TEN[k]
  {
    if k > 0 {
      PowerTable(k - 1);
      assert POWERS_OF_TEN[k] == 10 * POWERS_OF_TEN[k - 1];
    }
  }

  lemma Pow10Monotone(a: nat, b: nat)
    requires a <= b
    ensures Pow10(a) <= Pow10(b)
    decreases b
  {
    if a < b {
      Pow10Monotone(a, b - 1);
    }
  }

  lemma {:induction false} Pow10Add(a: nat, b: nat)
    ensures Pow10(a + b) == Pow10(a) * Pow10(b)
    decreases a
  {
    hide Pow10;
    if a == 0 {
      Pow10Zero();
    } else {
      Pow10Add(a - 1, b);
      Pow10Next(a - 1);
      Pow10Next(a - 1 + b);
      TimesGroups(10, Pow10(a - 1), Pow10(b));
    }
  }

  lemma Pow10Zero()
    ensures Pow10(0) == 1
  {
  }

  lemma Pow10Next(k: nat)
    ensures Pow10(k + 1) == 10 * Pow10(k)
  {
  }

  lemma TimesGroups(x: nat, y: nat, z: nat)
    ensures (x * y) * z == x * (y * z)
  {
  }

  lemma {:induction false} ValueOfText(n: nat)
    ensures Value(Text(n)) == n
  {
    if n < 10 {
      assert Text(n)[..0] == "";
    } else {
      ValueOfText(n / 10);
      var t := Text(n);
      assert t[..|t| - 1] == Text(n / 10);
    }
  }

  /** Text is canonical, and reading back is the only canonical text of its value. */
  lemma {:induction false} TextIsCanonical(n: nat)
    ensures Canonical(Text(n))
    ensures n > 0 ==> Text(n)[0] != '0'
  {
    if n >= 10 {
      TextIsCanonical(n / 10);
    }
  }

  lemma {:induction false} TextOfValue(s: string)
    requires Canonical(s)
    ensures Text(Value(s)) == s
    ensures Value(s) > 0 || s == "0"
  {
    hide Value, Text, DigitChar;
    var k := |s| - 1;
    var h, d := s[..k], DigitValue(s[k]);
    assert s == h + [s[k]];
    ValueSnoc(h, s[k]);
    DigitOfChar(s[k]);
    if k == 0 {
      EmptyValue();
      TextOfDigit(d);
    } else {
      assert h[0] == s[0];
      TextOfValue(h);
      TextOfSum(Value(h), d);
    }
  }

  lemma DigitOfChar(c: char)
    requires IsDigit(c)
    ensures DigitChar(DigitValue(c)) == c
  {
  }

  lemma TextOfDigit(d: nat)
    requires d < 10
    ensures Text(d) == [DigitChar(d)] && (d > 0 || Text(d) == "0")
  {
  }

  lemma TextOfSum(n: nat, d: nat)
    requires n > 0 && d < 10
    ensures Text(n * 10 + d) == Text(n) + [DigitChar(d)]
  {
  }

  /** A digit string of length k stands for a number below 10^k. */
  lemma {:induction false} ValueBound(s: string)
    requires AllDigits(s)
    ensures Value(s) < Pow10(|s|)
  {
    if s != [] {
      ValueBound(s[..|s| - 1]);
    }
  }

  lemma {:induction false} TextLengthLower(n: nat)
    ensures n == 0 || n >= Pow10(|Text(n)| - 1)
  {
    if n >= 10 {
      TextLengthLower(n / 10);
      assert |Text(n)| == |Text(n / 10)| + 1;
      assert Pow10(|Text(n)| - 1) == 10 * Pow10(|Text(n / 10)| - 1);
    }
  }

  /** The text of n has at most k digits exactly when n < 10^k. */
  lemma TextLength(n: nat, k: nat)
    requires k > 0
    ensures |Text(n)| <= k <==> n < Pow10(k)
  {
    ValueOfText(n);
    ValueBound(Text(n));
    TextLengthLower(n);
    if |Text(n)| <= k {
      Pow10Monotone(|Text(n)|, k);
    } else {
      Pow10Monotone(k, |Text(n)| - 1);
    }
  }

  /** Reading a concatenation. */
  lemma {:induction false} ValueConcat(a: string, b: string)
    requires AllDigits(a) && AllDigits(b)
    ensures AllDigits(a + b)
    ensures Value(a + b) == Value(a) * Pow10(|b|) + Value(b)
    decreases |b|
  {
    hide Value, Pow10;
    if b == [] {
      assert a + b == a;
      EmptyValue();
      Pow10Zero();
    } else {
      var h, l := b[..|b| - 1], b[|b| - 1];
      ValueConcat(a, h);
      ValueSnoc(a + h, l);
      ValueSnoc(h, l);
      assert h + [l] == b;
      assert a + b == a + h + [l];
      Pow10Next(|h|);
      TimesTen(Value(a), Pow10(|h|), Value(h));
    }
  }

  lemma EmptyValue()
    ensures Value("") == 0
  {
  }

  lemma ValueSnoc(s: string, c: char)
    requires AllDigits(s) && IsDigit(c)
    ensures AllDigits(s + [c]) && Value(s + [c]) == Value(s) * 10 + DigitValue(c)
  {
    assert (s + [c])[..|s|] == s;
  }

  lemma TimesTen(x: nat, p: nat, y: nat)
    ensures (x * p + y) * 10 == x * (10 * p) + y * 10
  {
  }
}
