/**
 Digit generation of the Grisu2 printer (include/co/__/dtoa_milo.h). A DiyFp with
 significand f and exponent e stands for f * 2^e; all uint64 arithmetic is checked
 to stay below 2^64.
 */
module Grisu {
  import opened Common
  import opened Decimal

  function Pow2(n: nat): (p: nat)
    ensures p > 0
  {
    if n == 0 then 1 else 2 * Pow2(n - 1)
  }

  lemma {:induction false} Pow2Monotone(a: nat, b: nat)
    requires a <= b
    ensures Pow2(a) <= Pow2(b)
    decreases b
  {
    if a < b {
      Pow2Monotone(a, b - 1);
    }
  }

  lemma Pow2Four(a: nat)
    ensures Pow2(a + 4) == 16 * Pow2(a)
  {
    assert Pow2(a + 4) == 2 * Pow2(a + 3) && Pow2(a + 3) == 2 * Pow2(a + 2) && Pow2(a + 2) == 2 * Pow2(a + 1);
  }

  lemma {:induction false} Pow2Table(k: nat)
    requires k <= 15
    ensures Pow2(4 * k) == POWERS_OF_16[k]
  {
    if k > 0 {
      Pow2Table(k - 1);
      Pow2Four(4 * (k - 1));
    }
  }

  const POWERS_OF_16: seq<nat> := [
    0x1, 0x10, 0x100, 0x1000, 0x1_0000, 0x10_0000, 0x100_0000, 0x1000_0000,
    0x1_0000_0000, 0x10_0000_0000, 0x100_0000_0000, 0x1000_0000_0000,
    0x1_0000_0000_0000, 0x10_0000_0000_0000, 0x100_0000_0000_0000, 0x1000_0000_0000_0000]

  lemma Pow2Range(k: nat)
    requires 32 <= k <= 60
    ensures 0x1_0000_0000 <= Pow2(k) <= 0x1000_0000_0000_0000
  {
    hide Pow2;
    Pow2Monotone(32, k);
    Pow2Monotone(k, 60);
    Pow2Table(8);
    Pow2Table(15);
  }

  lemma Regroup(a: int, b: int, c: int)
    ensures (a * b) * c == a * (b * c)
  {
  }

  /** The loop guard of GrisuRound: one unit less is still allowed and closer to the value. */
  predicate Closer(rest: int, delta: uint64, tenKappa: uint64, wpW: uint64) {
    && rest < wpW
    && delta - rest >= tenKappa
    && (rest + tenKappa < wpW || wpW - rest > rest + tenKappa - wpW)
  }

  /**
   Lowers the last digit while that brings it closer. The digit never drops below '0',
   because the digit with its remainder reaches delta.
   */
  method GrisuRound(buffer: array<char>, len: nat, delta: uint64, rest0: uint64, tenKappa: uint64, wpW: uint64)
    returns (ghost m: nat)
    requires 0 < len <= buffer.Length && IsDigit(buffer[len - 1])
    requires tenKappa > 0 && rest0 <= delta <= DigitValue(buffer[len - 1]) * tenKappa + rest0
    modifies buffer
    ensures m <= old(DigitValue(buffer[len - 1]))
    ensures buffer[len - 1] == DigitChar(old(DigitValue(buffer[len - 1])) - m)
    ensures forall i :: 0 <= i < buffer.Length && i != len - 1 ==> buffer[i] == old(buffer[i])
    ensures rest0 + m * tenKappa <= delta
    ensures !Closer(rest0 + m * tenKappa, delta, tenKappa, wpW)
    ensures forall j :: 0 <= j < m ==> Closer(rest0 + j * tenKappa, delta, tenKappa, wpW)
  {
    ghost var d := DigitValue(buffer[len - 1]);
    var rest: uint64 := rest0;
    m := 0;
    while Closer(rest, delta, tenKappa, wpW)
      invariant m <= d && rest == rest0 + m * tenKappa <= delta
      invariant buffer[len - 1] == DigitChar(d - m)
      invariant forall i :: 0 <= i < buffer.Length && i != len - 1 ==> buffer[i] == old(buffer[i])
      invariant forall j :: 0 <= j < m ==> Closer(rest0 + j * tenKappa, delta, tenKappa, wpW)
      decreases delta - rest
    {
      StillRoom(d, m, tenKappa, rest0, delta);
      buffer[len - 1] := (buffer[len - 1] as int - 1) as char;
      rest := rest + tenKappa;
      m := m + 1;
    }
  }

  lemma StillRoom(d: nat, m: nat, t: nat, rest: nat, delta: nat)
    requires t > 0 && m <= d && rest + m * t + t <= delta <= d * t + rest
    ensures m + 1 <= d
    ensures rest + (m + 1) * t == rest + m * t + t
  {
    if m == d {
      assert false;
    }
  }

  method CountDecimalDigit32(n: uint32) returns (k: nat)
    ensures 1 <= k <= 10 && n < Pow10(k) && (n > 0 ==> n >= Pow10(k - 1))
    ensures k == |Text(n)|
  {
    hide Text, Pow10;
    if n < 10 { k := 1; }
    else if n < 100 { k := 2; }
    else if n < 1000 { k := 3; }
    else if n < 10000 { k := 4; }
    else if n < 100000 { k := 5; }
    else if n < 1000000 { k := 6; }
    else if n < 10000000 { k := 7; }
    else if n < 100000000 { k := 8; }
    else if n < 1000000000 { k := 9; }
    else { k := 10; }
    PowerTable(k);
    PowerTable(k - 1);
    TextLength(n, k);
    if k > 1 {
      TextLength(n, k - 1);
    }
  }

  /** The decimal D * 10^kappa lies in [(f - delta) / one, f / one], cross-multiplied. */
  ghost predicate InInterval(D: nat, kappa: int, f: nat, delta: nat, one: nat) {
    if kappa >= 0 then f - delta <= D * Pow10(kappa) * one <= f
    else (f - delta) * Pow10(-kappa) <= D * one <= f * Pow10(-kappa)
  }

  /** No decimal with exponent kappa lies in the interval, its lower end left out. */
  ghost predicate NoneAt(kappa: int, f: nat, delta: nat, one: nat) {
    forall D: nat :: if kappa >= 0 then !(f - delta < D * Pow10(kappa) * one <= f)
                     else !((f - delta) * Pow10(-kappa) < D * one <= f * Pow10(-kappa))
  }

  function Abs(x: int): nat {
    if x < 0 then -x else x
  }

  /** How far the decimal n * 10^kappa is from W / one, cross-multiplied. */
  function Gap(n: nat, kappa: int, W: int, one: nat): nat {
    if kappa >= 0 then Abs(n * Pow10(kappa) * one - W) else Abs(n * one - W * Pow10(-kappa))
  }

  /** No decimal with exponent kappa in the interval is nearer to W / one than D * 10^kappa. */
  ghost predicate Nearest(D: nat, kappa: int, f: nat, delta: nat, one: nat, W: int) {
    forall n: nat :: InInterval(n, kappa, f, delta, one) ==> Gap(D, kappa, W, one) <= Gap(n, kappa, W, one)
  }

  /** What GrisuRound leaves: m units were taken back, each of them brought it closer, and one more would not. */
  ghost predicate Rounded(m: nat, rest: nat, delta: uint64, unit: uint64, wpW: uint64) {
    && rest + m * unit <= delta && !Closer(rest + m * unit, delta, unit, wpW)
    && forall j :: 0 <= j < m ==> Closer(rest + j * unit, delta, unit, wpW)
  }

  /** Every unit taken back brought the value closer. */
  lemma {:induction false} EachCloser(j: nat, m: nat, rest: nat, delta: uint64, unit: uint64, wpW: uint64)
    requires j <= m && forall i :: 0 <= i < m ==> Closer(rest + i * unit, delta, unit, wpW)
    ensures Abs(wpW - (rest + m * unit)) <= Abs(wpW - (rest + j * unit))
    decreases m
  {
    if j < m {
      EachCloser(j, m - 1, rest, delta, unit, wpW);
      assert Closer(rest + (m - 1) * unit, delta, unit, wpW);
      Distribute(m - 1, 1, unit);
    }
  }

  /** No other number of units within delta is better. */
  lemma BestUnits(m: nat, j: nat, rest: nat, delta: uint64, unit: uint64, wpW: uint64)
    requires Rounded(m, rest, delta, unit, wpW) && rest + j * unit <= delta
    ensures Abs(wpW - (rest + m * unit)) <= Abs(wpW - (rest + j * unit))
  {
    if j <= m {
      EachCloser(j, m, rest, delta, unit, wpW);
    } else {
      Ordered1(m + 1, j, unit);
      Distribute(m, 1, unit);
    }
  }

  /** The same for the decimals: whole = D * unit + rest stands for the upper end of the interval. */
  lemma NearestUnits(D: nat, m: nat, n: nat, whole: nat, rest: nat, delta: uint64, unit: uint64, wpW: uint64)
    requires whole == D * unit + rest && rest < unit && m <= D && Rounded(m, rest, delta, unit, wpW)
    requires whole - delta <= n * unit <= whole
    ensures Abs((D - m) * unit - (whole - wpW)) <= Abs(n * unit - (whole - wpW))
  {
    hide Rounded;
    if n > D {
      Ordered1(D + 1, n, unit);
      Distribute(D, 1, unit);
    } else {
      Distribute(D - n, n, unit);
      Distribute(D - m, m, unit);
      BestUnits(m, D - n, rest, delta, unit, wpW);
    }
  }

  lemma IntegerNearest(D: nat, m: nat, kappa: nat, p1: nat, p2: nat, f: nat, delta: uint64, one: nat, unit: uint64, wpW: uint64)
    requires IntegerPhase(D, kappa, p1, p2, f, one) && m <= D && unit == Pow10(kappa) * one && delta <= f
    requires Rounded(m, p1 * one + p2, delta, unit, wpW)
    ensures Nearest(D - m, kappa, f, delta, one, f - wpW)
  {
    hide Pow10, Rounded;
    var q := Pow10(kappa);
    Distribute(D * q, p1, one);
    Regroup(D, q, one);
    Regroup(D - m, q, one);
    Ordered1(p1 + 1, q, one);
    Distribute(p1, 1, one);
    forall n: nat | InInterval(n, kappa, f, delta, one)
      ensures Gap(D - m, kappa, f - wpW, one) <= Gap(n, kappa, f - wpW, one)
    {
      Regroup(n, q, one);
      NearestUnits(D, m, n, f, p1 * one + p2, delta, unit, wpW);
    }
  }

  lemma FractionNearest(D: nat, m: nat, j: nat, p2: nat, f: nat, delta: nat, scaled: uint64, one: uint64, wpW: nat, scaledW: uint64)
    requires j > 0 && FractionPhase(D, Pow10(j), p2, f, one) && m <= D && delta <= f
    requires scaled == delta * Pow10(j) && scaledW == wpW * Pow10(j)
    requires Rounded(m, p2, scaled, one, scaledW)
    ensures Nearest(D - m, -(j as int), f, delta, one, f - wpW)
  {
    hide Pow10, Rounded;
    var S, kappa := Pow10(j), -(j as int);
    Distribute(f - delta, delta, S);
    Distribute(f - wpW, wpW, S);
    forall n: nat | InInterval(n, kappa, f, delta, one)
      ensures Gap(D - m, kappa, f - wpW, one) <= Gap(n, kappa, f - wpW, one)
    {
      NearestUnits(D, m, n, f * S, p2, scaled, one, scaledW);
    }
  }

  /** The state of the integer phase: D digits out, p1 and p2 left. */
  ghost predicate IntegerPhase(D: nat, kappa: nat, p1: nat, p2: nat, f: nat, one: nat) {
    && f == (D * Pow10(kappa) + p1) * one + p2
    && p1 < Pow10(kappa) && p2 < one
  }

  /** Quotient and remainder. */
  method Divide(n: uint64, m: uint64) returns (q: uint64, r: uint64)
    requires m > 0
    ensures n == q * m + r && r < m
  {
    QuotientFits(n, m);
    q, r := n / m, n % m;
  }

  lemma QuotientFits(n: nat, m: nat)
    requires m > 0
    ensures 0 <= n / m <= n
  {
    assert n == n / m * m + n % m;
    Ordered1(1, m, n / m);
  }

  /** Taking the digit d = p1 / 10^(kappa-1) off the integer part. */
  lemma IntegerStep(D: nat, kappa: nat, p1: nat, p2: nat, f: nat, one: nat, q: nat, d: nat, r: nat)
    requires kappa > 0 && IntegerPhase(D, kappa, p1, p2, f, one) && q == Pow10(kappa - 1) && p1 == d * q + r && r < q
    ensures d < 10
    ensures IntegerPhase(D * 10 + d, kappa - 1, r, p2, f, one)
    ensures p1 * one + p2 == d * (q * one) + (r * one + p2)
  {
    hide Pow10;
    TenTimes(kappa);
    Ordered1(10, d, q);
    MoveDigit(D, q, d, r);
    Distribute(d * q, r, one);
    Regroup(d, q, one);
  }

  lemma TenTimes(kappa: nat)
    requires kappa > 0
    ensures Pow10(kappa) == 10 * Pow10(kappa - 1)
  {
  }

  lemma MoveDigit(D: nat, q: nat, d: nat, r: nat)
    ensures D * (10 * q) + (d * q + r) == (D * 10 + d) * q + r
  {
    Regroup(D, 10, q);
    Distribute(D * 10, d, q);
  }

  lemma Ordered1(a: nat, b: nat, q: nat)
    ensures a <= b ==> a * q <= b * q
  {
  }

  lemma Distribute(a: int, b: int, c: int)
    ensures (a + b) * c == a * c + b * c
  {
  }

  /** What the interval says once a remainder rest is cut off and m units are taken back. */
  lemma IntegerResult(D: nat, m: nat, kappa: nat, p1: nat, p2: nat, f: nat, delta: nat, one: nat)
    requires IntegerPhase(D, kappa, p1, p2, f, one) && m <= D
    requires p1 * one + p2 + m * (Pow10(kappa) * one) <= delta <= f
    ensures InInterval(D - m, kappa, f, delta, one)
  {
    hide Pow10, IntegerPhase, InInterval;
    var q := Pow10(kappa);
    PhaseIs(D, kappa, p1, p2, f, one);
    PhaseSum(D, m, q, p1, p2, f, one);
    Between(f, (D - m) * q * one, p1 * one + p2 + m * (q * one), delta);
    InIntervalAt(D - m, kappa, f, delta, one);
  }

  lemma PhaseIs(D: nat, kappa: nat, p1: nat, p2: nat, f: nat, one: nat)
    requires IntegerPhase(D, kappa, p1, p2, f, one)
    ensures f == (D * Pow10(kappa) + p1) * one + p2
  {
  }

  lemma Between(f: int, x: int, y: int, delta: int)
    requires f == x + y && 0 <= y <= delta
    ensures f - delta <= x <= f
  {
  }

  lemma InIntervalAt(D: nat, kappa: nat, f: nat, delta: nat, one: nat)
    requires f - delta <= D * Pow10(kappa) * one <= f
    ensures InInterval(D, kappa, f, delta, one)
  {
    hide Pow10;
  }

  lemma PhaseSum(D: nat, m: nat, q: nat, p1: nat, p2: nat, f: nat, one: nat)
    requires f == (D * q + p1) * one + p2
    ensures f == (D - m) * q * one + (p1 * one + p2 + m * (q * one))
  {
    TakeBack(D, m, q, p1, one);
  }

  lemma TakeBack(D: nat, m: nat, q: nat, p1: nat, one: nat)
    ensures (D * q + p1) * one == (D - m) * q * one + m * (q * one) + p1 * one
  {
    Distribute(D * q, p1, one);
    Distribute(D - m, m, q);
    Distribute((D - m) * q, m * q, one);
    Regroup(m, q, one);
  }

  lemma NoneAbove(D: nat, kappa: nat, p1: nat, p2: nat, f: nat, delta: nat, one: nat)
    requires IntegerPhase(D, kappa, p1, p2, f, one) && delta <= f && p1 * one + p2 >= delta
    ensures NoneAt(kappa, f, delta, one)
  {
    var q := Pow10(kappa);
    Distribute(D * q, p1, one);
    forall n: nat
      ensures !(f - delta < n * q * one <= f)
    {
      if n * q * one <= f {
        if n > D {
          Beyond(n, D, q, p1, one, p2);
        } else {
          Ordered(n, D, q, one);
        }
      }
    }
  }

  lemma Beyond(n: nat, D: nat, q: nat, p1: nat, one: nat, p2: nat)
    requires n > D && p1 < q && p2 < one
    ensures n * q * one > D * q * one + p1 * one + p2
  {
    Ordered1(D + 1, n, q);
    Distribute(D, 1, q);
    Ordered1(D * q + p1 + 1, n * q, one);
    Distribute(D * q + p1, 1, one);
    Distribute(D * q, p1, one);
  }

  lemma Ordered(n: nat, D: nat, q: nat, one: nat)
    requires n <= D
    ensures n * q * one <= D * q * one
  {
    assert n * q <= D * q;
  }

  /** The state of the fraction phase after j steps, everything scaled by S = 10^j. */
  ghost predicate FractionPhase(D: nat, S: nat, p2: nat, f: nat, one: nat) {
    f * S == D * one + p2 && p2 < one
  }

  lemma FractionStep(D: nat, S: nat, p2: nat, f: nat, one: nat, d: nat, r: nat)
    requires one > 0 && FractionPhase(D, S, p2, f, one) && p2 * 10 == d * one + r && r < one
    ensures d < 10 && FractionPhase(D * 10 + d, 10 * S, r, f, one)
  {
    Ordered1(10, d, one);
    ScaleTen(f, S);
    ScaleTen(D, one);
    Distribute(D * 10, d, one);
  }

  lemma ScaleTen(a: nat, b: nat)
    ensures a * (10 * b) == 10 * (a * b) == (a * 10) * b
  {
  }

  lemma FractionResult(D: nat, m: nat, j: nat, p2: nat, f: nat, delta: nat, one: nat)
    requires j > 0 && m <= D && FractionPhase(D, Pow10(j), p2, f, one) && delta <= f
    requires p2 + m * one <= delta * Pow10(j)
    ensures InInterval(D - m, -(j as int), f, delta, one)
  {
    Distribute(f - delta, delta, Pow10(j));
    Distribute(D - m, m, one);
  }

  lemma NoneBefore(D: nat, j: nat, p2: nat, f: nat, delta: nat, one: nat)
    requires FractionPhase(D, Pow10(j), p2, f, one) && delta <= f && p2 >= delta * Pow10(j)
    ensures NoneAt(-(j as int), f, delta, one)
  {
    var S := Pow10(j);
    Distribute(f - delta, delta, S);
    forall n: nat
      ensures !((f - delta) * S < n * one <= f * S)
    {
      Ordered1(n, D, one);
      Ordered1(D + 1, n, one);
      Distribute(D, 1, one);
    }
    if j == 0 {
      NoneAtUnit(f, delta, one);
    }
  }

  lemma NoneAtUnit(f: nat, delta: nat, one: nat)
    requires delta <= f && forall n: nat :: !((f - delta) * Pow10(0) < n * one <= f * Pow10(0))
    ensures NoneAt(0, f, delta, one)
  {
    forall n: nat
      ensures !(f - delta < n * Pow10(0) * one <= f)
    {
      assert !((f - delta) * Pow10(0) < n * one <= f * Pow10(0));
    }
  }

  /** After j fraction digits the remainder lies below delta, both scaled by 10^j. */
  ghost predicate WithinDelta(f: nat, delta: nat, one: nat, j: nat)
    requires one > 0
  {
    f * Pow10(j) % one < delta * Pow10(j)
  }

  lemma RemainderIs(x: nat, D: nat, p: nat, one: nat)
    requires p < one && x == D * one + p
    ensures x % one == p
  {
    var q, r := x / one, x % one;
    assert x == q * one + r;
    if q < D {
      Ordered1(q + 1, D, one);
      Distribute(q, 1, one);
    } else if q > D {
      Ordered1(D + 1, q, one);
      Distribute(D, 1, one);
    }
  }

  lemma RemainderTimesTen(x: nat, one: nat)
    requires one > 0
    ensures (10 * x) % one <= 10 * (x % one)
  {
    var q, r, s := x / one, x % one, (10 * x) / one;
    assert x == q * one + r && 10 * x == s * one + (10 * x) % one;
    Regroup(10, q, one);
    if s < 10 * q {
      Ordered1(s + 1, 10 * q, one);
      Distribute(s, 1, one);
    } else {
      Ordered1(10 * q, s, one);
    }
  }

  /** Once below delta, the remainder stays below it. */
  lemma {:induction false} StaysWithin(f: nat, delta: nat, one: nat, i: nat, j: nat)
    requires one > 0 && i <= j && WithinDelta(f, delta, one, i)
    ensures WithinDelta(f, delta, one, j)
    decreases j
  {
    hide Pow10;
    if i < j {
      StaysWithin(f, delta, one, i, j - 1);
      RemainderTimesTen(f * Pow10(j - 1), one);
      TenTimes(j);
      ScaleTen(f, Pow10(j - 1));
      ScaleTen(delta, Pow10(j - 1));
    }
  }

  lemma PhaseWithin(D: nat, j: nat, p2: nat, f: nat, delta: nat, one: nat)
    requires one > 0 && FractionPhase(D, Pow10(j), p2, f, one)
    ensures WithinDelta(f, delta, one, j) <==> p2 < delta * Pow10(j)
  {
    hide Pow10;
    RemainderIs(f * Pow10(j), D, p2, one);
  }

  /** The first k for which the remainder lies below delta tells for every j whether it does. */
  lemma FirstWithin(f: nat, delta: nat, one: nat, k: nat)
    requires one > 0 && k > 0 && WithinDelta(f, delta, one, k) && !WithinDelta(f, delta, one, k - 1)
    ensures EndsAfter(k, f, delta, one)
  {
    hide WithinDelta;
    forall j: nat ensures k <= j <==> WithinDelta(f, delta, one, j) {
      if k <= j {
        StaysWithin(f, delta, one, k, j);
      } else if WithinDelta(f, delta, one, j) {
        StaysWithin(f, delta, one, j, k - 1);
      }
    }
  }

  /** Exactly k fraction digits bring the remainder below delta. */
  ghost predicate EndsAfter(k: int, f: nat, delta: nat, one: nat)
    requires one > 0
  {
    forall j: nat :: k <= j <==> WithinDelta(f, delta, one, j)
  }

  /** The second loop is reached and needs more than nine digits: kPow10 has no entry for that many. */
  ghost predicate PastTable(f: nat, delta: nat, one: nat)
    requires one > 0
  {
    f % one > delta && !WithinDelta(f, delta, one, 9)
  }

  /** Values that DigitGen accepts and for which it reads behind kPow10. */
  lemma PastTableAt()
    ensures PastTable(0x8000_0000_2000_0000, 0x400, Pow2(60))
    ensures 0x400 < 0x8000_0000_2000_0000 < TWO_POW_64 && Pow2(60) <= 0x8000_0000_2000_0000
  {
    Pow2Table(15);
    PowerTable(9);
  }

  /** Ten times delta at most 2^60 times, so the scale stays below 10^20. */
  lemma ScaleBound(delta: nat, j: nat, one: nat)
    requires delta > 0 && delta * Pow10(j) < one <= 0x1000_0000_0000_0000
    ensures j <= 18
  {
    PowerTable(19);
    Ordered1(1, delta, Pow10(j));
    if j > 18 {
      Pow10Monotone(19, j);
    }
  }

  /** The first len characters are the digits of D. */
  ghost predicate Digits(s: seq<char>, len: nat, D: nat) {
    len <= |s| && AllDigits(s[..len]) && Value(s[..len]) == D
  }

  lemma EmptyDigits(s: seq<char>)
    ensures Digits(s, 0, 0)
  {
    assert s[..0] == [];
  }

  lemma AppendDigit(before: seq<char>, after: seq<char>, len: nat, D: nat, d: nat)
    requires len < |before| && d < 10 && Digits(before, len, D)
    requires after == before[len := DigitChar(d)]
    ensures Digits(after, len + 1, D * 10 + d)
  {
    ValueSnoc(before[..len], DigitChar(d));
    assert after[..len + 1] == before[..len] + [DigitChar(d)];
  }

  /** Taking m back from the last digit. */
  lemma LowerLast(before: seq<char>, after: seq<char>, len: nat, D: nat, d: nat, m: nat)
    requires 0 < len <= |before| == |after| && m <= d < 10 && Digits(before, len, D)
    requires before[len - 1] == DigitChar(d) && after[len - 1] == DigitChar(d - m)
    requires forall i :: 0 <= i < |before| && i != len - 1 ==> after[i] == before[i]
    ensures m <= D && Digits(after, len, D - m)
  {
    assert before[..len] == before[..len - 1] + [before[len - 1]];
    assert after[..len] == before[..len - 1] + [after[len - 1]];
    ValueSnoc(before[..len - 1], before[len - 1]);
    ValueSnoc(before[..len - 1], after[len - 1]);
  }

  lemma RemainderFits(D: nat, kappa: nat, p1: nat, p2: nat, f: nat, one: nat)
    requires IntegerPhase(D, kappa, p1, p2, f, one)
    ensures p1 * one + p2 <= f
  {
    Distribute(D * Pow10(kappa), p1, one);
  }

  lemma ToFraction(D: nat, p1: nat, p2: nat, f: nat, one: nat)
    requires IntegerPhase(D, 0, p1, p2, f, one)
    ensures p1 == 0 && FractionPhase(D, Pow10(0), p2, f, one)
  {
  }

  lemma WholeFits(f: uint64, one: nat, p1: nat, p2: nat)
    requires 0x1_0000_0000 <= one <= f && f == p1 * one + p2 && p2 < one
    ensures 0 < p1 < 0x1_0000_0000
  {
    LeadingDigit(f, one, p1, p2);
    Ordered1(0x1_0000_0000, p1, one);
  }

  lemma StartPhase(kappa: nat, p1: nat, p2: nat, f: nat, one: nat)
    requires f == p1 * one + p2 && p1 < Pow10(kappa) && p2 < one
    ensures IntegerPhase(0, kappa, p1, p2, f, one)
  {
  }

  lemma NoneAtTop(kappa: nat, p1: nat, p2: nat, f: nat, delta: nat, one: nat)
    requires IntegerPhase(0, kappa, p1, p2, f, one) && delta <= f
    ensures NoneAt(kappa, f, delta, one)
  {
    NoneAbove(0, kappa, p1, p2, f, delta, one);
  }

  lemma LeadingDigit(p1: nat, q: nat, d: nat, r: nat)
    requires p1 >= q && p1 == d * q + r && r < q
    ensures d > 0
  {
    Ordered1(d, 0, q);
  }

  /** The unit 10^kappa * one does not exceed f while kappa counts inside the integer part. */
  lemma UnitFits(kappa: nat, kappa0: nat, whole: nat, f: nat, one: nat)
    requires kappa < kappa0 && Pow10(kappa0 - 1) <= whole && whole * one <= f
    ensures 0 < Pow10(kappa) && Pow10(kappa) * one <= f
  {
    Pow10Monotone(kappa, kappa0 - 1);
    Product(Pow10(kappa), whole, one);
  }

  lemma Product(a: nat, b: nat, c: nat)
    requires a <= b
    ensures a * c <= b * c
  {
  }

  /** kPow10 */
  function PowerEntry(k: nat): (p: nat)
    requires k < 10
    ensures p == Pow10(k)
  {
    PowerTable(k);
    POWERS_OF_TEN[k]
  }

  /** buffer[len++] = '0' + d, unless the digit is a leading zero. */
  method Emit(buffer: array<char>, len0: nat, ghost D: nat, d: nat) returns (len: nat)
    requires len0 < buffer.Length && d < 10 && Digits(buffer[..], len0, D)
    requires len0 != 0 || d != 0
    modifies buffer
    ensures len == len0 + 1 && Digits(buffer[..], len, D * 10 + d) && buffer[len - 1] == DigitChar(d)
  {
    len := len0;
    if d != 0 || len != 0 {
      ghost var before := buffer[..];
      buffer[len] := '0' + d as char;
      AppendDigit(before, buffer[..], len, D, d);
      len := len + 1;
    }
  }

  /** Rounding of the last digit d, for a unit and a remainder of either loop. */
  method Finish(buffer: array<char>, len: nat, ghost D: nat, ghost d: nat,
                delta: uint64, rest: uint64, unit: uint64, wpW: uint64)
    returns (ghost m: nat)
    requires 0 < len <= buffer.Length && d < 10 && Digits(buffer[..], len, D) && buffer[len - 1] == DigitChar(d)
    requires unit > 0 && rest <= delta <= d * unit + rest
    modifies buffer
    ensures m <= D && Digits(buffer[..], len, D - m) && rest + m * unit <= delta
    ensures Rounded(m, rest, delta, unit, wpW)
  {
    hide Closer, Digits;
    ghost var before := buffer[..];
    m := GrisuRound(buffer, len, delta, rest, unit, wpW);
    LowerLast(before, buffer[..], len, D, d, m);
  }

  /** One digit of the integer part: what a turn of the first loop does before its test. */
  method IntegerTurn(f: uint64, one: uint64, buffer: array<char>, len0: nat, kappa: nat, p: uint32, p2: uint64, ghost D0: nat)
    returns (len: nat, p1: uint32, d: nat, tmp: uint64)
    requires 0 < kappa <= 10 && one > 0 && len0 < buffer.Length
    requires Digits(buffer[..], len0, D0) && IntegerPhase(D0, kappa, p, p2, f, one)
    requires len0 == 0 ==> p >= Pow10(kappa - 1)
    modifies buffer
    ensures len == len0 + 1 && d < 10 && Digits(buffer[..], len, D0 * 10 + d) && buffer[len - 1] == DigitChar(d)
    ensures IntegerPhase(D0 * 10 + d, kappa - 1, p1, p2, f, one) && tmp == p1 * one + p2
    ensures p * one + p2 == d * (Pow10(kappa - 1) * one) + tmp
  {
    hide Pow10, IntegerPhase, Digits, PowerEntry;
    var q := PowerEntry(kappa - 1);
    EntryFits(kappa - 1);
    d, p1 := DivideWord(p, q);
    IntegerStep(D0, kappa, p, p2, f, one, q, d, p1);
    if len0 == 0 {
      LeadingDigit(p, q, d, p1);
    }
    len := Emit(buffer, len0, D0, d);
    RemainderFits(D0 * 10 + d, kappa - 1, p1, p2, f, one);
    tmp := p1 * one + p2;
  }

  method DivideWord(n: uint32, m: uint32) returns (q: nat, r: uint32)
    requires m > 0
    ensures n == q * m + r && r < m
  {
    var a, b := Divide(n, m);
    q, r := a, b;
  }

  lemma EntryFits(k: nat)
    requires k < 10
    ensures 0 < Pow10(k) < 0x1_0000_0000
  {
    PowerTable(k);
  }

  /**
   The first loop: the digits of the integer part of f / one. It either stops with a
   decimal inside the interval or leaves the fraction to the second loop.
   */
  method IntegerDigits(f: uint64, one: uint64, wpW: uint64, delta: uint64, buffer: array<char>)
    returns (done: bool, len: nat, kappa: nat, p2: uint64, ghost D: nat)
    requires 0x1_0000_0000 <= one <= f && delta < f
    requires buffer.Length >= 10
    modifies buffer
    ensures 0 < len <= 10 && Digits(buffer[..], len, D) && kappa < 10
    ensures done ==> InInterval(D, kappa, f, delta, one) && NoneAt(kappa + 1, f, delta, one)
    ensures !done ==> kappa == 0 && FractionPhase(D, Pow10(0), p2, f, one) && p2 > delta && NoneAt(0, f, delta, one)
    ensures !done ==> Pow10(len - 1) * one <= f
    ensures done <==> f % one <= delta
    ensures done ==> Nearest(D, kappa, f, delta, one, f - wpW)
  {
    hide Rounded, Nearest, Pow10, NoneAt, InInterval, IntegerPhase, FractionPhase, Digits, Text, PowerEntry;
    var w;
    w, p2 := Divide(f, one);
    WholeFits(f, one, w, p2);
    RemainderIs(f, w, p2, one);
    var p1: uint32 := w;
    ghost var whole: nat := p1;
    kappa := CountDecimalDigit32(p1);
    ghost var kappa0 := kappa;
    len, D := 0, 0;
    StartPhase(kappa, p1, p2, f, one);
    NoneAtTop(kappa, p1, p2, f, delta, one);
    EmptyDigits(buffer[..]);
    ghost var left: nat := p1 * one + p2;
    done := false;
    while kappa > 0
      invariant kappa <= kappa0 <= 10 && len == kappa0 - kappa
      invariant Digits(buffer[..], len, D)
      invariant IntegerPhase(D, kappa, p1, p2, f, one)
      invariant kappa == kappa0 ==> p1 == whole
      invariant left == p1 * one + p2 > delta && NoneAt(kappa, f, delta, one)
    {
      var d, tmp;
      len, p1, d, tmp := IntegerTurn(f, one, buffer, len, kappa, p1, p2, D);
      D := D * 10 + d;
      kappa := kappa - 1;
      if tmp <= delta {
        UnitFits(kappa, kappa0, whole, f, one);
        ghost var m := Finish(buffer, len, D, d, delta, tmp, PowerEntry(kappa) * one, wpW);
        IntegerResult(D, m, kappa, p1, p2, f, delta, one);
        IntegerNearest(D, m, kappa, p1, p2, f, delta, one, PowerEntry(kappa) * one, wpW);
        AtLeastRest(p1, one, p2, tmp);
        done, D := true, D - m;
        return;
      }
      NoneAbove(D, kappa, p1, p2, f, delta, one);
      left := tmp;
    }
    ToFraction(D, p1, p2, f, one);
    UnitFits(len - 1, kappa0, whole, f, one);
  }

  lemma AtLeastRest(p1: nat, one: nat, p2: nat, tmp: nat)
    requires tmp == p1 * one + p2
    ensures p2 <= tmp
  {
  }

  /** One fraction digit: what a turn of the second loop does before its test. */
  method FractionTurn(f: uint64, one: uint64, buffer: array<char>, len0: nat, p: uint64, ghost D0: nat, ghost S: nat)
    returns (len: nat, p2: uint64, d: nat)
    requires 0 < one <= 0x1000_0000_0000_0000 && 0 < len0 < buffer.Length
    requires Digits(buffer[..], len0, D0) && FractionPhase(D0, S, p, f, one) && p < one
    modifies buffer
    ensures len == len0 + 1 && d < 10 && Digits(buffer[..], len, D0 * 10 + d) && buffer[len - 1] == DigitChar(d)
    ensures FractionPhase(D0 * 10 + d, 10 * S, p2, f, one) && p2 < one && p * 10 == d * one + p2
  {
    hide Digits, FractionPhase;
    p2 := p * 10;
    d, p2 := Divide(p2, one);
    FractionStep(D0, S, p, f, one, d, p2);
    len := Emit(buffer, len0, D0, d);
  }

  /**
   The second loop: one fraction digit a turn, until the remainder is below delta.
   tableAt is the power table as it is read, also past its tenth entry.
   */
  method FractionDigits(f: uint64, one: uint64, wpW: uint64, delta0: uint64, tableAt: nat -> uint64,
                        buffer: array<char>, len0: nat, q2: uint64, ghost D0: nat)
    returns (len: nat, kappa: int, ghost D: nat)
    requires 0x1_0000_0000 <= one <= 0x1000_0000_0000_0000 && 0 < delta0 < f
    requires buffer.Length >= 21 && 0 < len0 && Digits(buffer[..], len0, D0) && Pow10(len0 - 1) * one <= f
    requires FractionPhase(D0, Pow10(0), q2, f, one) && q2 > delta0 && NoneAt(0, f, delta0, one)
    requires IsTable(tableAt)
    modifies buffer
    ensures kappa < 0 && len0 < len <= 21 && Digits(buffer[..], len, D)
    ensures InInterval(D, kappa, f, delta0, one) && NoneAt(kappa + 1, f, delta0, one)
    ensures EndsAfter(-kappa, f, delta0, one)
    ensures kappa >= -9 && wpW <= delta0 ==> Nearest(D, kappa, f, delta0, one, f - wpW)
  {
    hide IsTable, Rounded, Nearest, Pow10, NoneAt, InInterval, FractionPhase, Digits, WithinDelta, EndsAfter;
    len, kappa, D := len0, 0, D0;
    var p2, delta := q2, delta0;
    PowerTable(0);
    PhaseBound(D0, Pow10(0), q2, f, one);
    while true
      invariant kappa <= 0 && 0 < delta == delta0 * Pow10(-kappa) <= p2 < one
      invariant len == len0 - kappa
      invariant Digits(buffer[..], len, D)
      invariant FractionPhase(D, Pow10(-kappa), p2, f, one) && NoneAt(kappa, f, delta0, one)
      decreases one - delta
    {
      ScaleBound(delta0, -kappa, one);
      LengthBound(len0, -kappa, delta0, one, f);
      NextPower(delta0, -kappa);
      PhaseWithin(D, -kappa, p2, f, delta0, one);
      var d;
      delta := delta * 10;
      len, p2, d := FractionTurn(f, one, buffer, len, p2, D, Pow10(-kappa));
      D := D * 10 + d;
      kappa := kappa - 1;
      if p2 < delta {
        var scaled: uint64 := wpW * tableAt(-kappa) % 0x1_0000_0000_0000_0000;
        ghost var m := Finish(buffer, len, D, d, delta, p2, one, scaled);
        FractionResult(D, m, -kappa, p2, f, delta0, one);
        PhaseWithin(D, -kappa, p2, f, delta0, one);
        FirstWithin(f, delta0, one, -kappa);
        if kappa >= -9 && wpW <= delta0 {
          EntryAt(tableAt, -kappa, wpW, delta0, delta);
          FractionNearest(D, m, -kappa, p2, f, delta0, delta, one, wpW, scaled);
        }
        D := D - m;
        return;
      }
      NoneBefore(D, -kappa, p2, f, delta0, one);
    }
  }

  /** kPow10 as far as it goes. */
  ghost predicate IsTable(tableAt: nat -> uint64) {
    forall i :: 0 <= i < 10 ==> tableAt(i) == POWERS_OF_TEN[i]
  }

  /** A distance within delta does not wrap when it is scaled as delta is. */
  lemma EntryAt(tableAt: nat -> uint64, j: nat, wpW: nat, delta: nat, scaled: uint64)
    requires IsTable(tableAt) && j < 10 && wpW <= delta && scaled == delta * Pow10(j)
    ensures wpW * tableAt(j) % 0x1_0000_0000_0000_0000 == wpW * Pow10(j) < 0x1_0000_0000_0000_0000
  {
    hide Pow10;
    PowerTable(j);
    Ordered1(wpW, delta, Pow10(j));
    SmallRemainder(wpW * Pow10(j));
  }

  lemma SmallRemainder(x: uint64)
    ensures x % 0x1_0000_0000_0000_0000 == x
  {
  }

  lemma PhaseBound(D: nat, S: nat, p2: nat, f: nat, one: nat)
    requires FractionPhase(D, S, p2, f, one)
    ensures p2 < one
  {
  }

  /** Before every turn there are at most twenty digits: 10^(len0 - 1) and 10^j together stay below f. */
  lemma LengthBound(len0: nat, j: nat, delta: nat, one: nat, f: uint64)
    requires len0 > 0 && delta > 0 && delta * Pow10(j) < one && Pow10(len0 - 1) * one <= f
    ensures len0 + j <= 20
  {
    hide Pow10;
    Ordered1(1, delta, Pow10(j));
    Below(Pow10(len0 - 1), Pow10(j), one);
    Pow10Add(len0 - 1, j);
    BelowTwenty(len0 - 1 + j);
  }

  lemma Below(a: nat, b: nat, c: nat)
    requires a > 0 && b < c
    ensures a * b < a * c
  {
  }

  lemma BelowTwenty(k: nat)
    requires Pow10(k) < 0x1_0000_0000_0000_0000
    ensures k < 20
  {
    hide Pow10;
    PowerTable(20);
    if k >= 20 {
      Pow10Monotone(20, k);
    }
  }

  lemma NextPower(delta: nat, j: nat)
    ensures Pow10(j + 1) == 10 * Pow10(j) && delta * Pow10(j) * 10 == delta * Pow10(j + 1)
  {
  }

  /**
   Mp = (f, e), the interval width delta below it, and wpW the significand of Mp - W.
   The digits and the exponent K - K0 stand for a decimal in [Mp - delta, Mp], and no
   decimal with a larger exponent lies there, so the digits are as few as possible.
   The table is read at K0 - K after the second loop, so behind its end exactly if PastTable. Otherwise
   no decimal in the interval with as many digits is nearer to the value W = Mp - wpW.
   */
  method DigitGen(f: uint64, e: int, wpW: uint64, delta: uint64, tableAt: nat -> uint64, K0: int, buffer: array<char>)
    returns (len: nat, K: int)
    requires -60 <= e <= -32
    requires 1 <= delta < f && f >= Pow2(-e)
    requires IsTable(tableAt)
    requires buffer.Length >= 21
    modifies buffer
    ensures 0 < len <= 21 && AllDigits(buffer[..len])
    ensures InInterval(Value(buffer[..len]), K - K0, f, delta, Pow2(-e))
    ensures NoneAt(K - K0 + 1, f, delta, Pow2(-e))
    ensures K - K0 < -9 <==> PastTable(f, delta, Pow2(-e))
    ensures (f % Pow2(-e) <= delta || wpW <= delta) && !PastTable(f, delta, Pow2(-e)) ==>
              Nearest(Value(buffer[..len]), K - K0, f, delta, Pow2(-e), f - wpW)
  {
    hide IsTable, Nearest, Pow10, Pow2, NoneAt, InInterval, Value, FractionPhase, WithinDelta;
    Pow2Range(-e);
    var one: uint64 := Pow2(-e);
    var done, n, kappa, p2;
    ghost var D;
    done, len, kappa, p2, D := IntegerDigits(f, one, wpW, delta, buffer);
    if done {
      K := K0 + kappa;
    } else {
      len, n, D := FractionDigits(f, one, wpW, delta, tableAt, buffer, len, p2, D);
      K := K0 + n;
    }
  }
}
