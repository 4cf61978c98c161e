/** Decimal layout of printed doubles: Prettify and WriteExponent of include/co/__/dtoa_milo.h. */
module Prettify {
  import opened Decimal

  function Zeros(n: nat): (s: string)
    ensures |s| == n && AllDigits(s) && forall i :: 0 <= i < n ==> s[i] == '0'
  {
    seq(n, _ => '0')
  }

  /** The text for digits * 10^k, with kk the place of the decimal point. */
  function Layout(digits: string, k: int): (t: string)
    requires digits != ""
    ensures t != ""
  {
    var kk := |digits| + k;
    if k >= 0 && kk <= 21 then digits + Zeros(k) + ".0"
    else if 0 < kk <= 21 then digits[..kk] + "." + digits[kk..]
    else if -6 < kk <= 0 then "0." + Zeros(-kk) + digits
    else if |digits| == 1 then digits + "e" + IntText(kk - 1)
    else digits[..1] + "." + digits[1..] + "e" + IntText(kk - 1)
  }

  /** Digits with one point among them, none at an end. */
  predicate IsPlain(t: string) {
    exists p :: 0 < p < |t| - 1 && PointAt(t, p)
  }

  predicate PointAt(t: string, p: nat) {
    p < |t| && t[p] == '.' && forall q :: 0 <= q < |t| && q != p ==> IsDigit(t[q])
  }

  /** Numbers from 10^-6 on and below 10^21 are written out with a point, the others with an exponent. */
  lemma LayoutForm(digits: string, k: int)
    requires digits != "" && AllDigits(digits)
    ensures -6 < |digits| + k <= 21 <==> IsPlain(Layout(digits, k))
    ensures 'e' in Layout(digits, k) <==> !(-6 < |digits| + k <= 21)
  {
    hide IntText;
    var t, kk := Layout(digits, k), |digits| + k;
    if k >= 0 && kk <= 21 {
      assert PointAt(t, kk);
    } else if 0 < kk <= 21 {
      assert PointAt(t, kk);
    } else if -6 < kk <= 0 {
      assert PointAt(t, 1);
    } else {
      var e := if |digits| == 1 then 1 else |digits| + 1;
      assert t[e] == 'e';
    }
  }

  /** memmove inside the buffer. */
  method Move(buffer: array<char>, to: nat, from: nat, n: nat)
    requires to + n <= buffer.Length && from + n <= buffer.Length
    modifies buffer
    ensures buffer[to..to + n] == old(buffer[from..from + n])
    ensures buffer[..to] == old(buffer[..to]) && buffer[to + n..] == old(buffer[to + n..])
  {
    forall i | 0 <= i < n {
      buffer[to + i] := buffer[from + i];
    }
  }

  /** The digits of a two-digit table entry. */
  lemma TwoDigits(K: nat)
    requires 10 <= K < 100
    ensures Text(K) == [DigitChar(K / 10), DigitChar(K % 10)]
  {
    assert Text(K / 10) == [DigitChar(K / 10)];
  }

  lemma ThreeDigits(K: nat)
    requires 100 <= K < 1000
    ensures K / 100 < 10 && Text(K) == [DigitChar(K / 100), DigitChar(K % 100 / 10), DigitChar(K % 100 % 10)]
  {
    TwoDigits(K / 10);
    assert K / 10 / 10 == K / 100 && K / 10 % 10 == K % 100 / 10 && K % 10 == K % 100 % 10;
  }

  /** Writes K at position at; the digit table gives the two digits of a number below 100. */
  method WriteExponent(K0: int, buffer: array<char>, at: nat) returns (end: nat)
    requires -1000 < K0 < 1000 && at + |IntText(K0)| < buffer.Length
    modifies buffer
    ensures end == at + |IntText(K0)| && buffer[at..end] == IntText(K0) && buffer[end] == '\0'
    ensures buffer[..at] == old(buffer[..at])
  {
    hide Text, IntText;
    SignedText(K0);
    if K0 < 0 {
      buffer[at] := '-';
      end := WriteDigits(-K0, buffer, at + 1);
      assert buffer[at..end] == [buffer[..at + 1][at]] + buffer[at + 1..end];
      assert buffer[..at] == buffer[..at + 1][..at];
    } else {
      end := WriteDigits(K0, buffer, at);
    }
  }

  lemma SignedText(K: int)
    ensures IntText(K) == if K < 0 then "-" + Text(-K) else Text(K)
  {
  }

  /** The part of WriteExponent behind the sign. */
  method WriteDigits(K0: nat, buffer: array<char>, at: nat) returns (end: nat)
    requires K0 < 1000 && at + |Text(K0)| < buffer.Length
    modifies buffer
    ensures end == at + |Text(K0)| && buffer[at..end] == Text(K0) && buffer[end] == '\0'
    ensures buffer[..at] == old(buffer[..at])
  {
    hide Text;
    var p, K := at, K0;
    if K >= 100 {
      ThreeDigits(K);
      buffer[p] := '0' + (K / 100) as char;
      K := K % 100;
      buffer[p + 1] := DigitChar(K / 10);
      buffer[p + 2] := DigitChar(K % 10);
      p := p + 3;
    } else if K >= 10 {
      TwoDigits(K);
      buffer[p] := DigitChar(K / 10);
      buffer[p + 1] := DigitChar(K % 10);
      p := p + 2;
    } else {
      OneDigit(K);
      buffer[p] := '0' + K as char;
      p := p + 1;
    }
    buffer[p] := '\0';
    end := p;
  }

  lemma OneDigit(K: nat)
    requires K < 10
    ensures Text(K) == [DigitChar(K)]
  {
  }

  /** 1234e7 -> 12340000000.0 */
  method PutInteger(buffer: array<char>, length: nat, kk: nat) returns (end: nat)
    requires 0 < length <= kk && kk + 2 < buffer.Length
    modifies buffer
    ensures end == kk + 2 && buffer[end] == '\0'
    ensures buffer[..end] == old(buffer[..length]) + Zeros(kk - length) + ".0"
  {
    var i := length;
    while i < kk
      invariant length <= i <= kk
      invariant buffer[..i] == old(buffer[..length]) + Zeros(i - length)
    {
      buffer[i] := '0';
      assert buffer[..i + 1] == buffer[..i] + ['0'];
      i := i + 1;
    }
    ghost var s := buffer[..kk];
    buffer[kk] := '.';
    buffer[kk + 1] := '0';
    buffer[kk + 2] := '\0';
    assert buffer[..kk] == s;
    assert buffer[..kk + 2] == buffer[..kk] + ".0";
    end := kk + 2;
  }

  /** Makes room for the point at position at: 1234e-2 -> 12.34 */
  method PutPoint(buffer: array<char>, length: nat, at: nat)
    requires 0 < at <= length && length < buffer.Length
    modifies buffer
    ensures buffer[..length + 1] == old(buffer[..at]) + "." + old(buffer[at..length])
  {
    Move(buffer, at + 1, at, length - at);
    ghost var tail := buffer[at + 1..length + 1];
    assert buffer[..at] == buffer[..at + 1][..at] == old(buffer[..at + 1])[..at];
    buffer[at] := '.';
    assert buffer[at + 1..length + 1] == tail;
    assert buffer[..length + 1] == buffer[..at] + "." + buffer[at + 1..length + 1];
  }

  /** 1234e-6 -> 0.001234 */
  method PutLeadingZeros(buffer: array<char>, length: nat, kk: int) returns (end: nat)
    requires -6 < kk <= 0 && 0 < length && length + 2 - kk < buffer.Length
    modifies buffer
    ensures end == length + 2 - kk && buffer[end] == '\0'
    ensures buffer[..end] == "0." + Zeros(-kk) + old(buffer[..length])
  {
    ghost var digits := buffer[..length];
    var offset := 2 - kk;
    Move(buffer, offset, 0, length);
    buffer[0] := '0';
    buffer[1] := '.';
    var i := 2;
    while i < offset
      invariant 2 <= i <= offset
      invariant buffer[..i] == "0." + Zeros(i - 2)
      invariant buffer[offset..offset + length] == digits
    {
      ghost var before := buffer[..];
      buffer[i] := '0';
      assert buffer[..i + 1] == before[..i] + ['0'];
      assert buffer[offset..offset + length] == before[offset..offset + length];
      i := i + 1;
    }
    end := length + offset;
    ghost var before := buffer[..];
    buffer[end] := '\0';
    assert buffer[..end] == before[..end] == before[..offset] + before[offset..end];
  }

  method Prettify(buffer: array<char>, length: nat, k: int) returns (end: nat)
    requires 0 < length <= buffer.Length
    requires -6 < length + k <= 21 || -1000 < length + k - 1 < 1000
    requires |Layout(buffer[..length], k)| < buffer.Length
    modifies buffer
    ensures end == |Layout(old(buffer[..length]), k)|
    ensures buffer[..end] == Layout(old(buffer[..length]), k) && buffer[end] == '\0'
  {
    hide Text, IntText;
    ghost var digits := buffer[..length];
    var kk := length + k;
    if length <= kk <= 21 {
      end := PutInteger(buffer, length, kk);
    } else if 0 < kk <= 21 {
      assert buffer[..kk] == digits[..kk] && buffer[kk..length] == digits[kk..];
      end := PutPointEnd(buffer, length, kk);
    } else if -6 < kk <= 0 {
      end := PutLeadingZeros(buffer, length, kk);
    } else {
      assert buffer[..1] == digits[..1] && buffer[1..length] == digits[1..];
      end := PutExponent(buffer, length, kk);
    }
  }

  method PutPointEnd(buffer: array<char>, length: nat, at: nat) returns (end: nat)
    requires 0 < at <= length && length + 1 < buffer.Length
    modifies buffer
    ensures end == length + 1 && buffer[end] == '\0'
    ensures buffer[..end] == old(buffer[..at]) + "." + old(buffer[at..length])
  {
    PutPoint(buffer, length, at);
    ghost var before := buffer[..];
    end := length + 1;
    buffer[end] := '\0';
    assert buffer[..end] == before[..end];
  }

  /** 1e30, or 1234e30 -> 1.234e33 */
  method PutExponent(buffer: array<char>, length: nat, kk: int) returns (end: nat)
    requires 0 < length <= buffer.Length && -1000 < kk - 1 < 1000
    requires length + 3 + |IntText(kk - 1)| <= buffer.Length + if length == 1 then 1 else 0
    modifies buffer
    ensures end < buffer.Length && buffer[end] == '\0'
    ensures length == 1 ==> buffer[..end] == old(buffer[..1]) + "e" + IntText(kk - 1)
    ensures length > 1 ==> buffer[..end] == old(buffer[..1]) + "." + old(buffer[1..length]) + "e" + IntText(kk - 1)
  {
    hide Text, IntText;
    ghost var head;
    if length == 1 {
      ghost var before := buffer[..];
      buffer[1] := 'e';
      head := buffer[..2];
      assert head == before[..1] + "e";
      end := WriteExponent(kk - 1, buffer, 2);
      assert buffer[..end] == head + buffer[2..end];
    } else {
      PutPoint(buffer, length, 1);
      ghost var before := buffer[..];
      buffer[length + 1] := 'e';
      head := buffer[..length + 2];
      assert head == before[..length + 1] + "e";
      end := WriteExponent(kk - 1, buffer, length + 2);
      assert buffer[..end] == head + buffer[length + 2..end];
    }
  }

  // ----- what a text denotes -----

  function Ten(k: int): (r: real)
    ensures r > 0.0
    decreases if k < 0 then -k else k
  {
    if k == 0 then 1.0 else if k > 0 then 10.0 * Ten(k - 1) else Ten(k + 1) / 10.0
  }

  lemma TenNext(k: int)
    ensures Ten(k + 1) == 10.0 * Ten(k)
  {
  }

  lemma {:induction false} TenAdd(a: int, b: int)
    ensures Ten(a + b) == Ten(a) * Ten(b)
    decreases if a < 0 then -a else a
  {
    hide Ten;
    if a == 0 {
      TenZero();
    } else if a > 0 {
      TenAdd(a - 1, b);
      TenNext(a - 1);
      TenNext(a - 1 + b);
      Triple(10.0, Ten(a - 1), Ten(b));
    } else {
      TenAdd(a + 1, b);
      TenNext(a);
      TenNext(a + b);
      Triple(10.0, Ten(a), Ten(b));
    }
  }

  lemma TenZero()
    ensures Ten(0) == 1.0
  {
  }

  lemma Triple(a: real, b: real, c: real)
    ensures (a * b) * c == a * (b * c)
  {
  }

  lemma {:induction false} TenIsPower(k: nat)
    ensures Ten(k) == Pow10(k) as real
  {
    if k > 0 {
      TenIsPower(k - 1);
    }
  }

  /** The first place of c in t, |t| if there is none. */
  function IndexOf(t: string, c: char): (i: nat)
    ensures i <= |t| && (i < |t| ==> t[i] == c)
    ensures forall j :: 0 <= j < i ==> t[j] != c
  {
    if t == "" || t[0] == c then 0 else 1 + IndexOf(t[1..], c)
  }

  lemma IndexOfAt(a: string, c: char, b: string)
    requires c !in a
    ensures IndexOf(a + [c] + b, c) == |a|
  {
    var t := a + [c] + b;
    assert t[|a|] == c;
    assert forall j :: 0 <= j < |a| ==> t[j] == a[j] && a[j] in a;
  }

  lemma IndexOfAbsent(t: string, c: char)
    requires c !in t
    ensures IndexOf(t, c) == |t|
  {
    assert forall i :: 0 <= i < |t| ==> t[i] in t;
  }

  function ReadNat(t: string): nat {
    if AllDigits(t) then Value(t) else 0
  }

  function ReadInt(t: string): int {
    if t != "" && t[0] == '-' then 0 - ReadNat(t[1..]) else ReadNat(t)
  }

  /** Digits with an optional decimal point. */
  function Mantissa(t: string): real {
    var d := IndexOf(t, '.');
    if d == |t| then ReadNat(t) as real
    else ReadNat(t[..d] + t[d + 1..]) as real * Ten(-((|t| - d - 1) as int))
  }

  /** The number a decimal literal stands for. */
  function Denote(t: string): real {
    var e := IndexOf(t, 'e');
    if e == |t| then Mantissa(t) else Mantissa(t[..e]) * Ten(ReadInt(t[e + 1..]))
  }

  lemma DigitsOnly(s: string, c: char)
    requires AllDigits(s) && !IsDigit(c)
    ensures c !in s
  {
  }

  lemma MantissaPoint(a: string, b: string)
    requires AllDigits(a) && AllDigits(b)
    ensures Mantissa(a + "." + b) == (Value(a) * Pow10(|b|) + Value(b)) as real * Ten(-(|b| as int))
  {
    hide Value, Pow10, Ten, IndexOf, AllDigits;
    var t := a + "." + b;
    DigitsOnly(a, '.');
    IndexOfAt(a, '.', b);
    ValueConcat(a, b);
    assert t[..|a|] == a && t[|a| + 1..] == b;
    assert ReadNat(a + b) == Value(a) * Pow10(|b|) + Value(b);
  }

  lemma NoExponent(t: string)
    requires 'e' !in t
    ensures Denote(t) == Mantissa(t)
  {
    IndexOfAbsent(t, 'e');
  }

  lemma WithExponent(t: string, K: int)
    requires 'e' !in t
    ensures Denote(t + "e" + IntText(K)) == Mantissa(t) * Ten(K)
  {
    hide Ten, Mantissa, IndexOf;
    var u := t + "e" + IntText(K);
    ReadIntText(K);
    IndexOfAt(t, 'e', IntText(K));
    assert u[..|t|] == t && u[|t| + 1..] == IntText(K);
  }

  lemma ReadIntText(K: int)
    ensures ReadInt(IntText(K)) == K
  {
    hide Text, Value;
    var n := if K < 0 then -K else K;
    ValueOfText(n);
    if K < 0 {
      assert IntText(K)[1..] == Text(n);
    } else {
      assert IsDigit(IntText(K)[0]);
    }
  }

  lemma {:induction false} ZerosValue(n: nat)
    ensures Value(Zeros(n)) == 0
  {
    if n > 0 {
      ZerosValue(n - 1);
      assert Zeros(n)[..n - 1] == Zeros(n - 1);
    }
  }

  /** The text denotes exactly the digits times the power of ten, in all five layouts. */
  lemma LayoutDenotes(digits: string, k: int)
    requires digits != "" && AllDigits(digits)
    ensures Denote(Layout(digits, k)) == Value(digits) as real * Ten(k)
  {
    hide Value, Ten, Denote, Mantissa, Text, IntText, Pow10;
    var n, kk, v := |digits|, |digits| + k, Value(digits);
    DigitsOnly(digits, 'e');
    if k >= 0 && kk <= 21 {
      IntegerLayout(digits, k);
    } else if 0 < kk <= 21 {
      PointLayout(digits, kk);
      NoExponent(Layout(digits, k));
    } else if -6 < kk <= 0 {
      LeadingZeroLayout(digits, -kk);
      NoExponent(Layout(digits, k));
    } else if n == 1 {
      PlainMantissa(digits);
      WithExponent(digits, kk - 1);
    } else {
      ExponentLayout(digits, kk);
    }
  }

  lemma ExponentLayout(digits: string, kk: int)
    requires |digits| > 1 && AllDigits(digits)
    ensures Denote(digits[..1] + "." + digits[1..] + "e" + IntText(kk - 1)) == Value(digits) as real * Ten(kk - |digits|)
  {
    hide Value, Ten, Denote, Mantissa, Text, IntText, Pow10, AllDigits;
    var n, v := |digits|, Value(digits);
    var t := digits[..1] + "." + digits[1..];
    DigitsOnly(digits, 'e');
    assert 'e' !in t;
    PointLayout(digits, 1);
    WithExponent(t, kk - 1);
    Triple(v as real, Ten(1 - n), Ten(kk - 1));
    TenAdd(1 - n, kk - 1);
  }

  lemma PlainMantissa(digits: string)
    requires AllDigits(digits)
    ensures Mantissa(digits) == Value(digits) as real
  {
    DigitsOnly(digits, '.');
    IndexOfAbsent(digits, '.');
  }

  lemma PointLayout(digits: string, at: nat)
    requires 0 < at <= |digits| && AllDigits(digits)
    ensures Mantissa(digits[..at] + "." + digits[at..]) == Value(digits) as real * Ten(at - |digits|)
  {
    hide Ten, Mantissa, Value, Pow10;
    MantissaPoint(digits[..at], digits[at..]);
    ValueConcat(digits[..at], digits[at..]);
    assert digits == digits[..at] + digits[at..];
  }

  lemma LeadingZeroLayout(digits: string, z: nat)
    requires AllDigits(digits)
    ensures Mantissa("0." + Zeros(z) + digits) == Value(digits) as real * Ten(0 - z - |digits|)
  {
    hide Ten, Mantissa, Pow10, Value;
    var b := Zeros(z) + digits;
    assert "0." + Zeros(z) + digits == "0" + "." + b;
    ValueConcat(Zeros(z), digits);
    ZerosValue(z);
    MantissaPoint("0", b);
    assert Value("0") == 0 by {
      ZerosValue(1);
      assert Zeros(1) == "0";
    }
  }

  lemma IntegerLayout(digits: string, k: nat)
    requires digits != "" && AllDigits(digits)
    ensures Denote(digits + Zeros(k) + ".0") == Value(digits) as real * Ten(k)
  {
    hide Ten, Mantissa, Denote, Pow10, Value;
    var a := digits + Zeros(k);
    ValueConcat(digits, Zeros(k));
    ZerosValue(k);
    ZerosValue(1);
    assert Zeros(1) == "0";
    assert a + ".0" == a + "." + "0";
    MantissaPoint(a, "0");
    DigitsOnly(a, 'e');
    NoExponent(a + ".0");
    TenIsPower(k);
    CancelTen(Value(digits), Pow10(k));
  }

  lemma CancelTen(v: nat, p: nat)
    ensures (v * p * Pow10(1)) as real * Ten(-1) == v as real * p as real
  {
    assert Pow10(1) == 10;
    TenNext(-1);
  }
}
