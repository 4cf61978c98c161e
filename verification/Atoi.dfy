/** fastatoi of src/json.cc: reading an integer token in 64-bit arithmetic. */
module Atoi {
  import opened Common
  import opened Decimal

  /** One accumulation step in uint64, wrap-around included. */
  function Accumulate(v: uint64, c: char): uint64
    requires IsDigit(c)
  {
    (v * 10 + DigitValue(c)) % TWO_POW_64
  }

  /** The number of a digit string that is neither too long nor too large. */
  function Magnitude(digits: string, limit: nat, maxLen: nat): (r: Option<nat>)
    ensures r.Some? ==> r.value <= limit
  {
    if digits != "" && AllDigits(digits) && |digits| <= maxLen && Value(digits) <= limit
    then Some(Value(digits))
    else None
  }

  /** The value that the token s stands for, None where the source throws. */
  function AtoiValue(s: string): (r: Option<int64>)
    requires s != ""
  {
    if s[0] == '-' then
      var m := Magnitude(s[1..], TWO_POW_63, 19);
      if m.Some? then Some(0 - m.value) else None
    else
      var m := Magnitude(if s[0] == '+' then s[1..] else s, MAX_UINT64, 20);
      if m.Some? then Some(ToInt64(m.value)) else None
  }

  /** Up to 19 digits nothing wraps. */
  lemma ShortDigits(s: string)
    requires AllDigits(s) && |s| <= 19
    ensures Value(s) < TWO_POW_64
    ensures |s| <= 18 ==> Value(s) < TWO_POW_63
  {
    ValueBound(s);
    Pow10Monotone(|s|, 19);
    PowerTable(19);
    if |s| <= 18 {
      Pow10Monotone(|s|, 18);
      PowerTable(18);
    }
  }

  /** The digit loop of both branches: all but the last digit, then the last. */
  method ReadDigits(s: string) returns (ok: bool, v: uint64, last: nat)
    requires s != ""
    ensures ok <==> AllDigits(s)
    ensures ok ==> last == DigitValue(s[|s| - 1])
    ensures ok && |s| <= 20 ==> v == Value(s[..|s| - 1])
  {
    ok, v, last := true, 0, 0;
    var i := 0;
    while i < |s| - 1
      invariant 0 <= i <= |s| - 1
      invariant AllDigits(s[..i])
      invariant |s| <= 20 ==> v == Value(s[..i])
    {
      if s[i] < '0' || s[i] > '9' {
        ok := false;
        return;
      }
      ghost var t := s[..i + 1];
      assert t[..|t| - 1] == s[..i];
      if |s| <= 20 {
        ShortDigits(t);
      }
      v := Accumulate(v, s[i]);
      i := i + 1;
    }
    if s[i] < '0' || s[i] > '9' {
      ok := false;
      return;
    }
    last := DigitValue(s[i]);
  }

  lemma LastDigit(d: string)
    requires d != "" && AllDigits(d)
    ensures Value(d) == Value(d[..|d| - 1]) * 10 + DigitValue(d[|d| - 1])
  {
  }

  /** The branch for a number without '-'. */
  method ReadPositive(d: string) returns (r: Option<int64>)
    ensures var m := Magnitude(d, MAX_UINT64, 20); r == if m.Some? then Some(ToInt64(m.value)) else None
  {
    hide Value, ToInt64;
    if |d| == 0 {
      return None;
    }
    var ok, v, last := ReadDigits(d);
    if !ok {
      return None;
    }
    LastDigit(d);
    if |d| < 20 {
      ShortDigits(d);
      return Some(ToInt64((v * 10 + last) % TWO_POW_64));
    }
    if |d| == 20 {
      if v > (MAX_UINT64 - last) / 10 {
        return None;
      }
      return Some(ToInt64((v * 10 + last) % TWO_POW_64));
    }
    return None;
  }

  /** The branch behind a '-'. */
  method ReadNegative(d: string) returns (r: Option<int64>)
    ensures var m := Magnitude(d, TWO_POW_63, 19); r == if m.Some? then Some(0 - m.value) else None
  {
    hide Value;
    if |d| == 0 {
      return None;
    }
    var ok, v, last := ReadDigits(d);
    if !ok {
      return None;
    }
    LastDigit(d);
    if |d| < 19 {
      ShortDigits(d);
      return Some(Negate(ToInt64((v * 10 + last) % TWO_POW_64)));
    }
    if |d| == 19 {
      if v > (TWO_POW_63 - last) / 10 {
        return None;
      }
      return Some(Negate(ToInt64((v * 10 + last) % TWO_POW_64)));
    }
    return None;
  }

  method FastAtoi(s: string) returns (r: Option<int64>)
    requires s != ""
    ensures r == AtoiValue(s)
  {
    hide Magnitude;
    if s[0] != '-' {
      r := ReadPositive(if s[0] == '+' then s[1..] else s);
    } else {
      r := ReadNegative(s[1..]);
    }
  }

  /** Two's complement negation; the minimum is its own negation. */
  function Negate(x: int64): int64 {
    if x == MIN_INT64 then MIN_INT64 else 0 - x
  }

  /**
   Of the texts of integers the reader accepts exactly those of [-2^63, 2^64-1], and the
   result is the value modulo 2^64; so printing an int64 and reading it is the identity.
   */
  lemma AtoiOfText(i: int)
    ensures AtoiValue(IntText(i)).Some? <==> -TWO_POW_63 <= i < TWO_POW_64
    ensures MIN_INT64 <= i <= MAX_INT64 ==> AtoiValue(IntText(i)) == Some(i)
    ensures TWO_POW_63 <= i < TWO_POW_64 ==> AtoiValue(IntText(i)) == Some(i - TWO_POW_64)
  {
    hide Text, Value, Pow10;
    var n := if i < 0 then -i else i;
    ValueOfText(n);
    TextIsCanonical(n);
    TextLength(n, 19);
    TextLength(n, 20);
    PowerTable(19);
    PowerTable(20);
    if i < 0 {
      assert IntText(i)[1..] == Text(n);
    }
  }

  /** The same for every canonical digit string, with and without a sign before it; also for "-0". */
  lemma AtoiOfCanonical(s: string)
    requires Canonical(s)
    ensures AtoiValue(s) == AtoiValue("+" + s) == if Value(s) < TWO_POW_64 then Some(ToInt64(Value(s))) else None
    ensures AtoiValue("-" + s) == if Value(s) <= TWO_POW_63 then Some(0 - Value(s)) else None
  {
    hide Text, Value, Pow10, ToInt64;
    var n := Value(s);
    TextOfValue(s);
    TextLength(n, 19);
    TextLength(n, 20);
    PowerTable(19);
    PowerTable(20);
    assert ("+" + s)[1..] == s && ("-" + s)[1..] == s;
  }
}
