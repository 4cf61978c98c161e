/**
 * Integer flags: printing with a unit and reading back (src/flag.cc:50-69 and 78-105,
 * src/str.cc:224-322). errno is passed in and out: `erange` says whether it is ERANGE.
 */
module FlagInt {
  import opened Common
  import opened Decimal

  // ----- strtoll and strtoull with base 0 -----

  predicate IsSpace(c: char) {
    c == ' ' || '\t' <= c <= '\r'
  }

  /** The value of a digit in any base up to 16, 16 for other characters. */
  function HexDigit(c: char): (d: nat)
    ensures d <= 16
  {
    if '0' <= c <= '9' then c as int - '0' as int
    else if 'a' <= c <= 'f' then c as int - 'a' as int + 10
    else if 'A' <= c <= 'F' then c as int - 'A' as int + 10
    else 16
  }

  /** Past the spaces from i on. */
  function SkipSpaces(s: string, i: nat): (e: nat)
    requires i <= |s|
    ensures i <= e <= |s|
    decreases |s| - i
  {
    if i < |s| && IsSpace(s[i]) then SkipSpaces(s, i + 1) else i
  }

  /** Past the digits from i on. */
  function DigitsEnd(s: string, i: nat, base: nat): (e: nat)
    requires i <= |s|
    ensures i <= e <= |s|
    ensures forall k :: i <= k < e ==> HexDigit(s[k]) < base
    decreases |s| - i
  {
    if i < |s| && HexDigit(s[i]) < base then DigitsEnd(s, i + 1, base) else i
  }

  function DigitsValue(s: string, base: nat): nat {
    if s == "" then 0 else DigitsValue(s[..|s| - 1], base) * base + HexDigit(s[|s| - 1])
  }

  /** What both functions read: sign, magnitude, and where they stop. */
  datatype Scanned = Scanned(negative: bool, magnitude: nat, end: nat)

  function Scan(s: string): (r: Scanned)
    ensures r.end <= |s|
  {
    var i := SkipSpaces(s, 0);
    var negative := i < |s| && s[i] == '-';
    var j := if i < |s| && (s[i] == '-' || s[i] == '+') then i + 1 else i;
    var hex := j + 2 < |s| && s[j] == '0' && (s[j + 1] == 'x' || s[j + 1] == 'X') && HexDigit(s[j + 2]) < 16;
    var base := if hex then 16 else if j < |s| && s[j] == '0' then 8 else 10;
    var b := if hex then j + 2 else j;
    var e := DigitsEnd(s, b, base);
    if e == b then Scanned(false, 0, 0) else Scanned(negative, DigitsValue(s[b..e], base), e)
  }

  function Signed(n: Scanned): int {
    if n.negative then 0 - n.magnitude else n.magnitude
  }

  function Clamp(v: int): int64 {
    if v < MIN_INT64 then MIN_INT64 else if v > MAX_INT64 then MAX_INT64 else v
  }

  /** strtoull negates in 64 bits. */
  function Wrap(n: Scanned): uint64 {
    if n.magnitude > MAX_UINT64 then MAX_UINT64 else Signed(n) % TWO_POW_64
  }

  // ----- str::to_* -----

  function Shift(c: char): nat {
    match c
    case 'k' => 10
    case 'K' => 10
    case 'm' => 20
    case 'M' => 20
    case 'g' => 30
    case 'G' => 30
    case 't' => 40
    case 'T' => 40
    case 'p' => 50
    case 'P' => 50
    case _ => 0
  }

  function Unit(shift: nat): (p: nat)
    ensures p > 0
  {
    match shift case 10 => 0x400 case 20 => 0x10_0000 case 30 => 0x4000_0000 case 40 => 0x100_0000_0000
                case 50 => 0x4_0000_0000_0000 case _ => 1
  }

  /** A value, None for an exception, and errno afterwards. */
  datatype Result<T> = Result(value: Option<T>, erange: bool)

  function ParseInt64(s: string, erange: bool): Result<int64> {
    if s == "" then Result(Some(0), erange)
    else
      var n := Scan(s);
      var x := Clamp(Signed(n));
      var e := erange || x != Signed(n);
      if e && (x == MIN_INT64 || x == MAX_INT64) then Result(None, false)
      else if n.end == |s| then Result(Some(x), e)
      else
        var shift := if n.end == |s| - 1 then Shift(s[|s| - 1]) else 0;
        if shift == 0 then Result(None, e)
        else if x == 0 then Result(Some(0), e)
        else if x < MIN_INT64 / Unit(shift) || x > MAX_INT64 / Unit(shift) then Result(None, e)
        else (UnitInRange(x, shift); Result(Some(x * Unit(shift)), e))
  }

  lemma UnitInRange(x: int, shift: nat)
    requires MIN_INT64 / Unit(shift) <= x <= MAX_INT64 / Unit(shift)
    ensures MIN_INT64 <= x * Unit(shift) <= MAX_INT64
  {
    if shift == 10 {
    } else if shift == 20 {
    } else if shift == 30 {
    } else if shift == 40 {
    } else if shift == 50 {
    }
  }

  /** -x in 64 bits. */
  function AbsInt64(x: int64): int64 {
    if x < 0 then ToInt64((0 - x) % TWO_POW_64) else x
  }

  /** MAX_UINT64 >> shift */
  function UnitLimit(shift: nat): nat {
    MAX_UINT64 / Unit(shift)
  }

  /** What to_uint64 makes of a magnitude with a unit. */
  function WithUnit(m: uint64, shift: nat): Option<uint64> {
    var x := ToInt64(m);
    if x == 0 then Some(0)
    else if AbsInt64(x) > UnitLimit(shift) then None
    else Some(x * Unit(shift) % TWO_POW_64)
  }

  function ParseUint64(s: string, erange: bool): Result<uint64> {
    if s == "" then Result(Some(0), erange)
    else
      var n := Scan(s);
      var u := Wrap(n);
      var e := erange || n.magnitude > MAX_UINT64;
      if e && u == MAX_UINT64 then Result(None, false)
      else if n.end == |s| then Result(Some(u), e)
      else
        var shift := if n.end == |s| - 1 then Shift(s[|s| - 1]) else 0;
        if shift == 0 then Result(None, e)
        else Result(WithUnit(u, shift), e)
  }

  function ParseInt32(s: string, erange: bool): Result<int32> {
    var r := ParseInt64(s, erange);
    if r.value.None? || r.value.value > MAX_INT32 || r.value.value < MIN_INT32 then Result(None, r.erange)
    else Result(Some(r.value.value), r.erange)
  }

  function ParseUint32(s: string, erange: bool): Result<uint32> {
    var r := ParseUint64(s, erange);
    if r.value.None? || AbsInt64(ToInt64(r.value.value)) > MAX_UINT32 then Result(None, r.erange)
    else Result(Some(ToInt64(r.value.value) % TWO_POW_32), r.erange)
  }

  // ----- what the texts denote -----

  /** The number in s with its unit; None if it is not a number. */
  function Number(s: string): Option<int> {
    if s == "" then Some(0)
    else
      var n := Scan(s);
      if n.end == |s| then Some(Signed(n))
      else if n.end == |s| - 1 && Shift(s[|s| - 1]) != 0 then Some(Signed(n) * Unit(Shift(s[|s| - 1])))
      else None
  }

  /** The stale ERANGE of an earlier call hits exactly the two extreme readings. */
  predicate HitByErrno(s: string, erange: bool) {
    erange && s != "" && (Clamp(Signed(Scan(s))) == MIN_INT64 || Clamp(Signed(Scan(s))) == MAX_INT64)
  }

  /** to_int64 returns the number denoted if that is an int64, and throws otherwise: no wrong decision
      about overflow, units included. The one exception is an extreme reading with errno left over. */
  lemma Int64Exact(s: string, erange: bool)
    ensures ParseInt64(s, erange).value ==
            if HitByErrno(s, erange) then None
            else match Number(s)
                 case None => None
                 case Some(v) => if MIN_INT64 <= v <= MAX_INT64 then Some(v as int64) else None
  {
    if s != "" {
      var n := Scan(s);
      var shift := if n.end == |s| - 1 then Shift(s[|s| - 1]) else 0;
      UnitCases(Signed(n), shift);
      UnitCases(Clamp(Signed(n)), shift);
    }
  }

  /** The range checks before the shift are exact. */
  lemma UnitCases(x: int, shift: nat)
    ensures x < MIN_INT64 / Unit(shift) <==> x * Unit(shift) < MIN_INT64
    ensures x > MAX_INT64 / Unit(shift) <==> x * Unit(shift) > MAX_INT64
    ensures x > MAX_UINT64 / Unit(shift) <==> x * Unit(shift) > MAX_UINT64
  {
    if shift == 10 {
    } else if shift == 20 {
    } else if shift == 30 {
    } else if shift == 40 {
    } else if shift == 50 {
    }
  }

  function UnitShift(s: string): nat
    requires s != ""
  {
    if Scan(s).end == |s| - 1 then Shift(s[|s| - 1]) else 0
  }

  /** The texts to_uint64 gets wrong. Unsigned ones: the greatest value with errno left over, and numbers
      with a unit so large that they look like small negative ones. With a minus sign and a number other
      than zero: all that it takes for 2^64 minus that number instead of refusing them. */
  predicate Misjudged(s: string, erange: bool) {
    s != "" &&
    var n := Scan(s);
    var shift := UnitShift(s);
    && n.magnitude <= MAX_UINT64
    && if n.negative && n.magnitude > 0 then
         !(erange && n.magnitude == 1) && (n.end == |s| || (shift != 0 && LooksNear(n.magnitude, shift, true)))
       else
         || (erange && n.magnitude == MAX_UINT64 && n.end == |s|)
         || (shift != 0 && !(erange && n.magnitude == MAX_UINT64) && LooksNear(n.magnitude, shift, false))
  }

  /** Whether the distance of m from 2^64 (and from 0, if asked for) passes the range check of the unit. */
  predicate LooksNear(m: nat, shift: nat, fromZero: bool) {
    m == TWO_POW_63 || TWO_POW_64 - m <= UnitLimit(shift) || (fromZero && m <= UnitLimit(shift))
  }

  function InUint64(v: int): Option<uint64> {
    if 0 <= v <= MAX_UINT64 then Some(v) else None
  }

  /** What the shifted range check compares with. */
  lemma LimitFacts(m: nat, shift: nat)
    requires shift in {10, 20, 30, 40, 50}
    ensures UnitLimit(shift) < TWO_POW_63
    ensures m > UnitLimit(shift) <==> m * Unit(shift) > MAX_UINT64
  {
    UnitCases(m, shift);
    LargeTimesUnit(m, shift);
  }

  lemma AbsCases(m: uint64)
    ensures m < TWO_POW_63 ==> ToInt64(m) == m && AbsInt64(ToInt64(m)) == m
    ensures m == TWO_POW_63 ==> AbsInt64(ToInt64(m)) == MIN_INT64
    ensures m > TWO_POW_63 ==> AbsInt64(ToInt64(m)) == TWO_POW_64 - m
    ensures ToInt64(m) == 0 <==> m == 0
  {
  }

  lemma WithUnitSome(m: uint64, shift: nat)
    requires shift in {10, 20, 30, 40, 50}
    ensures WithUnit(m, shift).Some? <==> m == TWO_POW_63 || m <= UnitLimit(shift) || TWO_POW_64 - m <= UnitLimit(shift)
  {
    hide Unit, UnitLimit, AbsInt64, ToInt64;
    LimitFacts(m, shift);
    AbsCases(m);
  }

  lemma WithUnitValue(m: uint64, shift: nat)
    requires shift in {10, 20, 30, 40, 50} && m <= UnitLimit(shift)
    ensures WithUnit(m, shift) == Some(m * Unit(shift))
  {
    hide Unit, UnitLimit, AbsInt64, ToInt64;
    LimitFacts(m, shift);
    AbsCases(m);
    SmallModulo(m * Unit(shift));
    if m == 0 {
      assert 0 * Unit(shift) == 0;
    }
  }

  lemma WithUnitExact(m: uint64, shift: nat)
    requires shift in {10, 20, 30, 40, 50}
    ensures WithUnit(m, shift) == InUint64(m * Unit(shift)) <==> !LooksNear(m, shift, false)
  {
    hide WithUnit, Unit, UnitLimit;
    WithUnitSome(m, shift);
    LimitFacts(m, shift);
    if m <= UnitLimit(shift) {
      WithUnitValue(m, shift);
    }
  }

  lemma SmallModulo(v: uint64)
    ensures v % TWO_POW_64 == v
  {
  }

  /** The number behind a minus sign wraps; the check of its unit sees the distance from 2^64. */
  lemma NegativeWithUnit(m: uint64, shift: nat)
    requires m > 0 && shift in {10, 20, 30, 40, 50}
    ensures WithUnit(TWO_POW_64 - m, shift).Some? <==> LooksNear(m, shift, true)
  {
    hide WithUnit, UnitLimit;
    WithUnitSome(TWO_POW_64 - m, shift);
  }

  /** to_uint64 on every text: right about value and overflow exactly if not misjudged. */
  lemma Uint64Exact(s: string, erange: bool)
    ensures ParseUint64(s, erange).value ==
              (match Number(s) case None => None case Some(v) => InUint64(v))
            <==> !Misjudged(s, erange)
  {
    if s != "" {
      if Scan(s).magnitude > MAX_UINT64 {
        OversizeExact(s, erange);
      } else if Scan(s).negative && Scan(s).magnitude > 0 {
        NegativeExact(s, erange);
      } else {
        UnsignedExact(s, erange);
      }
    }
  }

  /** to_uint64 reads "-1" as the greatest value. */
  lemma MinusOneMisjudged()
    ensures Number("-1") == Some(-1) && Misjudged("-1", false)
    ensures ParseUint64("-1", false).value == Some(MAX_UINT64)
  {
    ScanDecimal("-1", 1, 2);
    assert "-1"[1..2] == "1" && "1"[..0] == "";
  }

  /** 2^63 with a unit behind it is read as 0. */
  lemma LargeUnitMisjudged()
    ensures Number(Text(TWO_POW_63) + "k") == Some(TWO_POW_63 * 1024) && Misjudged(Text(TWO_POW_63) + "k", false)
    ensures ParseUint64(Text(TWO_POW_63) + "k", false).value == Some(0)
  {
    hide Scan, Text;
    ScanText(TWO_POW_63, "k");
  }

  lemma OversizeExact(s: string, erange: bool)
    requires s != "" && Scan(s).magnitude > MAX_UINT64
    ensures ParseUint64(s, erange).value == None
    ensures Number(s).Some? ==> InUint64(Number(s).value) == None
  {
    hide Scan, Unit;
    MoreThanOne(Scan(s).magnitude, UnitShift(s));
  }

  lemma NegativeExact(s: string, erange: bool)
    requires s != "" && Scan(s).negative && 0 < Scan(s).magnitude <= MAX_UINT64
    ensures Number(s).Some? ==> InUint64(Number(s).value) == None
    ensures ParseUint64(s, erange).value.Some? <==> Misjudged(s, erange)
  {
    hide Scan, Unit, WithUnit, LooksNear;
    var n := Scan(s);
    ShiftIsUnit(s[|s| - 1]);
    WrapsAround(n.magnitude);
    assert Wrap(n) == TWO_POW_64 - n.magnitude;
    BelowZero(n.magnitude, UnitShift(s));
    if UnitShift(s) != 0 {
      NegativeWithUnit(n.magnitude, UnitShift(s));
    }
  }

  lemma WrapsAround(m: uint64)
    requires m > 0
    ensures (0 - m) % TWO_POW_64 == TWO_POW_64 - m
  {
  }

  lemma BelowZero(m: nat, shift: nat)
    requires m > 0
    ensures (0 - m) * Unit(shift) < 0
  {
  }

  lemma UnsignedExact(s: string, erange: bool)
    requires s != "" && Scan(s).magnitude <= MAX_UINT64 && (Scan(s).negative ==> Scan(s).magnitude == 0)
    ensures ParseUint64(s, erange).value ==
              (match Number(s) case None => None case Some(v) => InUint64(v))
            <==> !Misjudged(s, erange)
  {
    hide Scan, Unit, UnitLimit, WithUnit, LooksNear;
    var n := Scan(s);
    var shift := UnitShift(s);
    ShiftIsUnit(s[|s| - 1]);
    SmallModulo(n.magnitude);
    assert Signed(n) == n.magnitude;
    if shift != 0 {
      WithUnitExact(n.magnitude, shift);
      LargeTimesUnit(n.magnitude, shift);
    }
  }

  lemma ShiftIsUnit(c: char)
    ensures Shift(c) in {0, 10, 20, 30, 40, 50}
  {
  }

  lemma MoreThanOne(m: nat, shift: nat)
    requires m > MAX_UINT64
    ensures m * Unit(shift) > MAX_UINT64
  {
    assert m * Unit(shift) >= m;
  }

  lemma LargeTimesUnit(m: nat, shift: nat)
    ensures shift in {10, 20, 30, 40, 50} ==> MAX_UINT64 / Unit(shift) < TWO_POW_63
    ensures m >= TWO_POW_63 && shift in {10, 20, 30, 40, 50} ==> m * Unit(shift) > MAX_UINT64
  {
    if shift == 10 {
    } else if shift == 20 {
    } else if shift == 30 {
    } else if shift == 40 {
    } else if shift == 50 {
    }
  }

  // ----- printing with a unit -----

  const UNITS: seq<char> := ['k', 'm', 'g', 't', 'p']

  /** What is left of t after i units and at most five in all. */
  function Reduce(t: int, i: nat): (r: (int, nat))
    requires i <= 5
    ensures i <= r.1 <= 5
    decreases 5 - i
  {
    if i < 5 && t != 0 && t % 1024 == 0 then Reduce(t / 1024, i + 1) else (t, i)
  }

  function FlagText(t: int): string {
    if -8192 <= t <= 8192 then IntText(t)
    else
      var (x, i) := Reduce(t, 0);
      if i == 0 then IntText(x) else IntText(x) + [UNITS[i - 1]]
  }

  /** int_to_string: i runs from -1. */
  method IntToString(t: int) returns (r: string)
    ensures r == FlagText(t)
  {
    if (0 <= t && t <= 8192) || (t < 0 && t >= -8192) {
      return IntText(t);
    }
    var x, i := t, -1;
    while x != 0 && x % 1024 == 0
      invariant -1 <= i < 4
      invariant Reduce(t, 0) == Reduce(x, i + 1)
      decreases 4 - i
    {
      x := x / 1024;
      i := i + 1;
      if i >= 4 {
        break;
      }
    }
    r := if i < 0 then IntText(x) else IntText(x) + [UNITS[i]];
  }

  lemma {:induction false} ReduceKeepsValue(t: int, i: nat)
    requires i <= 5
    ensures Reduce(t, i).0 * Pow1024(Reduce(t, i).1 - i) == t
    ensures t != 0 ==> Reduce(t, i).0 != 0
    decreases 5 - i
  {
    if i < 5 && t != 0 && t % 1024 == 0 {
      var (x, j) := Reduce(t / 1024, i + 1);
      ReduceKeepsValue(t / 1024, i + 1);
      assert x * (1024 * Pow1024(j - i - 1)) == 1024 * (x * Pow1024(j - i - 1));
    }
  }

  function Pow1024(k: nat): (p: nat)
    ensures p > 0
  {
    if k == 0 then 1 else 1024 * Pow1024(k - 1)
  }

  lemma UnitOfIndex(i: nat)
    requires 1 <= i <= 5
    ensures Shift(UNITS[i - 1]) == 10 * i && Unit(10 * i) == Pow1024(i) && HexDigit(UNITS[i - 1]) >= 10
  {
    assert Pow1024(1) == 1024;
    assert Pow1024(2) == 1024 * Pow1024(1);
    assert Pow1024(3) == 1024 * Pow1024(2);
    assert Pow1024(4) == 1024 * Pow1024(3);
    assert Pow1024(5) == 1024 * Pow1024(4);
  }

  // ----- reading undoes printing -----

  lemma {:induction false} DigitsEndAt(s: string, i: nat, e: nat, base: nat)
    requires i <= e <= |s| && (forall k :: i <= k < e ==> HexDigit(s[k]) < base)
    requires e < |s| ==> HexDigit(s[e]) >= base
    ensures DigitsEnd(s, i, base) == e
    decreases e - i
  {
    if i < e {
      DigitsEndAt(s, i + 1, e, base);
    }
  }

  lemma {:induction false} DecimalValue(s: string)
    requires AllDigits(s)
    ensures DigitsValue(s, 10) == Value(s)
    decreases |s|
  {
    if s != "" {
      DecimalValue(s[..|s| - 1]);
    }
  }

  /** The text of x, followed by a unit letter or nothing, is read as x up to the letter. */
  lemma ScanText(x: int, u: string)
    requires u == "" || (x != 0 && |u| == 1 && HexDigit(u[0]) >= 10)
    ensures var n := Scan(IntText(x) + u);
            n.end == |IntText(x)| && Signed(n) == x && (n.negative <==> x < 0) && n.magnitude == if x < 0 then -x else x
  {
    hide IntText, Scan;
    if x == 0 {
      ZeroText();
      assert IntText(x) + u == "0";
      ScanZero();
    } else {
      ScanNonZero(if x < 0 then -x else x, x < 0, u);
      SignedText(x);
    }
  }

  lemma SignedText(x: int)
    ensures IntText(x) == (if x < 0 then "-" else "") + Text(if x < 0 then -x else x)
  {
    hide Text;
    assert "" + Text(if x < 0 then -x else x) == Text(if x < 0 then -x else x);
  }

  lemma ScanZero()
    ensures Scan("0") == Scanned(false, 0, 1)
  {
    ZeroText();
    DigitsEndAt("0", 0, 1, 8);
    assert "0"[0..1] == "0";
  }

  /** A decimal number that does not start with '0'. */
  lemma ScanDecimal(s: string, j: nat, e: nat)
    requires j < e <= |s| && (j == 0 || (j == 1 && s[0] == '-')) && s[j] != '0'
    requires forall k :: j <= k < e ==> IsDigit(s[k])
    requires e < |s| ==> HexDigit(s[e]) >= 10
    ensures Scan(s) == Scanned(j == 1, DigitsValue(s[j..e], 10), e)
  {
    hide DigitsValue, DigitsEnd;
    DigitsEndAt(s, j, e, 10);
    assert IsDigit(s[j]) && SkipSpaces(s, 0) == 0;
  }

  lemma Middle(a: string, b: string, c: string)
    ensures var s := a + b + c;
            && s[|a|..|a| + |b|] == b
            && (forall k :: |a| <= k < |a| + |b| ==> s[k] == b[k - |a|])
            && (forall k :: 0 <= k < |a| ==> s[k] == a[k])
            && (forall k :: |a| + |b| <= k < |s| ==> s[k] == c[k - |a| - |b|])
  {
  }

  lemma ScanNonZero(m: nat, negative: bool, u: string)
    requires m > 0 && (u == "" || (|u| == 1 && HexDigit(u[0]) >= 10))
    ensures var t := (if negative then "-" else "") + Text(m); Scan(t + u) == Scanned(negative, m, |t|)
  {
    hide Text, Value, DigitsValue, Scan, HexDigit, IsDigit;
    var sign := if negative then "-" else "";
    var s := sign + Text(m) + u;
    var j, e := |sign|, |sign| + |Text(m)|;
    TextIsCanonical(m);
    ValueOfText(m);
    DecimalValue(Text(m));
    Middle(sign, Text(m), u);
    ScanDecimal(s, j, e);
  }

  lemma ZeroText()
    ensures Text(0) == "0" && DigitsValue("0", 8) == 0 && IntText(0) == "0"
  {
    assert "0"[..0] == "";
    assert Text(0) == [DigitChar(0)];
  }

  function Abs(t: int): nat {
    if t < 0 then 0 - t else t
  }

  lemma ReducedIsSmaller(x: int, k: nat)
    ensures k > 0 ==> Abs(x) * 1024 <= Abs(x * Pow1024(k))
    ensures x > 0 <==> x * Pow1024(k) > 0
    ensures x < 0 <==> x * Pow1024(k) < 0
    ensures k == 0 ==> x * Pow1024(k) == x
  {
    var p := Pow1024(k);
    if k > 0 {
      assert p == 1024 * Pow1024(k - 1) && p >= 1024;
      assert Abs(x) * 1024 <= Abs(x) * p;
    }
    assert Abs(x * p) == Abs(x) * p;
  }

  /** The printed text denotes t; without a unit it is read as t, with one as something much smaller. */
  lemma FlagTextDenotes(t: int)
    ensures FlagText(t) != "" && Number(FlagText(t)) == Some(t)
    ensures var n := Scan(FlagText(t));
            && (n.negative <==> t < 0) && n.magnitude == Abs(Signed(n))
            && (n.end == |FlagText(t)| ==> Signed(n) == t && (-8192 <= t <= 8192 || t % 1024 != 0))
            && (n.end != |FlagText(t)| ==> n.end == |FlagText(t)| - 1 && Abs(Signed(n)) * 1024 <= Abs(t) && t % 1024 == 0)
  {
    hide Scan, Reduce, IntText;
    if -8192 <= t <= 8192 {
      assert IntText(t) + "" == IntText(t);
      ScanText(t, "");
    } else {
      var (x, i) := Reduce(t, 0);
      ReduceKeepsValue(t, 0);
      UnitIffDivisible(t);
      ReducedIsSmaller(x, i);
      if i == 0 {
        assert IntText(x) + "" == IntText(x);
        ScanText(x, "");
      } else {
        UnitOfIndex(i);
        ScanText(x, [UNITS[i - 1]]);
      }
    }
  }

  lemma UnitIffDivisible(t: int)
    requires t != 0
    ensures Reduce(t, 0).1 == 0 <==> t % 1024 != 0
  {
  }

  /** Every int64 survives, unless it is the greatest one and errno is ERANGE from before. */
  lemma Int64RoundTrip(t: int64, erange: bool)
    ensures ParseInt64(FlagText(t), erange).value == if erange && t == MAX_INT64 then None else Some(t)
  {
    hide Scan, FlagText, ParseInt64, Number;
    FlagTextDenotes(t);
    Int64Exact(FlagText(t), erange);
    var x := Signed(Scan(FlagText(t)));
    assert x == t || Abs(x) * 1024 <= Abs(t);
    assert HitByErrno(FlagText(t), erange) <==> erange && t == MAX_INT64;
  }

  lemma GreatestIsRefused(s: string)
    requires s != "" && Scan(s).magnitude == MAX_UINT64 && !Scan(s).negative
    ensures ParseUint64(s, true).value == None
  {
    hide Scan;
    SmallModulo(MAX_UINT64);
  }

  lemma Uint64RoundTrip(t: uint64, erange: bool)
    ensures ParseUint64(FlagText(t), erange).value == if erange && t == MAX_UINT64 then None else Some(t)
  {
    hide Scan, FlagText, ParseUint64, Number, Unit;
    FlagTextDenotes(t);
    Uint64Exact(FlagText(t), erange);
    ShiftIsUnit(FlagText(t)[|FlagText(t)| - 1]);
    LargeTimesUnit(t, UnitShift(FlagText(t)));
    if t == MAX_UINT64 {
      GreatestIsRefused(FlagText(t));
    }
    assert Misjudged(FlagText(t), erange) <==> erange && t == MAX_UINT64;
  }

  /** The 32-bit types survive whatever errno holds. */
  lemma Int32RoundTrip(t: int32, erange: bool)
    ensures ParseInt32(FlagText(t), erange).value == Some(t)
  {
    hide FlagText, ParseInt64;
    Int64RoundTrip(t, erange);
  }

  lemma Uint32RoundTrip(t: uint32, erange: bool)
    ensures ParseUint32(FlagText(t), erange).value == Some(t)
  {
    hide FlagText, ParseUint64;
    Uint64RoundTrip(t, erange);
  }

  // ----- the flag -----

  datatype Type = TYPE_int32 | TYPE_uint32 | TYPE_int64 | TYPE_uint64

  predicate InType(t: Type, v: int) {
    match t
    case TYPE_int32 => MIN_INT32 <= v <= MAX_INT32
    case TYPE_uint32 => 0 <= v <= MAX_UINT32
    case TYPE_int64 => MIN_INT64 <= v <= MAX_INT64
    case TYPE_uint64 => 0 <= v <= MAX_UINT64
  }

  /** The greatest value of the 64-bit types. */
  predicate IsGreatest64(t: Type, v: int) {
    (t == TYPE_int64 && v == MAX_INT64) || (t == TYPE_uint64 && v == MAX_UINT64)
  }

  /** The conversion flag_set_value chooses. */
  function Parsed(t: Type, s: string, erange: bool): (r: Option<int>)
    ensures r.Some? ==> InType(t, r.value)
  {
    match t
    case TYPE_int32 => ParseInt32(s, erange).value
    case TYPE_uint32 => ParseUint32(s, erange).value
    case TYPE_int64 => ParseInt64(s, erange).value
    case TYPE_uint64 => ParseUint64(s, erange).value
  }

  /** What is printed for a value is read back as that value, for every type and value, unless errno
      still holds ERANGE and the value is the greatest of a 64-bit type: then it is refused. */
  lemma FlagRoundTrip(t: Type, x: int, erange: bool)
    requires InType(t, x)
    ensures Parsed(t, FlagText(x), erange) == if erange && IsGreatest64(t, x) then None else Some(x)
  {
    hide FlagText, ParseInt64, ParseUint64, ParseInt32, ParseUint32;
    match t
    case TYPE_int32 => Int32RoundTrip(x, erange);
    case TYPE_uint32 => Uint32RoundTrip(x, erange);
    case TYPE_int64 => Int64RoundTrip(x, erange);
    case TYPE_uint64 => Uint64RoundTrip(x, erange);
  }

  class Flag {
    const kind: Type
    /** The variable at addr. */
    var value: int

    ghost predicate Valid()
      reads this
    {
      InType(kind, value)
    }

    constructor (t: Type, v: int)
      requires InType(t, v)
      ensures Valid() && kind == t && value == v
    {
      kind, value := t, v;
    }

    /** flag_get_value. */
    method GetValue() returns (s: string)
      requires Valid()
      ensures s == FlagText(value)
    {
      s := IntToString(value);
    }

    /** flag_set_value: nothing is written when the text is refused. */
    method SetValue(v: string, erange: bool) returns (ok: bool)
      requires Valid()
      modifies this
      ensures Valid()
      ensures ok <==> Parsed(kind, v, erange).Some?
      ensures value == if ok then Parsed(kind, v, erange).value else old(value)
    {
      hide ParseInt64, ParseUint64, ParseInt32, ParseUint32;
      var p := Parsed(kind, v, erange);
      ok := p.Some?;
      if ok {
        value := p.value;
      }
    }

    /** Printing a flag and setting the text again restores it. */
    method Restore(other: Flag, erange: bool) returns (ok: bool)
      requires Valid() && other.Valid() && other.kind == kind
      modifies this
      ensures Valid()
      ensures ok <==> !(erange && IsGreatest64(kind, old(other.value)))
      ensures ok ==> value == old(other.value)
      ensures !ok ==> value == old(value)
    {
      hide FlagText, Parsed;
      var s := other.GetValue();
      FlagRoundTrip(kind, other.value, erange);
      ok := SetValue(s, erange);
    }
  }
}
