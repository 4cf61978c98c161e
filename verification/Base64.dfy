/** Base64 of src/hash/base64.cc, against section 4 of RFC 4648. */
module Base64 {
  import opened Common

  type Sextet = i: int | 0 <= i < 64

  /** entab. */
  function Symbol(i: Sextet): char {
    if i < 26 then 'A' + i as char
    else if i < 52 then 'a' + (i - 26) as char
    else if i < 62 then '0' + (i - 52) as char
    else if i == 62 then '+'
    else '/'
  }

  /** detab: the value of a symbol, -1 for any other character. */
  function Detab(c: char): (r: int)
    ensures -1 <= r < 64
  {
    if 'A' <= c <= 'Z' then c as int - 'A' as int
    else if 'a' <= c <= 'z' then c as int - 'a' as int + 26
    else if '0' <= c <= '9' then c as int - '0' as int + 52
    else if c == '+' then 62
    else if c == '/' then 63
    else -1
  }

  lemma SymbolDecodes(i: Sextet)
    ensures Detab(Symbol(i)) == i && Symbol(i) !in ['=', '\r', '\n']
  {
  }

  /** The alphabet of RFC 4648, table 1: letters, small letters and digits in their order, then '+' and '/';
      the decoder knows these characters and no others. */
  lemma AlphabetIsRfc(i: Sextet, c: char)
    ensures Symbol(0) == 'A' && Symbol(26) == 'a' && Symbol(52) == '0' && Symbol(62) == '+' && Symbol(63) == '/'
    ensures i !in [25, 51, 61, 62, 63] ==> Symbol(i + 1) as int == Symbol(i) as int + 1
    ensures Detab(c) == i <==> c == Symbol(i)
    ensures Detab(c) == -1 <==> forall j: Sextet :: c != Symbol(j)
  {
    SymbolDecodes(i);
    if Detab(c) >= 0 {
      assert Symbol(Detab(c)) == c;
    } else {
      forall j: Sextet ensures c != Symbol(j) {
        SymbolDecodes(j);
      }
    }
  }

  // ----- the encoding by 24-bit groups -----

  function Group24(a: byte, b: byte, c: byte): (n: nat)
    ensures n < 0x100_0000
  {
    a * 0x1_0000 + b * 0x100 + c
  }

  /** Sextet k of a 24-bit group, from the left. */
  function SextetOf(n: nat, k: nat): Sextet
    requires n < 0x100_0000 && k < 4
  {
    (if k == 0 then n / 0x4_0000 else if k == 1 then n / 0x1000 else if k == 2 then n / 0x40 else n) % 64
  }

  /** The four characters of up to three bytes: zero bits fill up, '=' pads. */
  function EncodeGroup(x: seq<byte>): (q: string)
    requires 1 <= |x| <= 3
    ensures |q| == 4
  {
    var n := Group24(x[0], if |x| > 1 then x[1] else 0, if |x| > 2 then x[2] else 0);
    [Symbol(SextetOf(n, 0)), Symbol(SextetOf(n, 1)),
     if |x| > 1 then Symbol(SextetOf(n, 2)) else '=',
     if |x| > 2 then Symbol(SextetOf(n, 3)) else '=']
  }

  function Encode(x: seq<byte>): string
  {
    if x == [] then ""
    else if |x| <= 3 then EncodeGroup(x)
    else EncodeGroup(x[..3]) + Encode(x[3..])
  }

  lemma QuotientIs(n: nat, d: nat, q: nat, r: nat)
    requires d > 0 && n == q * d + r && r < d
    ensures n / d == q
  {
    var e, f := n / d, n % d;
    assert e * d + f == q * d + r;
    if e > q {
      Gap(e, q, d);
    } else if e < q {
      Gap(q, e, d);
    }
  }

  lemma Gap(x: nat, y: nat, d: nat)
    requires x > y
    ensures x * d >= y * d + d
  {
    assert x * d == y * d + (x - y) * d;
    assert (x - y) * d == d + (x - y - 1) * d;
  }

  /** The divisor that brings sextet k to the right end. */
  function SextetUnit(k: nat): (d: nat)
    requires k < 4
    ensures d > 0
  {
    if k == 0 then 0x4_0000 else if k == 1 then 0x1000 else if k == 2 then 0x40 else 1
  }

  /** Sextet k of n, when n is cut at its two ends. */
  lemma SextetIs(n: nat, k: nat, upper: nat, s: Sextet, lower: nat)
    requires n < 0x100_0000 && k < 4 && lower < SextetUnit(k) && n == (upper * 64 + s) * SextetUnit(k) + lower
    ensures SextetOf(n, k) == s
  {
    QuotientIs(n, SextetUnit(k), upper * 64 + s, lower);
    assert (upper * 64 + s) % 64 == s;
  }

  /** A group whose bytes are cut where the sextets are. */
  lemma GroupParts(a1: nat, a0: nat, b1: nat, b0: nat, c1: nat, c0: nat)
    ensures var n := (a1 * 4 + a0) * 0x1_0000 + (b1 * 16 + b0) * 0x100 + (c1 * 64 + c0);
            && n == a1 * 0x4_0000 + (a0 * 0x1_0000 + (b1 * 16 + b0) * 0x100 + (c1 * 64 + c0))
            && n == (a1 * 64 + (a0 * 16 + b1)) * 0x1000 + (b0 * 0x100 + (c1 * 64 + c0))
            && n == (((a1 * 4 + a0) * 16 + b1) * 64 + (b0 * 4 + c1)) * 0x40 + c0
            && n == ((a1 * 4 + a0) * 0x400 + (b1 * 16 + b0) * 4 + c1) * 64 + c0
  {
  }

  /** The shifts and masks of the source cut the group into the same sextets. */
  lemma ShiftsAreSextets(a: byte, b: byte, c: byte)
    ensures a / 4 == SextetOf(Group24(a, b, c), 0)
    ensures (a % 4) * 16 + b / 16 == SextetOf(Group24(a, b, c), 1)
    ensures (b % 16) * 4 + c / 64 == SextetOf(Group24(a, b, c), 2)
    ensures c % 64 == SextetOf(Group24(a, b, c), 3)
  {
    hide SextetOf;
    var a1, a0, b1, b0, c1, c0 := a / 4, a % 4, b / 16, b % 16, c / 64, c % 64;
    var n := Group24(a, b, c);
    GroupParts(a1, a0, b1, b0, c1, c0);
    SextetIs(n, 0, 0, a1, a0 * 0x1_0000 + b * 0x100 + c);
    SextetIs(n, 1, a1, a0 * 16 + b1, b0 * 0x100 + c);
    SextetIs(n, 2, a * 16 + b1, b0 * 4 + c1, c0);
    SextetIs(n, 3, a * 0x400 + b * 4 + c1, c0, 0);
  }

  lemma {:induction false} EncodedLength(x: seq<byte>)
    ensures |Encode(x)| == (|x| + 2) / 3 * 4
    decreases |x|
  {
    hide EncodeGroup;
    if |x| > 3 {
      EncodedLength(x[3..]);
    }
  }

  method EncodeBytes(s: seq<byte>) returns (r: string)
    ensures r == Encode(s) && |r| == (|s| + 2) / 3 * 4
  {
    hide Encode, EncodeGroup;
    EncodedLength(s);
    var k := |s| / 3;
    var rest := |s| - k * 3;
    var v := new char[(k + if rest != 0 then 1 else 0) * 4];
    EncodeTriples(s, k, v);
    if rest != 0 {
      EncodeRest(s, 3 * k, v, 4 * k);
    }
    TriplesAndRest(s, 3 * k);
    r := v[..];
  }

  lemma TriplesAndRest(s: seq<byte>, p: nat)
    requires p <= |s| && p % 3 == 0
    ensures Encode(s) == Encode(s[..p]) + Encode(s[p..])
    ensures p == |s| ==> Encode(s) == Encode(s[..p])
  {
    hide Encode;
    EncodeSplit(s[..p], s[p..]);
    assert s == s[..p] + s[p..];
    if p == |s| {
      assert s[..p] == s;
    }
  }

  lemma EncodeNothing(s: seq<byte>)
    requires |s| == 0
    ensures Encode(s) == ""
  {
  }

  lemma EncodeOne(g: seq<byte>)
    requires 1 <= |g| <= 3
    ensures Encode(g) == EncodeGroup(g)
  {
    hide EncodeGroup;
  }

  lemma TripleSymbols(a: byte, b: byte, c: byte)
    ensures EncodeGroup([a, b, c]) == [Symbol(a / 4), Symbol((a % 4) * 16 + b / 16), Symbol((b % 16) * 4 + c / 64), Symbol(c % 64)]
  {
    hide SextetOf, Group24, Symbol;
    ShiftsAreSextets(a, b, c);
  }

  lemma PairSymbols(a: byte, b: byte)
    ensures EncodeGroup([a, b]) == [Symbol(a / 4), Symbol((a % 4) * 16 + b / 16), Symbol((b % 16) * 4), '=']
  {
    hide SextetOf, Group24, Symbol;
    ShiftsAreSextets(a, b, 0);
  }

  lemma SingleSymbols(c: byte)
    ensures EncodeGroup([c]) == [Symbol(c / 4), Symbol((c % 4) * 16), '=', '=']
  {
    hide SextetOf, Group24, Symbol;
    ShiftsAreSextets(c, 0, 0);
  }

  method EncodeTriples(s: seq<byte>, k: nat, v: array<char>)
    requires 3 * k <= |s| && 4 * k <= v.Length
    modifies v
    ensures v[..4 * k] == Encode(s[..3 * k])
  {
    hide Encode, EncodeGroup;
    EncodeNothing(s[..0]);
    var p := 0;
    for i := 0 to k
      invariant p == 3 * i
      invariant v[..4 * i] == Encode(s[..3 * i])
    {
      AppendTriple(s, p);
      PutTriple(v, 4 * i, s[p], s[p + 1], s[p + 2]);
      p := p + 3;
    }
  }

  method PutTriple(v: array<char>, x: nat, a: byte, b: byte, c: byte)
    requires x + 4 <= v.Length
    modifies v
    ensures v[..x + 4] == old(v[..x]) + EncodeGroup([a, b, c])
  {
    hide EncodeGroup, Symbol;
    TripleSymbols(a, b, c);
    Put4(v, x, Symbol(a / 4), Symbol((a % 4) * 16 + b / 16), Symbol((b % 16) * 4 + c / 64), Symbol(c % 64));
  }

  lemma AppendTriple(s: seq<byte>, p: nat)
    requires p + 3 <= |s| && p % 3 == 0
    ensures Encode(s[..p + 3]) == Encode(s[..p]) + EncodeGroup([s[p], s[p + 1], s[p + 2]])
  {
    hide Encode, EncodeGroup;
    var g := [s[p], s[p + 1], s[p + 2]];
    assert s[..p + 3] == s[..p] + g;
    EncodeSplit(s[..p], g);
    EncodeOne(g);
  }

  method EncodeRest(s: seq<byte>, p: nat, v: array<char>, x: nat)
    requires p < |s| <= p + 2 && x + 4 <= v.Length
    modifies v
    ensures v[..x + 4] == old(v[..x]) + Encode(s[p..])
  {
    hide Encode, EncodeGroup, Symbol;
    EncodeOne(s[p..]);
    if |s| - p == 1 {
      var c := s[p];
      assert s[p..] == [c];
      SingleSymbols(c);
      Put4(v, x, Symbol(c / 4), Symbol((c % 4) * 16), '=', '=');
    } else {
      var a, b := s[p], s[p + 1];
      assert s[p..] == [a, b];
      PairSymbols(a, b);
      Put4(v, x, Symbol(a / 4), Symbol((a % 4) * 16 + b / 16), Symbol((b % 16) * 4), '=');
    }
  }

  /** Four characters at the write pointer. */
  method Put4(v: array<char>, x: nat, c0: char, c1: char, c2: char, c3: char)
    requires x + 4 <= v.Length
    modifies v
    ensures v[..x + 4] == old(v[..x]) + [c0, c1, c2, c3]
  {
    v[x] := c0;
    v[x + 1] := c1;
    v[x + 2] := c2;
    v[x + 3] := c3;
  }

  lemma EncodeStep(g: seq<byte>, x: seq<byte>)
    requires |g| == 3
    ensures Encode(g + x) == EncodeGroup(g) + Encode(x)
  {
    hide EncodeGroup;
    if x == [] {
      assert g + x == g && EncodeGroup(g) + "" == EncodeGroup(g);
    } else {
      assert (g + x)[..3] == g && (g + x)[3..] == x;
    }
  }

  lemma {:induction false} EncodeSplit(a: seq<byte>, b: seq<byte>)
    requires |a| % 3 == 0
    ensures Encode(a + b) == Encode(a) + Encode(b)
    decreases |a|
  {
    hide Encode, EncodeGroup;
    if a == [] {
      assert a + b == b;
      EncodeNothing(a);
    } else {
      var g, rest := a[..3], a[3..];
      assert a == g + rest && a + b == g + (rest + b);
      EncodeSplit(rest, b);
      EncodeStep(g, rest);
      EncodeStep(g, rest + b);
      assert EncodeGroup(g) + (Encode(rest) + Encode(b)) == EncodeGroup(g) + Encode(rest) + Encode(b);
    }
  }

  // ----- decoding -----

  predicate IsBreak(c: char) {
    c == '\r' || c == '\n'
  }

  /** The word of OR-ed symbol values; the OR with a -1 anywhere is negative. */
  function OrWord(d0: int, d1: int, d2: int, d3: int): (m: int)
    requires -1 <= d0 < 64 && -1 <= d1 < 64 && -1 <= d2 < 64 && -1 <= d3 < 64
    ensures m < 0 <==> d0 < 0 || d1 < 0 || d2 < 0 || d3 < 0
    ensures m < 0x100_0000
  {
    if d0 < 0 || d1 < 0 || d2 < 0 || d3 < 0 then -1 else d0 * 0x4_0000 + d1 * 0x1000 + d2 * 0x40 + d3
  }

  function Quad(q: string): Option<seq<byte>>
    requires |q| == 4
  {
    var m := OrWord(Detab(q[0]), Detab(q[1]), Detab(q[2]), Detab(q[3]));
    if m < 0 then None else Some([m / 0x1_0000, m / 0x100 % 0x100, m % 0x100])
  }

  /** The last quad may be padded. */
  function LastQuad(q: string): Option<seq<byte>>
    requires |q| == 4
  {
    var m := OrWord(Detab(q[0]), Detab(q[1]), 0, 0);
    if m < 0 then None
    else if q[2] == '=' then (if q[3] == '=' then Some([m / 0x1_0000]) else None)
    else
      var m2 := OrWord(Detab(q[0]), Detab(q[1]), Detab(q[2]), 0);
      if m2 < 0 then None
      else if q[3] == '=' then Some([m / 0x1_0000, m2 / 0x100 % 0x100])
      else
        var m3 := OrWord(Detab(q[0]), Detab(q[1]), Detab(q[2]), Detab(q[3]));
        if m3 < 0 then None else Some([m / 0x1_0000, m2 / 0x100 % 0x100, m3 % 0x100])
  }

  /** Up to two line-break characters at the front. */
  function SkipBreak(t: string): (r: string)
    ensures |t| - 2 <= |r| <= |t|
  {
    if t != "" && IsBreak(t[0]) then (if |t| > 1 && IsBreak(t[1]) then t[2..] else t[1..]) else t
  }

  /** Up to two at the end. */
  function StripBreak(t: string): (r: string)
    ensures |r| <= |t| && r == t[..|r|]
  {
    if t != "" && IsBreak(t[|t| - 1]) then
      (if |t| > 1 && IsBreak(t[|t| - 2]) then t[..|t| - 2] else t[..|t| - 1])
    else t
  }

  function Decode(t: string): Option<seq<byte>>
    decreases |t|
  {
    if |t| >= 8 then
      var q := Quad(t[..4]);
      if q.None? then None
      else
        var r := Decode(SkipBreak(t[4..]));
        if r.None? then None else Some(q.value + r.value)
    else
      var last := StripBreak(t);
      if |last| == 4 then LastQuad(last) else None
  }

  function After(out: seq<byte>, r: Option<seq<byte>>): Option<seq<byte>> {
    if r.Some? then Some(out + r.value) else None
  }

  /** None where the source throws; the output buffer has n * 3 / 4 bytes. */
  method DecodeText(t: string) returns (r: Option<seq<byte>>)
    ensures r == Decode(t)
    ensures r.Some? ==> |r.value| <= |t| * 3 / 4
  {
    hide Quad, LastQuad, StripBreak;
    var v := new byte[|t| * 3 / 4];
    var ok, x, s, n := DecodeQuads(t, v);
    if !ok {
      return None;
    }
    n := StripBreakAt(t, s, n);
    if n != 4 {
      return None;
    }
    var last := DecodeLast(t, s, v, x);
    if last.None? {
      return None;
    }
    r := Some(v[..last.value]);
  }

  lemma DecodeLong(t: string, out: seq<byte>)
    requires |t| >= 8
    ensures var q := Quad(t[..4]);
            After(out, Decode(t)) == if q.None? then None else After(out + q.value, Decode(SkipBreak(t[4..])))
  {
    hide Quad, SkipBreak;
    var q := Quad(t[..4]);
    if q.Some? {
      AfterTwice(out, q.value, Decode(SkipBreak(t[4..])));
    }
  }

  /** All quads but the last one: what is left are the n characters at s. */
  method DecodeQuads(t: string, v: array<byte>) returns (ok: bool, x: nat, s: nat, n: nat)
    requires v.Length == |t| * 3 / 4
    modifies v
    ensures !ok ==> Decode(t) == None
    ensures ok ==> n < 8 && s + n <= |t| && 4 * x <= 3 * s && x <= v.Length
    ensures ok ==> Decode(t) == After(v[..x], Decode(t[s..s + n]))
  {
    hide Quad, Decode;
    x, s, n := 0, 0, |t|;
    assert t[0..0 + n] == t;
    AfterNothing(Decode(t));
    while n >= 8
      invariant s + n <= |t| && 4 * x <= 3 * s && x <= v.Length
      invariant Decode(t) == After(v[..x], Decode(t[s..s + n]))
      decreases n
    {
      ghost var rest := t[s..s + n];
      assert rest[..4] == t[s..s + 4];
      DecodeLong(rest, v[..x]);
      ok := DecodeQuad(t, s, v, x);
      if !ok {
        return;
      }
      s, n, x := s + 4, n - 4, x + 3;
      assert rest[4..] == t[s..s + n];
      s, n := SkipBreakAt(t, s, n);
    }
    ok := true;
  }

  method StripBreakAt(t: string, s: nat, n0: nat) returns (n: nat)
    requires s + n0 <= |t|
    ensures n <= n0 && t[s..s + n] == StripBreak(t[s..s + n0])
  {
    n := n0;
    ghost var u := t[s..s + n0];
    if n > 0 && IsBreak(t[s + n - 1]) {
      n := n - 1;
      if n > 0 && IsBreak(t[s + n - 1]) {
        n := n - 1;
      }
    }
    assert n0 > 0 ==> u[n0 - 1] == t[s + n0 - 1];
    assert n0 > 1 ==> u[n0 - 2] == t[s + n0 - 2];
    assert u[..n] == t[s..s + n];
  }

  method SkipBreakAt(t: string, s0: nat, n0: nat) returns (s: nat, n: nat)
    requires s0 + n0 <= |t| && n0 >= 2
    ensures s0 <= s && s + n == s0 + n0
    ensures t[s..s + n] == SkipBreak(t[s0..s0 + n0])
  {
    s, n := s0, n0;
    ghost var u := t[s0..s0 + n0];
    assert u[0] == t[s0] && u[1] == t[s0 + 1];
    assert u[1..] == t[s0 + 1..s0 + n0] && u[2..] == t[s0 + 2..s0 + n0];
    if t[s] == '\r' || t[s] == '\n' {
      n, s := n - 1, s + 1;
      if t[s] == '\n' || t[s] == '\r' {
        n, s := n - 1, s + 1;
      }
    }
  }

  method DecodeQuad(t: string, s: nat, v: array<byte>, x: nat) returns (ok: bool)
    requires s + 4 <= |t| && x + 3 <= v.Length
    modifies v
    ensures ok <==> Quad(t[s..s + 4]).Some?
    ensures ok ==> v[..x + 3] == old(v[..x]) + Quad(t[s..s + 4]).value
  {
    hide Detab;
    var m := OrWord(Detab(t[s]), Detab(t[s + 1]), Detab(t[s + 2]), Detab(t[s + 3]));
    if m < 0 {
      return false;
    }
    v[x] := m / 0x1_0000;
    v[x + 1] := m / 0x100 % 0x100;
    v[x + 2] := m % 0x100;
    return true;
  }

  /** The final quad: the new end of the output, or None. */
  method DecodeLast(t: string, s0: nat, v: array<byte>, x0: nat) returns (r: Option<nat>)
    requires s0 + 4 <= |t| && x0 + 3 <= v.Length
    modifies v
    ensures r.Some? <==> LastQuad(t[s0..s0 + 4]).Some?
    ensures r.Some? ==> x0 <= r.value <= x0 + 3 && v[..r.value] == old(v[..x0]) + LastQuad(t[s0..s0 + 4]).value
  {
    hide Detab;
    var x, s := x0, s0;
    var d0, d1 := Detab(t[s]), Detab(t[s + 1]);
    var m := OrWord(d0, d1, 0, 0);
    s := s + 2;
    if m < 0 {
      return None;
    }
    v[x] := m / 0x1_0000;
    x := x + 1;
    if t[s] == '=' {
      return if t[s + 1] == '=' then Some(x) else None;
    }
    m := OrWord(d0, d1, Detab(t[s]), 0);
    s := s + 1;
    if m < 0 {
      return None;
    }
    v[x] := m / 0x100 % 0x100;
    x := x + 1;
    if t[s] != '=' {
      m := OrWord(d0, d1, Detab(t[s - 1]), Detab(t[s]));
      if m < 0 {
        return None;
      }
      v[x] := m % 0x100;
      x := x + 1;
    }
    return Some(x);
  }

  lemma AfterNothing(r: Option<seq<byte>>)
    ensures After([], r) == r
  {
    if r.Some? {
      assert [] + r.value == r.value;
    }
  }

  lemma AfterTwice(a: seq<byte>, b: seq<byte>, r: Option<seq<byte>>)
    ensures After(a, After(b, r)) == After(a + b, r)
  {
    if r.Some? {
      assert a + (b + r.value) == a + b + r.value;
    }
  }

  // ----- decoding undoes encoding -----

  /** The sextets of a group put together again. */
  lemma GroupFromSextets(n: nat)
    requires n < 0x100_0000
    ensures SextetOf(n, 0) * 0x4_0000 + SextetOf(n, 1) * 0x1000 + SextetOf(n, 2) * 0x40 + SextetOf(n, 3) == n
  {
    var a, b, c := n / 0x4_0000, n / 0x1000, n / 0x40;
    assert c / 64 == b && b / 64 == a;
    assert n == c * 64 + n % 64 && c == b * 64 + c % 64 && b == a * 64 + b % 64;
  }

  lemma WordOfSextets(n: nat)
    requires n < 0x100_0000
    ensures OrWord(SextetOf(n, 0), SextetOf(n, 1), SextetOf(n, 2), SextetOf(n, 3)) == n
  {
    hide SextetOf;
    GroupFromSextets(n);
  }

  lemma QuadDecodes(x: seq<byte>)
    requires |x| == 3
    ensures Quad(EncodeGroup(x)) == Some(x)
  {
    hide SextetOf, Detab, Symbol, OrWord, Group24;
    var n := Group24(x[0], x[1], x[2]);
    WordOfSextets(n);
    SymbolDecodes(SextetOf(n, 0));
    SymbolDecodes(SextetOf(n, 1));
    SymbolDecodes(SextetOf(n, 2));
    SymbolDecodes(SextetOf(n, 3));
    BytesOf(x[0], x[1], x[2]);
    assert x == [x[0], x[1], x[2]];
  }

  lemma BytesOf(a: byte, b: byte, c: byte)
    ensures var n := Group24(a, b, c); n / 0x1_0000 == a && n / 0x100 % 0x100 == b && n % 0x100 == c
  {
    assert Group24(a, b, c) / 0x100 == a * 0x100 + b;
  }

  lemma LastDecodes(x: seq<byte>)
    requires 1 <= |x| <= 3
    ensures LastQuad(EncodeGroup(x)) == Some(x)
  {
    hide EncodeGroup, LastQuad;
    if |x| == 1 {
      assert x == [x[0]];
      LastOfOne(x[0]);
    } else if |x| == 2 {
      assert x == [x[0], x[1]];
      LastOfTwo(x[0], x[1]);
    } else {
      assert x == [x[0], x[1], x[2]];
      LastOfThree(x[0], x[1], x[2]);
    }
  }

  /** The word after two, three and four symbols. */
  lemma PartialWords(a: byte, b: byte, c: byte)
    ensures var s0, s1, s2, s3 := a / 4, a % 4 * 16 + b / 16, b % 16 * 4 + c / 64, c % 64;
            && OrWord(s0, s1, 0, 0) / 0x1_0000 == a
            && OrWord(s0, s1, s2, 0) / 0x100 % 0x100 == b
            && OrWord(s0, s1, s2, s3) % 0x100 == c
  {
    LastBytes(a, b, c);
  }

  lemma LastOfOne(c: byte)
    ensures LastQuad(EncodeGroup([c])) == Some([c])
  {
    hide EncodeGroup, Detab, Symbol, OrWord;
    SingleSymbols(c);
    SymbolDecodes(c / 4);
    SymbolDecodes((c % 4) * 16);
    PartialWords(c, 0, 0);
  }

  lemma LastOfTwo(a: byte, b: byte)
    ensures LastQuad(EncodeGroup([a, b])) == Some([a, b])
  {
    hide EncodeGroup, Detab, Symbol, OrWord;
    PairSymbols(a, b);
    SymbolDecodes(a / 4);
    SymbolDecodes((a % 4) * 16 + b / 16);
    SymbolDecodes((b % 16) * 4);
    PartialWords(a, b, 0);
  }

  lemma LastOfThree(a: byte, b: byte, c: byte)
    ensures LastQuad(EncodeGroup([a, b, c])) == Some([a, b, c])
  {
    hide EncodeGroup, Detab, Symbol, OrWord;
    TripleSymbols(a, b, c);
    SymbolDecodes(a / 4);
    SymbolDecodes((a % 4) * 16 + b / 16);
    SymbolDecodes((b % 16) * 4 + c / 64);
    SymbolDecodes(c % 64);
    PartialWords(a, b, c);
  }

  lemma LastBytes(a: byte, b: byte, c: byte)
    ensures var m1 := a / 4 * 0x4_0000 + (a % 4 * 16 + b / 16) * 0x1000;
            var m2 := m1 + (b % 16 * 4 + c / 64) * 0x40;
            m1 / 0x1_0000 == a && m2 / 0x100 % 0x100 == b && (m2 + c % 64) % 0x100 == c
  {
    LastParts(a / 4, a % 4, b / 16, b % 16, c / 64, c % 64);
  }

  /** The same with the bytes cut where the sextets are. */
  lemma LastParts(a1: nat, a0: nat, b1: nat, b0: nat, c1: nat, c0: nat)
    requires a1 < 64 && a0 < 4 && b1 < 16 && b0 < 16 && c1 < 4 && c0 < 64
    ensures var m1 := a1 * 0x4_0000 + (a0 * 16 + b1) * 0x1000;
            var m2 := m1 + (b0 * 4 + c1) * 0x40;
            m1 / 0x1_0000 == a1 * 4 + a0 && m2 / 0x100 % 0x100 == b1 * 16 + b0 && (m2 + c0) % 0x100 == c1 * 64 + c0
  {
    var m1 := a1 * 0x4_0000 + (a0 * 16 + b1) * 0x1000;
    var m2 := m1 + (b0 * 4 + c1) * 0x40;
    var a, b := a1 * 4 + a0, b1 * 16 + b0;
    QuotientIs(m1, 0x1_0000, a, b1 * 0x1000);
    QuotientIs(m2, 0x100, a * 0x100 + b, c1 * 0x40);
    QuotientIs(a * 0x100 + b, 0x100, a, b);
    QuotientIs(m2 + c0, 0x100, a * 0x100 + b, c1 * 64 + c0);
  }

  predicate AllBreaks(nls: seq<string>) {
    forall i :: 0 <= i < |nls| ==> |nls[i]| <= 2 && forall k :: 0 <= k < |nls[i]| ==> IsBreak(nls[i][k])
  }

  /** The encoding with the line break nls[i] behind its i-th quad. */
  function Wrapped(x: seq<byte>, nls: seq<string>): (t: string)
    requires x != [] && |nls| == (|x| + 2) / 3
    decreases |x|
  {
    if |x| <= 3 then EncodeGroup(x) + nls[0]
    else EncodeGroup(x[..3]) + nls[0] + Wrapped(x[3..], nls[1..])
  }

  lemma GroupHasNoBreak(x: seq<byte>)
    requires 1 <= |x| <= 3
    ensures forall k :: 0 <= k < 4 ==> !IsBreak(EncodeGroup(x)[k])
  {
    hide Detab;
    var n := Group24(x[0], if |x| > 1 then x[1] else 0, if |x| > 2 then x[2] else 0);
    SymbolDecodes(SextetOf(n, 0));
    SymbolDecodes(SextetOf(n, 1));
    SymbolDecodes(SextetOf(n, 2));
    SymbolDecodes(SextetOf(n, 3));
  }

  lemma WrappedStart(x: seq<byte>, nls: seq<string>)
    requires x != [] && |nls| == (|x| + 2) / 3
    ensures |Wrapped(x, nls)| >= 4 && !IsBreak(Wrapped(x, nls)[0])
  {
    hide EncodeGroup;
    GroupHasNoBreak(if |x| <= 3 then x else x[..3]);
  }

  lemma {:induction false} WrappedDecodes(x: seq<byte>, nls: seq<string>)
    requires x != [] && |nls| == (|x| + 2) / 3 && AllBreaks(nls)
    ensures Decode(Wrapped(x, nls)) == Some(x)
    decreases |x|
  {
    hide EncodeGroup, Quad, LastQuad;
    var t := Wrapped(x, nls);
    if |x| <= 3 {
      GroupHasNoBreak(x);
      assert StripBreak(t) == EncodeGroup(x);
      LastDecodes(x);
    } else {
      var rest := Wrapped(x[3..], nls[1..]);
      WrappedStart(x[3..], nls[1..]);
      assert t[..4] == EncodeGroup(x[..3]) && t[4..] == nls[0] + rest;
      assert SkipBreak(nls[0] + rest) == rest;
      QuadDecodes(x[..3]);
      WrappedDecodes(x[3..], nls[1..]);
      assert x == x[..3] + x[3..];
    }
  }

  lemma {:induction false} EncodeIsWrapped(x: seq<byte>)
    requires x != []
    ensures Encode(x) == Wrapped(x, seq((|x| + 2) / 3, _ => ""))
    decreases |x|
  {
    if |x| > 3 {
      EncodeIsWrapped(x[3..]);
      assert seq((|x| + 2) / 3, _ => "")[1..] == seq((|x[3..]| + 2) / 3, _ => "");
    }
  }

  /** The round trip holds for exactly the non-empty inputs; the empty text does not decode. */
  lemma RoundTrip(x: seq<byte>)
    ensures Decode(Encode(x)) == Some(x) <==> x != []
  {
    if x != [] {
      EncodeIsWrapped(x);
      WrappedDecodes(x, seq((|x| + 2) / 3, _ => ""));
    }
  }
}
