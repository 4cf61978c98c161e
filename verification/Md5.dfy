/**
 Streaming MD5 (src/hash/md5.cc). The compression of one 64-byte block is left open: it
 is a parameter. Everything around it follows RFC 1321, sections 3.1 to 3.5.
 */
module Md5 {
  import opened Common

  datatype Regs = Regs(a: uint32, b: uint32, c: uint32, d: uint32)

  /** Section 3.3 of RFC 1321. */
  const INITIAL: Regs := Regs(0x67452301, 0xefcdab89, 0x98badcfe, 0x10325476)

  type Compression = (Regs, seq<byte>) -> Regs

  /** The registers after the whole blocks of data. */
  function Fold(f: Compression, r: Regs, data: seq<byte>): Regs
    requires |data| % 64 == 0
    decreases |data|
  {
    if data == [] then r else Fold(f, f(r, data[..64]), data[64..])
  }

  function ZeroBytes(n: nat): (s: seq<byte>)
    ensures |s| == n
  {
    seq(n, _ => 0)
  }

  function LittleEndian(v: nat, n: nat): (s: seq<byte>)
    ensures |s| == n
    decreases n
  {
    if n == 0 then [] else [v % 256] + LittleEndian(v / 256, n - 1)
  }

  /** Zero bytes between the 0x80 and the length field. */
  function PadZeros(len: nat): nat {
    (119 - len % 64) % 64
  }

  /** The padded message: sections 3.1 and 3.2 of RFC 1321, the bit count modulo 2^64. */
  function Padded(msg: seq<byte>): (p: seq<byte>)
    ensures |p| % 64 == 0
  {
    PadLength(|msg|);
    msg + [0x80] + ZeroBytes(PadZeros(|msg|)) + LengthBytes(msg)
  }

  /** The length field. */
  function LengthBytes(msg: seq<byte>): (s: seq<byte>)
    ensures |s| == 8
  {
    LittleEndian(8 * |msg| % 0x1_0000_0000_0000_0000, 8)
  }

  /** What goes behind a message of length n before the last block. */
  function FirstPad(n: nat): (s: seq<byte>)
  {
    [0x80] + ZeroBytes(if n % 64 < 56 then 0 else 63 - n % 64)
  }

  lemma FirstPadIs(n: nat)
    ensures FirstPad(n) == if n % 64 < 56 then [0x80] else [0x80] + ZeroBytes(63 - n % 64)
    ensures n % 64 >= 56 ==> (n + |FirstPad(n)|) % 64 == 0
    ensures n % 64 < 56 ==> (n + |FirstPad(n)| - (n % 64 + 1)) % 64 == 0
  {
    assert [0x80] + ZeroBytes(0) == [0x80];
    assert n == n / 64 * 64 + n % 64;
    assert (n / 64 + 1) * 64 % 64 == 0;
  }

  /** The padding in two parts, with `used` bytes waiting between them. */
  lemma PaddedParts(m: seq<byte>, used: nat)
    requires used <= 56 && (|m| + |FirstPad(|m|)| - used) % 64 == 0
    ensures m + FirstPad(|m|) + (ZeroBytes(56 - used) + LengthBytes(m)) == Padded(m)
    ensures (|m| + |FirstPad(|m|)| + (56 - used) + 8) % 64 == 0
  {
    hide LengthBytes, FirstPad;
    var n := |m|;
    FirstPadIs(n);
    ZerosBetween(n, |FirstPad(n)|, used);
    var z := if n % 64 < 56 then 0 else 63 - n % 64;
    assert FirstPad(n) == [0x80] + ZeroBytes(z);
    assert ZeroBytes(PadZeros(n)) == ZeroBytes(z) + ZeroBytes(56 - used);
  }

  lemma ZerosBetween(n: nat, first: nat, used: nat)
    requires used <= 56 && (n + first - used) % 64 == 0 && first == if n % 64 < 56 then 1 else 64 - n % 64
    ensures used == if n % 64 < 56 then n % 64 + 1 else 0
    ensures PadZeros(n) == first - 1 + (56 - used)
    ensures (n + first + (56 - used) + 8) % 64 == 0
  {
    var u, q := n % 64, n / 64;
    assert n == 64 * q + u;
    var k := (n + first - used) / 64;
    assert 64 * k == 64 * q + u + first - used;
  }

  lemma PadLength(n: nat)
    ensures (n + 1 + PadZeros(n) + 8) % 64 == 0
  {
    var q, u := n / 64, n % 64;
    assert n == q * 64 + u;
    if u < 56 {
      assert n + 1 + PadZeros(n) + 8 == (q + 1) * 64;
    } else {
      assert n + 1 + PadZeros(n) + 8 == (q + 2) * 64;
    }
  }

  function Output(r: Regs): seq<byte> {
    LittleEndian(r.a, 4) + LittleEndian(r.b, 4) + LittleEndian(r.c, 4) + LittleEndian(r.d, 4)
  }

  /** The padded message is the message, a one bit and the fewest zero bits, and the length in bits, low bytes
      first, modulo 2^64: altogether whole blocks of 64 bytes. */
  lemma PaddingIsRfc(msg: seq<byte>)
    ensures var p, n := Padded(msg), |msg|;
            && |p| % 64 == 0 && n + 9 <= |p| <= n + 72 && p[..n] == msg && p[n] == 0x80
            && (forall i :: n < i < |p| - 8 ==> p[i] == 0)
            && Word(p[|p| - 8], p[|p| - 7], p[|p| - 6], p[|p| - 5]) +
               0x1_0000_0000 * Word(p[|p| - 4], p[|p| - 3], p[|p| - 2], p[|p| - 1]) == 8 * n % 0x1_0000_0000_0000_0000
  {
    hide LittleEndian, Low, High;
    var n, p := |msg|, Padded(msg);
    var s := LengthBytes(msg);
    LengthField(n);
    LowFits(n);
    WordBytes(Low(n) * 8);
    WordBytes(High(n));
    BitCount(n);
    assert s == LittleEndian(Low(n) * 8, 4) + LittleEndian(High(n), 4);
    assert p[|p| - 8..] == s;
    assert forall k :: 0 <= k < 8 ==> p[|p| - 8 + k] == s[k];
  }

  lemma BitCount(n: nat)
    ensures Low(n) * 8 + 0x1_0000_0000 * High(n) == 8 * n % 0x1_0000_0000_0000_0000
  {
    hide Low, High;
    CounterMeaning(n);
    ModUnique(8 * n, n / 0x2000_0000_0000_0000, 8 * (n % 0x2000_0000_0000_0000), 0x1_0000_0000_0000_0000);
  }

  function Word(b0: nat, b1: nat, b2: nat, b3: nat): nat {
    b0 + 0x100 * b1 + 0x1_0000 * b2 + 0x100_0000 * b3
  }

  /** The four words go out in their order, low bytes first. */
  lemma OutputBytes(r: Regs)
    ensures |Output(r)| == 16
    ensures forall i :: 0 <= i < 4 ==>
              [r.a, r.b, r.c, r.d][i] ==
              Word(Output(r)[4 * i], Output(r)[4 * i + 1], Output(r)[4 * i + 2], Output(r)[4 * i + 3])
  {
    WordBytes(r.a);
    WordBytes(r.b);
    WordBytes(r.c);
    WordBytes(r.d);
  }

  lemma WordBytes(v: uint32)
    ensures var s := LittleEndian(v, 4); v == Word(s[0], s[1], s[2], s[3])
  {
    hide LittleEndian;
    FourBytes(v);
    var v1, v2, v3 := v / 0x100, v / 0x1_0000, v / 0x100_0000;
    assert v1 / 0x100 == v2 && v2 / 0x100 == v3 && v3 < 0x100;
    assert v == v1 * 0x100 + v % 0x100;
    assert v1 == v2 * 0x100 + v1 % 0x100;
    assert v2 == v3 * 0x100 + v2 % 0x100;
  }

  /** The initial registers, as RFC 1321 lists their bytes. */
  lemma InitialBytes()
    ensures Output(INITIAL) == [0x01, 0x23, 0x45, 0x67, 0x89, 0xab, 0xcd, 0xef, 0xfe, 0xdc, 0xba, 0x98, 0x76, 0x54, 0x32, 0x10]
  {
    hide LittleEndian;
    TheWord(INITIAL.a, 0x01, 0x23, 0x45, 0x67);
    TheWord(INITIAL.b, 0x89, 0xab, 0xcd, 0xef);
    TheWord(INITIAL.c, 0xfe, 0xdc, 0xba, 0x98);
    TheWord(INITIAL.d, 0x76, 0x54, 0x32, 0x10);
  }

  lemma TheWord(v: uint32, b0: byte, b1: byte, b2: byte, b3: byte)
    requires v == Word(b0, b1, b2, b3)
    ensures LittleEndian(v, 4) == [b0, b1, b2, b3]
  {
    hide LittleEndian;
    NextByte(b3, 0, 1);
    NextByte(b2, b3, 2);
    NextByte(b1, b2 + 0x100 * b3, 3);
    NextByte(b0, b1 + 0x100 * b2 + 0x1_0000 * b3, 4);
    NoBytes(0);
    assert [b0] + ([b1] + ([b2] + ([b3] + []))) == [b0, b1, b2, b3];
  }

  lemma NextByte(b: byte, w: nat, n: nat)
    requires n > 0
    ensures LittleEndian(b + 0x100 * w, n) == [b] + LittleEndian(w, n - 1)
  {
    ModUnique(b + 0x100 * w, w, b, 0x100);
  }

  lemma NoBytes(v: nat)
    ensures LittleEndian(v, 0) == []
  {
  }

  /** The digest of a whole message. */
  function Digest(f: Compression, msg: seq<byte>): seq<byte> {
    Output(Fold(f, INITIAL, Padded(msg)))
  }

  lemma {:induction false} FoldConcat(f: Compression, r: Regs, a: seq<byte>, b: seq<byte>)
    requires |a| % 64 == 0 && |b| % 64 == 0
    ensures Fold(f, r, a + b) == Fold(f, Fold(f, r, a), b)
    decreases |a|
  {
    if a == [] {
      assert a + b == b;
    } else {
      assert (a + b)[..64] == a[..64] && (a + b)[64..] == a[64..] + b;
      FoldConcat(f, f(r, a[..64]), a[64..], b);
    }
  }

  /** The whole blocks of a message and what stands behind them. */
  function Whole(m: seq<byte>): (w: seq<byte>)
    ensures |w| % 64 == 0
  {
    m[..|m| / 64 * 64]
  }

  function Rest(m: seq<byte>): (r: seq<byte>)
    ensures |r| == |m| % 64
  {
    m[|m| / 64 * 64..]
  }

  lemma WholeAndRest(m: seq<byte>, k: nat)
    requires k <= |m| && k % 64 == 0 && |m| - k < 64
    ensures Whole(m) == m[..k] && Rest(m) == m[k..]
  {
  }

  lemma RestGrows(m: seq<byte>, d: seq<byte>)
    requires |m| % 64 + |d| < 64
    ensures Whole(m + d) == Whole(m) && Rest(m + d) == Rest(m) + d
  {
    WholeAndRest(m + d, |m| / 64 * 64);
  }

  /** Folding the next blocks, which start with the rest. */
  lemma FoldMore(f: Compression, m: seq<byte>, d: seq<byte>)
    requires (|m| + |d|) % 64 == 0
    ensures Fold(f, INITIAL, m + d) == Fold(f, Fold(f, INITIAL, Whole(m)), Rest(m) + d)
  {
    hide Fold;
    SplitMessage(m, d);
    FoldConcat(f, INITIAL, Whole(m), Rest(m) + d);
  }

  lemma SplitMessage(m: seq<byte>, d: seq<byte>)
    requires (|m| + |d|) % 64 == 0
    ensures Whole(m) + (Rest(m) + d) == m + d && |Rest(m) + d| % 64 == 0
  {
    RestAndMore(|m|, |d|);
    assert Whole(m) + Rest(m) == m by {
      hide Fold;
      assert m == m[..|m| / 64 * 64] + m[|m| / 64 * 64..];
    }
    assert Whole(m) + (Rest(m) + d) == (Whole(m) + Rest(m)) + d by {
      hide Whole, Rest;
    }
  }

  lemma RestAndMore(a: nat, b: nat)
    requires (a + b) % 64 == 0
    ensures (a % 64 + b) % 64 == 0
  {
    assert a == a / 64 * 64 + a % 64;
    assert a % 64 + b == ((a + b) / 64 - a / 64) * 64;
  }

  function Low(n: nat): (r: nat)
    ensures r < 0x2000_0000
  {
    n % 0x2000_0000
  }

  function High(n: nat): (r: nat)
    ensures r < 0x1_0000_0000
  {
    n / 0x2000_0000 % 0x1_0000_0000
  }

  /** hi * 2^29 + lo is the byte count modulo 2^61. */
  lemma CounterMeaning(n: nat)
    ensures High(n) * 0x2000_0000 + Low(n) == n % 0x2000_0000_0000_0000
  {
    var a := n / 0x2000_0000;
    assert n == a * 0x2000_0000 + Low(n);
    assert a == a / 0x1_0000_0000 * 0x1_0000_0000 + High(n);
    var r := High(n) * 0x2000_0000 + Low(n);
    assert n == a / 0x1_0000_0000 * 0x2000_0000_0000_0000 + r;
    ModUnique(n, a / 0x1_0000_0000, r, 0x2000_0000_0000_0000);
  }

  lemma ModUnique(n: nat, q: nat, r: nat, m: nat)
    requires n == q * m + r && r < m
    ensures n % m == r && n / m == q
  {
    var d := n / m - q;
    assert d * m == r - n % m;
    Multiples(d, m);
  }

  lemma Multiples(d: int, m: nat)
    ensures d >= 1 ==> d * m >= m
    ensures d <= -1 ==> d * m <= -(m as int)
  {
  }

  lemma AddCounters(n: nat, size: nat)
    ensures Low(n + size) == (Low(n) + Low(size)) % 0x2000_0000
    ensures Low(n + size) == Low(n) + Low(size) - if Low(n + size) < Low(n) then 0x2000_0000 else 0
    ensures High(n + size) == (High(n) + High(size) + if Low(n + size) < Low(n) then 1 else 0) % 0x1_0000_0000
  {
    var a, b := n / 0x2000_0000, size / 0x2000_0000;
    var c := if Low(n) + Low(size) >= 0x2000_0000 then 1 else 0;
    var low := Low(n) + Low(size) - c * 0x2000_0000;
    assert n + size == (a + b + c) * 0x2000_0000 + low;
    ModUnique(n + size, a + b + c, low, 0x2000_0000);
    ModAdd(a, b, c);
  }

  lemma ModAdd(a: nat, b: nat, c: nat)
    ensures (a + b + c) % 0x1_0000_0000 == (a % 0x1_0000_0000 + b % 0x1_0000_0000 + c) % 0x1_0000_0000
  {
    var w := 0x1_0000_0000;
    var s := a % w + b % w + c;
    assert a + b + c == (a / w + b / w + s / w) * w + s % w;
    ModUnique(a + b + c, a / w + b / w + s / w, s % w, w);
  }

  lemma LowAdd(n: nat, size: nat)
    ensures (Low(n) + size) % 0x2000_0000 == (Low(n) + Low(size)) % 0x2000_0000
  {
    var s := Low(n) + Low(size);
    ModUnique(Low(n) + size, size / 0x2000_0000 + s / 0x2000_0000, s % 0x2000_0000, 0x2000_0000);
  }

  /** What md5_update stores into lo, */
  lemma CountedLow(n: nat, size: nat)
    ensures (Low(n) + size) % 0x1_0000_0000_0000_0000 % 0x2000_0000 == Low(n + size)
  {
    hide Low, High;
    AddCounters(n, size);
    WrapIsHarmless(Low(n) + size);
    LowAdd(n, size);
  }

  /** and into hi, with the carry. */
  lemma CountedHigh(n: nat, size: nat)
    ensures High(n + size) == ((if Low(n + size) < Low(n) then (High(n) + 1) % 0x1_0000_0000 else High(n)) +
                               size / 0x2000_0000 % 0x1_0000_0000) % 0x1_0000_0000
  {
    hide Low;
    AddCounters(n, size);
  }

  lemma LowFits(n: nat)
    ensures Low(n) * 8 < 0x1_0000_0000
  {
  }

  lemma NextBlock(n: nat)
    ensures (n + 64 - n % 64) % 64 == 0
  {
    assert n + 64 - n % 64 == (n / 64 + 1) * 64;
  }

  lemma RestLength(m: seq<byte>, d: seq<byte>)
    requires |m| % 64 + |d| < 64
    ensures |m + d| % 64 == |m| % 64 + |d|
  {
  }

  lemma NothingWaits(m: seq<byte>, data: seq<byte>)
    requires |m| % 64 == 0
    ensures Whole(m) == m == m + data[..0]
  {
    WholeAndRest(m, |m|);
  }

  lemma BlocksAdd(a: nat, b: nat)
    requires a % 64 == 0 && b % 64 == 0
    ensures (a + b) % 64 == 0
  {
    assert a + b == (a / 64 + b / 64) * 64;
  }

  /** Folding the next whole blocks of the data. */
  lemma NextBlocks(m: seq<byte>, data: seq<byte>, from: nat, whole: nat, f: Compression)
    requires from + whole <= |data| && (|m| + from) % 64 == 0 && whole % 64 == 0 && (|m| + from + whole) % 64 == 0
    ensures Fold(f, INITIAL, m + data[..from + whole]) == Fold(f, Fold(f, INITIAL, m + data[..from]), data[from..from + whole])
  {
    hide Fold;
    FoldConcat(f, INITIAL, m + data[..from], data[from..from + whole]);
    assert m + data[..from] + data[from..from + whole] == m + data[..from + whole];
  }

  /** The bytes behind the last whole block are the rest of the message. */
  lemma RestOfData(m: seq<byte>, data: seq<byte>, from: nat)
    requires from <= |data| && (|m| + from) % 64 == 0 && |data| - from < 64
    ensures Whole(m + data) == m + data[..from] && Rest(m + data) == data[from..] && |m + data| % 64 == |data| - from
  {
    hide Whole, Rest;
    WholeAndRest(m + data, |m| + from);
    assert (m + data)[..|m| + from] == m + data[..from];
    assert (m + data)[|m| + from..] == data[from..];
  }

  lemma SameRest(n: nat)
    ensures Low(n) % 64 == n % 64
  {
    var q, l := n / 0x2000_0000, Low(n);
    ModUnique(n, q * 0x80_0000 + l / 64, l % 64, 64);
  }

  lemma WrapIsHarmless(x: nat)
    ensures x % 0x1_0000_0000_0000_0000 % 0x2000_0000 == x % 0x2000_0000
  {
    var q := x / 0x1_0000_0000_0000_0000;
    var y := x % 0x1_0000_0000_0000_0000;
    assert x == (q * 0x8_0000_0000 + y / 0x2000_0000) * 0x2000_0000 + y % 0x2000_0000;
    ModUnique(x, q * 0x8_0000_0000 + y / 0x2000_0000, y % 0x2000_0000, 0x2000_0000);
  }

  class Md5Context {
    const f: Compression
    var lo: uint32
    var hi: uint32
    var regs: Regs
    var buffer: array<byte>
    ghost var message: seq<byte>

    /** Whole blocks of the message are folded, the rest waits in the buffer, hi and lo count the bytes. */
    ghost predicate Valid()
      reads this, buffer
    {
      && buffer.Length == 64
      && lo == Low(|message|) && hi == High(|message|)
      && regs == Fold(f, INITIAL, Whole(message))
      && buffer[..|message| % 64] == Rest(message)
    }

    /** md5_init */
    constructor (f: Compression)
      ensures Valid() && fresh(buffer) && message == [] && this.f == f
    {
      this.f := f;
      lo, hi := 0, 0;
      regs := INITIAL;
      buffer := new byte[64];
      message := [];
    }

    /** body: folds the blocks of data from position from up to position to. */
    method Body(data: seq<byte>, from: nat, to: nat)
      requires from < to <= |data| && (to - from) % 64 == 0
      modifies this`regs
      ensures regs == Fold(f, old(regs), data[from..to])
    {
      var p := from;
      ghost var left := (to - from) / 64;
      assert data[to..to] == [];
      while true
        invariant from <= p && to - p == 64 * left && left > 0
        invariant Fold(f, old(regs), data[from..to]) == Fold(f, regs, data[p..to])
        decreases left
      {
        left := left - 1;
        assert data[p..to][..64] == data[p..p + 64] && data[p..to][64..] == data[p + 64..to];
        regs := f(regs, data[p..p + 64]);
        p := p + 64;
        if p == to {
          break;
        }
      }
    }

    /** memcpy of data[from..from + n] into the buffer at position at. */
    method Fill(at: nat, data: seq<byte>, from: nat, n: nat)
      requires buffer.Length == 64 && at + n <= 64 && from + n <= |data|
      modifies buffer
      ensures buffer[..at + n] == old(buffer[..at]) + data[from..from + n]
    {
      forall i | 0 <= i < n {
        buffer[at + i] := data[from + i];
      }
    }

    /** The byte counter in two words, of 29 and 32 bits. */
    method Count(size: nat, ghost n: nat)
      requires size < 0x1_0000_0000_0000_0000 && lo == Low(n) && hi == High(n)
      modifies this`lo, this`hi
      ensures lo == Low(n + size) && hi == High(n + size)
    {
      hide Low, High;
      CountedLow(n, size);
      CountedHigh(n, size);
      var savedLo := lo;
      lo := (savedLo + size) % 0x1_0000_0000_0000_0000 % 0x2000_0000;
      if lo < savedLo {
        hi := (hi + 1) % 0x1_0000_0000;
      }
      hi := (hi + size / 0x2000_0000 % 0x1_0000_0000) % 0x1_0000_0000;
    }

    /** md5_update */
    method Update(data: seq<byte>)
      requires Valid() && |data| < 0x1_0000_0000_0000_0000
      modifies this, buffer
      ensures Valid() && buffer == old(buffer)
      ensures message == old(message) + data
    {
      hide Fold, Whole, Rest, High;
      ghost var m := message;
      var used := lo % 64;
      SameRest(|m|);
      Count(|data|, |m|);
      hide Low;
      message := message + data;
      if used != 0 && |data| < 64 - used {
        Fill(used, data, 0, |data|);
        RestGrows(m, data);
        assert data[0..|data|] == data;
        RestLength(m, data);
        return;
      }
      var from := 0;
      if used != 0 {
        from := 64 - used;
        Complete(data, used, m);
      } else {
        NothingWaits(m, data);
      }
      Remaining(data, from, m);
    }

    /** The buffer is completed with the first bytes of data and folded. */
    method Complete(data: seq<byte>, used: nat, ghost m: seq<byte>)
      requires buffer.Length == 64 && used == |m| % 64 != 0 && 64 - used <= |data|
      requires regs == Fold(f, INITIAL, Whole(m)) && buffer[..used] == Rest(m)
      modifies this`regs, buffer
      ensures (|m| + 64 - used) % 64 == 0 && regs == Fold(f, INITIAL, m + data[..64 - used])
    {
      hide Fold, Whole, Rest;
      var available := 64 - used;
      Fill(used, data, 0, available);
      NextBlock(|m|);
      FoldMore(f, m, data[..available]);
      assert data[0..available] == data[..available] && buffer[..][0..64] == buffer[..64];
      Body(buffer[..], 0, 64);
    }

    /** The part of md5_update behind the completed buffer. */
    method Remaining(data: seq<byte>, from0: nat, ghost m: seq<byte>)
      requires buffer.Length == 64 && from0 <= |data| && (|m| + from0) % 64 == 0
      requires regs == Fold(f, INITIAL, m + data[..from0]) && message == m + data
      modifies this`regs, buffer
      ensures regs == Fold(f, INITIAL, Whole(message)) && buffer[..|message| % 64] == Rest(message)
    {
      hide Fold, Whole, Rest;
      var from := from0;
      if |data| - from >= 64 {
        var whole := (|data| - from) / 64 * 64;
        BlocksAdd(|m| + from, whole);
        NextBlocks(m, data, from, whole, f);
        Body(data, from, from + whole);
        from := from + whole;
      }
      Fill(0, data, from, |data| - from);
      RestOfData(m, data, from);
      assert [] + data[from..|data|] == data[from..|data|] == data[from..];
    }

    method StoreWord(at: nat, v: uint32)
      requires buffer.Length == 64 && at + 4 <= 64
      modifies buffer
      ensures buffer[..at + 4] == old(buffer[..at]) + LittleEndian(v, 4)
      ensures buffer[at + 4..] == old(buffer[at + 4..])
    {
      buffer[at] := v % 0x100;
      buffer[at + 1] := v / 0x100 % 0x100;
      buffer[at + 2] := v / 0x1_0000 % 0x100;
      buffer[at + 3] := v / 0x100_0000 % 0x100;
      FourBytes(v);
    }

    /** memset of the buffer with zeros from position at on. */
    method Clear(at: nat, n: nat)
      requires buffer.Length == 64 && at + n <= 64
      modifies buffer
      ensures buffer[..at + n] == old(buffer[..at]) + ZeroBytes(n)
    {
      forall i | 0 <= i < n {
        buffer[at + i] := 0;
      }
    }

    /** md5_finish: the digest of the whole message; the context is wiped. */
    method Finish() returns (result: seq<byte>)
      requires Valid()
      modifies this, buffer
      ensures result == Digest(f, old(message))
      ensures lo == hi == 0 && regs == Regs(0, 0, 0, 0) && buffer == old(buffer) && buffer[..] == ZeroBytes(64)
    {
      hide Fold, Whole, Rest, High, Low, Padded, FirstPad;
      ghost var m := message;
      var used := PadFirst(m);
      PadLast(used, m);
      result := Output(regs);
      lo, hi, regs := 0, 0, Regs(0, 0, 0, 0);
      Clear(0, 64);
      assert buffer[..] == buffer[..64];
    }

    /** The 0x80 and, if the length has no room behind it, zeros up to a block of their own. */
    method PadFirst(ghost m: seq<byte>) returns (used: nat)
      requires buffer.Length == 64 && lo == Low(|m|) && regs == Fold(f, INITIAL, Whole(m)) && buffer[..|m| % 64] == Rest(m)
      modifies this`regs, buffer
      ensures used <= 56 && (|m| + |FirstPad(|m|)| - used) % 64 == 0
      ensures regs == Fold(f, INITIAL, Whole(m + FirstPad(|m|))) && buffer[..used] == Rest(m + FirstPad(|m|))
    {
      hide Fold, Whole, Rest, FirstPad, Low;
      SameRest(|m|);
      ghost var d := FirstPad(|m|);
      FirstPadIs(|m|);
      used := lo % 64;
      buffer[used] := 0x80;
      used := used + 1;
      assert buffer[..used] == Rest(m) + [0x80];
      var available := 64 - used;
      if available < 8 {
        Clear(used, available);
        FoldMore(f, m, d);
        assert Rest(m) + [0x80] + ZeroBytes(available) == Rest(m) + d;
        assert buffer[..][0..64] == buffer[..64];
        Body(buffer[..], 0, 64);
        WholeAndRest(m + d, |m + d|);
        assert (m + d)[..|m + d|] == m + d && buffer[..0] == (m + d)[|m + d|..];
        used := 0;
      } else {
        RestGrows(m, d);
      }
    }

    /** Zeros up to the length field, the length, and the last block. */
    method PadLast(used: nat, ghost m: seq<byte>)
      requires buffer.Length == 64 && lo == Low(|m|) && hi == High(|m|)
      requires used <= 56 && (|m| + |FirstPad(|m|)| - used) % 64 == 0
      requires regs == Fold(f, INITIAL, Whole(m + FirstPad(|m|))) && buffer[..used] == Rest(m + FirstPad(|m|))
      modifies this`regs, buffer
      ensures regs == Fold(f, INITIAL, Padded(m))
    {
      hide Fold, Whole, Rest, FirstPad, Low, High, Padded, LittleEndian;
      ghost var rest, zeros := buffer[..used], ZeroBytes(56 - used);
      Clear(used, 56 - used);
      LengthField(|m|);
      LowFits(|m|);
      StoreWord(56, lo * 8);
      StoreWord(60, hi);
      Append(rest, zeros, LittleEndian(lo * 8, 4), LittleEndian(hi, 4));
      PaddedParts(m, used);
      FoldMore(f, m + FirstPad(|m|), zeros + LengthBytes(m));
      assert buffer[..][0..64] == buffer[..64];
      Body(buffer[..], 0, 64);
    }
  }

  lemma Append(a: seq<byte>, b: seq<byte>, c: seq<byte>, d: seq<byte>)
    ensures a + b + c + d == a + (b + (c + d))
  {
  }

  lemma FourBytes(v: nat)
    ensures LittleEndian(v, 4) ==
            [v % 0x100, v / 0x100 % 0x100, v / 0x1_0000 % 0x100, v / 0x100_0000 % 0x100]
  {
    assert v / 0x100 / 0x100 == v / 0x1_0000 && v / 0x1_0000 / 0x100 == v / 0x100_0000;
    assert LittleEndian(v, 4) == [v % 256] + LittleEndian(v / 256, 3);
    assert LittleEndian(v / 256, 3) == [v / 256 % 256] + LittleEndian(v / 256 / 256, 2);
    assert LittleEndian(v / 0x1_0000, 2) == [v / 0x1_0000 % 256] + LittleEndian(v / 0x1_0000 / 256, 1);
    assert LittleEndian(v / 0x100_0000, 1) == [v / 0x100_0000 % 256] + LittleEndian(v / 0x100_0000 / 256, 0);
  }

  lemma {:induction false} LittleEndianSplit(a: nat, b: nat, n: nat, k: nat, w: nat)
    requires w == Power256(n) && a < w
    ensures LittleEndian(a + b * w, n + k) == LittleEndian(a, n) + LittleEndian(b, k)
    decreases n
  {
    if n == 0 {
      assert a + b * w == b;
    } else {
      var w1 := Power256(n - 1);
      var x := a / 256 + b * w1;
      assert a + b * w == 256 * x + a % 256 by {
        assert b * w == 256 * (b * w1);
      }
      ModUnique(a + b * w, x, a % 256, 256);
      LittleEndianSplit(a / 256, b, n - 1, k, w1);
    }
  }

  function Power256(n: nat): nat {
    if n == 0 then 1 else 256 * Power256(n - 1)
  }

  /** The eight length bytes are the low counter times eight and the high counter. */
  lemma LengthField(n: nat)
    ensures LittleEndian(8 * n % 0x1_0000_0000_0000_0000, 8) == LittleEndian(Low(n) * 8, 4) + LittleEndian(High(n), 4)
  {
    CounterMeaning(n);
    var r := n % 0x2000_0000_0000_0000;
    ModUnique(8 * n, n / 0x2000_0000_0000_0000, 8 * r, 0x1_0000_0000_0000_0000);
    assert Power256(4) == 0x1_0000_0000 by {
      assert Power256(1) == 256 && Power256(2) == 0x1_0000 && Power256(3) == 0x100_0000;
    }
    LittleEndianSplit(Low(n) * 8, High(n), 4, 4, 0x1_0000_0000);
  }

  function Concat(chunks: seq<seq<byte>>): seq<byte> {
    if chunks == [] then [] else Concat(chunks[..|chunks| - 1]) + chunks[|chunks| - 1]
  }

  /** Any sequence of updates: the digest depends on the concatenation only. */
  method HashChunks(f: Compression, chunks: seq<seq<byte>>) returns (result: seq<byte>)
    requires forall i :: 0 <= i < |chunks| ==> |chunks[i]| < 0x1_0000_0000_0000_0000
    ensures result == Digest(f, Concat(chunks))
  {
    var ctx := new Md5Context(f);
    for i := 0 to |chunks|
      invariant ctx.Valid() && fresh(ctx) && fresh(ctx.buffer) && ctx.f == f
      invariant ctx.message == Concat(chunks[..i])
    {
      assert chunks[..i + 1][..i] == chunks[..i];
      ctx.Update(chunks[i]);
    }
    assert chunks[..|chunks|] == chunks;
    result := ctx.Finish();
  }
}
