/**
 Integer printing by four-digit table words (src/fast.cc, include/co/fast.h).
 A uint32 in memory is its four bytes in address order (little-endian machine).
 */
module Itoa {
  import opened Common
  import opened Decimal

  datatype Word = Word(b0: byte, b1: byte, b2: byte, b3: byte)

  /** x | 0x30: bits 4 and 5 are set, the others stay. */
  function Or30(x: byte): byte {
    x / 64 * 64 + 0x30 + x % 16
  }

  /** w | 0x30303030 */
  function OrWord(w: Word): Word {
    Word(Or30(w.b0), Or30(w.b1), Or30(w.b2), Or30(w.b3))
  }

  function Chars(w: Word): (s: string)
    ensures |s| == 4
  {
    [w.b0 as char, w.b1 as char, w.b2 as char, w.b3 as char]
  }

  /** The characters of consecutive words in memory. */
  function Memory(ws: seq<Word>): (s: string)
    ensures |s| == 4 * |ws|
  {
    if ws == [] then "" else Chars(ws[0]) + Memory(ws[1..])
  }

  lemma {:induction false} MemoryAt(ws: seq<Word>, k: nat)
    requires k < 4 * |ws|
    ensures Memory(ws)[k] == Chars(ws[k / 4])[k % 4]
  {
    if k >= 4 {
      MemoryAt(ws[1..], k - 4);
    }
  }

  /** Four digits of i with leading zeros. */
  function Pad4(i: nat): (s: string)
    requires i < 10000
    ensures |s| == 4 && AllDigits(s)
  {
    [DigitChar(i / 10 / 10 / 10), DigitChar(i / 10 / 10 % 10), DigitChar(i / 10 % 10), DigitChar(i % 10)]
  }

  /**
   What the table entry of i must provide: its high nibble counts the digits, its
   last bytes are the digits, and after the OR all four bytes are the padded digits.
   */
  ghost predicate EntryFor(i: nat, w: Word)
    requires i < 10000
  {
    && w.b0 / 16 + 1 == |Text(i)| <= 4
    && Chars(w)[4 - |Text(i)|..] == Text(i)
    && Chars(OrWord(w)) == Pad4(i)
  }

  ghost predicate IsTable(p: array<Word>)
    reads p
  {
    p.Length == 10000 && forall i :: 0 <= i < 10000 ==> EntryFor(i, p[i])
  }

  /** The text of a small number is its padded form without the leading zeros. */
  lemma SmallText(i: nat)
    requires i < 10000
    ensures |Text(i)| == if i > 999 then 4 else if i > 99 then 3 else if i > 9 then 2 else 1
    ensures Text(i) == Pad4(i)[4 - |Text(i)|..]
  {
    hide Text, DigitChar, Pad4;
    if i <= 9 {
      OneDigitText(i);
    } else if i <= 99 {
      TwoDigitText(i);
    } else if i <= 999 {
      ThreeDigitText(i);
    } else {
      FourDigitText(i);
    }
  }

  lemma PadTail(i: nat, n: nat)
    requires i < 10000 && 1 <= n <= 4
    ensures Pad4(i)[4 - n..] ==
            [DigitChar(i / 10 / 10 / 10), DigitChar(i / 10 / 10 % 10), DigitChar(i / 10 % 10), DigitChar(i % 10)][4 - n..]
  {
    hide DigitChar;
  }

  lemma OneDigitText(i: nat)
    requires i < 10
    ensures Text(i) == [DigitChar(i)] == Pad4(i)[3..]
  {
    hide Text, DigitChar, Pad4;
    TextOfDigit(i);
    PadTail(i, 1);
  }

  lemma TwoDigitText(i: nat)
    requires 10 <= i < 100
    ensures Text(i) == [DigitChar(i / 10), DigitChar(i % 10)] == Pad4(i)[2..]
  {
    hide Text, DigitChar, Pad4;
    TextOfSum(i / 10, i % 10);
    OneDigitText(i / 10);
    PadTail(i, 2);
  }

  lemma ThreeDigitText(i: nat)
    requires 100 <= i < 1000
    ensures Text(i) == [DigitChar(i / 10 / 10), DigitChar(i / 10 % 10), DigitChar(i % 10)] == Pad4(i)[1..]
  {
    hide Text, DigitChar, Pad4;
    TextOfSum(i / 10, i % 10);
    TwoDigitText(i / 10);
    PadTail(i, 3);
  }

  lemma FourDigitText(i: nat)
    requires 1000 <= i < 10000
    ensures Text(i) == Pad4(i)
  {
    hide Text, DigitChar;
    TextOfSum(i / 10, i % 10);
    ThreeDigitText(i / 10);
  }

  lemma SameDigits(i: nat)
    requires i < 10000
    ensures i / 10 / 10 / 10 == i / 1000 && i % 100 / 10 == i / 10 % 10 && i % 1000 / 100 == i / 10 / 10 % 10
  {
  }

  /** The bytes that the table stores for i. */
  function Packed(i: nat): Word
    requires i < 10000
  {
    Word(i / 1000 + 16 * (if i > 999 then 3 else if i > 99 then 2 else if i > 9 then 1 else 0),
         i % 1000 / 100 + 48, i % 100 / 10 + 48, i % 10 + 48)
  }

  /** The OR with 0x30 keeps a digit and turns the counting nibble into one. */
  lemma OrOfDigit(d: nat, n: nat)
    requires d < 10 && n <= 3
    ensures Or30(d + 48) == d + 48 && Or30(d + 16 * n) == d + 48
  {
    if n == 0 {
    } else if n == 1 {
    } else if n == 2 {
    } else {
    }
  }

  lemma PackedOr(i: nat)
    requires i < 10000
    ensures Chars(OrWord(Packed(i))) == Pad4(i)
  {
    hide Or30;
    SameDigits(i);
    OrOfDigit(i / 1000, if i > 999 then 3 else if i > 99 then 2 else if i > 9 then 1 else 0);
    OrOfDigit(i % 1000 / 100, 0);
    OrOfDigit(i % 100 / 10, 0);
    OrOfDigit(i % 10, 0);
  }

  lemma PackedIsEntry(i: nat)
    requires i < 10000
    ensures EntryFor(i, Packed(i))
  {
    SmallText(i);
    PackedOr(i);
    SameDigits(i);
    var w := Packed(i);
    assert w.b0 / 16 + 1 == |Text(i)|;
    assert Chars(w)[1..] == Pad4(i)[1..];
    if |Text(i)| < 4 {
      assert Chars(w)[4 - |Text(i)|..] == Chars(w)[1..][3 - |Text(i)|..];
    } else {
      assert Chars(w)[0] == Pad4(i)[0];
      assert Chars(w) == Pad4(i);
    }
  }

  method InitItoaTable(p: array<Word>)
    requires p.Length == 10000
    modifies p
    ensures IsTable(p)
  {
    var i := 0;
    while i < 10000
      invariant 0 <= i <= 10000
      invariant forall j :: 0 <= j < i ==> EntryFor(j, p[j])
    {
      var b3: byte := i % 10 + 48;
      var b2: byte := i % 100 / 10 + 48;
      var b1: byte := i % 1000 / 100 + 48;
      var b0: byte := i / 1000;
      if i > 999 {
        b0 := b0 + 0x30;    // the nibble is still free, so OR is addition
      } else if i > 99 {
        b0 := b0 + 0x20;
      } else if i > 9 {
        b0 := b0 + 0x10;
      }
      assert Word(b0, b1, b2, b3) == Packed(i);
      PackedIsEntry(i);
      p[i] := Word(b0, b1, b2, b3);
      i := i + 1;
    }
  }

  lemma DigitsSum(r: nat)
    requires r < 10000
    ensures r == ((r / 10 / 10 / 10 * 10 + r / 10 / 10 % 10) * 10 + r / 10 % 10) * 10 + r % 10
  {
  }

  /** Canonical text, cut before the last four digits. */
  lemma TextSplit(q: nat, r: nat)
    requires q > 0 && r < 10000
    ensures Text(q * 10000 + r) == Text(q) + Pad4(r)
  {
    hide Text;
    var d3, d2, d1, d0 := r / 10 / 10 / 10, r / 10 / 10 % 10, r / 10 % 10, r % 10;
    DigitsSum(r);
    TextOfSum(q, d3);
    TextOfSum(q * 10 + d3, d2);
    TextOfSum((q * 10 + d3) * 10 + d2, d1);
    TextOfSum(((q * 10 + d3) * 10 + d2) * 10 + d1, d0);
  }

  /** memcpy of the last len characters of the words b to buf + at. */
  method CopyTail(b: seq<Word>, len: nat, buf: array<char>, at: nat)
    requires len <= 4 * |b| && at + len <= buf.Length
    modifies buf
    ensures buf[at..at + len] == Memory(b)[4 * |b| - len..]
    ensures buf[..at] == old(buf[..at]) && buf[at + len..] == old(buf[at + len..])
  {
    var k := 0;
    while k < len
      invariant 0 <= k <= len
      invariant buf[at..at + k] == Memory(b)[4 * |b| - len..][..k]
      invariant buf[..at] == old(buf[..at]) && buf[at + len..] == old(buf[at + len..])
    {
      var j := 4 * |b| - len + k;
      MemoryAt(b, j);
      ghost var before := buf[at..at + k];
      buf[at + k] := Chars(b[j / 4])[j % 4];
      assert buf[at..at + k] == before;
      assert buf[at..at + k + 1] == before + [buf[at + k]];
      k := k + 1;
    }
  }

  /** Padded groups of four digits in a row. */
  function Groups(gs: seq<nat>): (s: string)
    requires forall i :: 0 <= i < |gs| ==> gs[i] < 10000
    ensures |s| == 4 * |gs|
  {
    if gs == [] then "" else Pad4(gs[0]) + Groups(gs[1..])
  }

  lemma {:induction false} MemoryOfPadded(ws: seq<Word>, gs: seq<nat>)
    requires |ws| == |gs|
    requires forall i :: 0 <= i < |gs| ==> gs[i] < 10000 && Chars(ws[i]) == Pad4(gs[i])
    ensures Memory(ws) == Groups(gs)
  {
    hide Chars, Pad4;
    if gs != [] {
      MemoryOfPadded(ws[1..], gs[1..]);
    }
  }

  lemma Associate(a: string, b: string, c: string)
    ensures (a + b) + c == a + (b + c)
  {
  }

  lemma {:induction false} MemoryConcat(a: seq<Word>, b: seq<Word>)
    ensures Memory(a + b) == Memory(a) + Memory(b)
  {
    hide Chars;
    if a == [] {
      assert a + b == b;
    } else {
      MemoryConcat(a[1..], b);
      assert (a + b)[1..] == a[1..] + b;
      Associate(Chars(a[0]), Memory(a[1..]), Memory(b));
    }
  }

  lemma {:induction false} GroupsConcat(g: nat, gs: seq<nat>)
    requires g < 10000 && forall i :: 0 <= i < |gs| ==> gs[i] < 10000
    ensures Groups([g] + gs) == Pad4(g) + Groups(gs)
  {
    assert ([g] + gs)[1..] == gs;
  }

  /**
   The state of the digit groups while the printer divides: the words after p hold
   the padded groups gs, and q stands in front of them.
   */
  ghost predicate Prefixed(v: nat, q: nat, gs: seq<nat>) {
    && (forall i :: 0 <= i < |gs| ==> gs[i] < 10000)
    && (q > 0 ==> Text(v) == Text(q) + Groups(gs))
    && (gs == [] ==> v == q)
    && (gs != [] ==> q > 0)
  }

  lemma PrefixedStep(v: nat, q: nat, gs: seq<nat>)
    requires Prefixed(v, q, gs) && q > 9999
    ensures Prefixed(v, q / 10000, [q % 10000] + gs)
  {
    hide Text, Groups, Pad4;
    TextSplit(q / 10000, q % 10000);
    GroupsConcat(q % 10000, gs);
    Associate(Text(q / 10000), Pad4(q % 10000), Groups(gs));
    if gs == [] {
      assert Groups(gs) == "";
      assert Text(q) + "" == Text(q);
    }
  }

  /** The words behind p are the padded groups that follow q in the text of v. */
  ghost predicate Image(ws: seq<Word>, p: nat, v: nat, q: nat) {
    p < |ws| && exists gs :: |gs| == |ws| - p - 1 && Prefixed(v, q, gs) && Shows(ws[p + 1..], gs)
  }

  ghost predicate Shows(ws: seq<Word>, gs: seq<nat>) {
    && |ws| == |gs|
    && forall i :: 0 <= i < |gs| ==> gs[i] < 10000 && Chars(ws[i]) == Pad4(gs[i])
  }

  lemma ImageStart(ws: seq<Word>, v: nat)
    requires |ws| > 0
    ensures Image(ws, |ws| - 1, v, v)
  {
    assert Prefixed(v, v, []) && Shows(ws[|ws|..], []);
  }

  /** Storing the padded low group of q and going on with q / 10000. */
  lemma ImageStep(ws: seq<Word>, p: nat, v: nat, q: nat, w: Word)
    requires Image(ws, p, v, q) && p > 0 && q > 9999 && EntryFor(q % 10000, w)
    ensures Image(ws[p := OrWord(w)], p - 1, v, q / 10000)
  {
    hide Text, Prefixed, Shows, OrWord;
    var gs :| |gs| == |ws| - p - 1 && Prefixed(v, q, gs) && Shows(ws[p + 1..], gs);
    PrefixedStep(v, q, gs);
    var ws2 := ws[p := OrWord(w)];
    assert ws2[p..] == [OrWord(w)] + ws[p + 1..];
    ShowsOneMore(ws[p + 1..], gs, OrWord(w), q % 10000);
  }

  lemma ShowsOneMore(ws: seq<Word>, gs: seq<nat>, w: Word, g: nat)
    requires Shows(ws, gs) && g < 10000 && Chars(w) == Pad4(g)
    ensures Shows([w] + ws, [g] + gs)
  {
    hide Chars, Pad4;
  }

  lemma ImageStore(ws: seq<Word>, p: nat, v: nat, q: nat, w: Word)
    requires Image(ws, p, v, q)
    ensures Image(ws[p := w], p, v, q)
  {
    assert ws[p := w][p + 1..] == ws[p + 1..];
  }

  lemma MemoryFrom(ws: seq<Word>, p: nat)
    requires p < |ws|
    ensures Memory(ws)[4 * p..] == Chars(ws[p]) + Memory(ws[p + 1..])
  {
    assert ws == ws[..p] + ws[p..] && ws[p..][1..] == ws[p + 1..];
    MemoryConcat(ws[..p], ws[p..]);
  }

  /** The word at p is the plain entry of q; the text of v is the tail of the memory. */
  lemma ImageEnd(ws: seq<Word>, p: nat, v: nat, q: nat)
    requires Image(ws, p, v, q) && q < 10000 && EntryFor(q, ws[p])
    ensures |Text(v)| == 4 * (|ws| - p - 1) + ws[p].b0 / 16 + 1
    ensures |Text(v)| <= 4 * |ws| && Memory(ws)[4 * |ws| - |Text(v)|..] == Text(v)
  {
    hide Text, Memory, Chars, OrWord, Groups, Pad4, Prefixed, Shows;
    var gs :| |gs| == |ws| - p - 1 && Prefixed(v, q, gs) && Shows(ws[p + 1..], gs);
    ImageMemory(ws, p, v, q, gs);
    TailOfWord(Memory(ws), 4 * p, Chars(ws[p]), Groups(gs), Text(q));
  }

  /** The memory from the word at p on, and the text of v, end in the same groups. */
  lemma ImageMemory(ws: seq<Word>, p: nat, v: nat, q: nat, gs: seq<nat>)
    requires p < |ws| && |gs| == |ws| - p - 1 && Prefixed(v, q, gs) && Shows(ws[p + 1..], gs)
    ensures forall i :: 0 <= i < |gs| ==> gs[i] < 10000
    ensures Memory(ws)[4 * p..] == Chars(ws[p]) + Groups(gs) && Text(v) == Text(q) + Groups(gs)
  {
    hide Text, Memory, Chars, Pad4;
    MemoryFrom(ws, p);
    MemoryOfPadded(ws[p + 1..], gs);
    if gs == [] {
      assert Text(q) + "" == Text(q);
    }
  }

  /** Behind position at the memory holds c and g; t is the tail of c. */
  lemma TailOfWord(memory: string, at: nat, c: string, g: string, t: string)
    requires |c| == 4 && |t| <= 4 && c[4 - |t|..] == t
    requires at <= |memory| && memory[at..] == c + g
    ensures memory[at + 4 - |t|..] == t + g
  {
    assert memory[at + 4 - |t|..] == memory[at..][4 - |t|..];
  }

  method U32ToA(table: array<Word>, v: uint32, buf: array<char>, at: nat) returns (len: nat)
    requires IsTable(table) && at + |Text(v)| <= buf.Length
    modifies buf
    ensures len == |Text(v)| && buf[at..at + len] == Text(v)
    ensures buf[..at] == old(buf[..at]) && buf[at + len..] == old(buf[at + len..])
  {
    hide Text, Image, EntryFor, Memory, OrWord, Chars;
    var b := seq(3, _ => Word(0, 0, 0, 0));
    var p := 2;
    ghost var q: nat := v;
    ImageStart(b, v);
    if v > 9999 {
      var b1 := v / 10000;
      ImageStep(b, p, v, q, table[v - b1 * 10000]);
      b := b[2 := OrWord(table[v - b1 * 10000])];
      p, q := p - 1, b1;
      if b1 > 9999 {
        var b0 := b1 / 10000;
        ImageStep(b, p, v, q, table[b1 - b0 * 10000]);
        b := b[1 := OrWord(table[b1 - b0 * 10000])];
        p, q := p - 1, b0;
        ImageStore(b, p, v, q, table[b0]);
        b := b[0 := table[b0]];
      } else {
        ImageStore(b, p, v, q, table[b1]);
        b := b[1 := table[b1]];
      }
    } else {
      ImageStore(b, p, v, q, table[v]);
      b := b[2 := table[v]];
    }
    ImageEnd(b, p, v, q);
    len := 9 + b[p].b0 / 16 - 4 * p;
    CopyTail(b, len, buf, at);
  }

  method U64ToA(table: array<Word>, v: uint64, buf: array<char>, at: nat) returns (len: nat)
    requires IsTable(table) && at + |Text(v)| <= buf.Length
    modifies buf
    ensures len == |Text(v)| && buf[at..at + len] == Text(v)
    ensures buf[..at] == old(buf[..at]) && buf[at + len..] == old(buf[at + len..])
  {
    hide Text, Image, EntryFor, Memory, OrWord, Chars;
    var b := seq(5, _ => Word(0, 0, 0, 0));
    var p := 4;
    ghost var q: nat := v;
    ImageStart(b, v);
    if v > 9999 {
      var x := v / 10000;
      ImageStep(b, p, v, q, table[v - x * 10000]);
      b := b[4 := OrWord(table[v - x * 10000])];
      p, q := p - 1, x;
      if x > 9999 {
        var v2 := x / 10000;
        ImageStep(b, p, v, q, table[x - v2 * 10000]);
        b := b[3 := OrWord(table[x - v2 * 10000])];
        p, q := p - 1, v2;
        if v2 > 9999 {
          var x2 := v2 / 10000;
          ImageStep(b, p, v, q, table[v2 - x2 * 10000]);
          b := b[2 := OrWord(table[v2 - x2 * 10000])];
          p, q := p - 1, x2;
          if x2 > 9999 {
            var b0: uint32 := x2 / 10000;
            ImageStep(b, p, v, q, table[x2 - b0 * 10000]);
            b := b[1 := OrWord(table[x2 - b0 * 10000])];
            p, q := p - 1, b0;
            ImageStore(b, p, v, q, table[b0]);
            b := b[0 := table[b0]];
          } else {
            ImageStore(b, p, v, q, table[x2]);
            b := b[1 := table[x2]];
          }
        } else {
          ImageStore(b, p, v, q, table[v2]);
          b := b[2 := table[v2]];
        }
      } else {
        ImageStore(b, p, v, q, table[x]);
        b := b[3 := table[x]];
      }
    } else {
      ImageStore(b, p, v, q, table[v]);
      b := b[4 := table[v]];
    }
    ImageEnd(b, p, v, q);
    len := 17 + b[p].b0 / 16 - 4 * p;
    CopyTail(b, len, buf, at);
  }

  /** i64toa: the unsigned negation of the minimum is its own magnitude. */
  method I64ToA(table: array<Word>, v: int64, buf: array<char>) returns (len: nat)
    requires IsTable(table) && |IntText(v)| <= buf.Length
    modifies buf
    ensures len == |IntText(v)| && buf[..len] == IntText(v)
    ensures buf[len..] == old(buf[len..])
  {
    if v >= 0 {
      len := U64ToA(table, v, buf, 0);
      assert buf[..len] == buf[0..len];
    } else {
      buf[0] := '-';
      var n := U64ToA(table, 0 - v, buf, 1);
      len := n + 1;
      assert buf[..len] == buf[..1] + buf[1..len];
    }
  }

  method I32ToA(table: array<Word>, v: int32, buf: array<char>) returns (len: nat)
    requires IsTable(table) && |IntText(v)| <= buf.Length
    modifies buf
    ensures len == |IntText(v)| && buf[..len] == IntText(v)
    ensures buf[len..] == old(buf[len..])
  {
    if v >= 0 {
      len := U32ToA(table, v, buf, 0);
      assert buf[..len] == buf[0..len];
    } else {
      buf[0] := '-';
      var n := U32ToA(table, 0 - v, buf, 1);
      len := n + 1;
      assert buf[..len] == buf[..1] + buf[1..len];
    }
  }
}
