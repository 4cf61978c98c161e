/** What the escapes in a JSON string stand for (src/json.cc:363-477), against the definition of UTF-8. */
module JsonUnicode {
  import opened Common
  import opened JsonParse

  predicate IsMore(c: char) {
    0x80 <= c as int <= 0xbf
  }

  /** The six bits of a byte behind the first. */
  function Bits(c: char): (x: nat)
    requires IsMore(c)
    ensures x < 0x40
  {
    c as int - 0x80
  }

  /** The bytes are the UTF-8 encoding of v (RFC 3629, section 3): the first byte tells how many follow,
      each of those brings six bits, from the left, and no shorter encoding would do. */
  predicate Encodes(bytes: string, v: nat) {
    && |bytes| in {1, 2, 3, 4} && (forall i :: 1 <= i < |bytes| ==> IsMore(bytes[i]))
    && var lead := bytes[0] as int;
       if |bytes| == 1 then lead <= 0x7f && v == lead
       else if |bytes| == 2 then 0xc2 <= lead <= 0xdf && v == (lead - 0xc0) * 0x40 + Bits(bytes[1])
       else if |bytes| == 3 then
         0xe0 <= lead <= 0xef && v >= 0x800 && v == (lead - 0xe0) * 0x1000 + Bits(bytes[1]) * 0x40 + Bits(bytes[2])
       else
         0xf0 <= lead <= 0xf4 && 0x1_0000 <= v <= 0x10_ffff &&
         v == (lead - 0xf0) * 0x4_0000 + Bits(bytes[1]) * 0x1000 + Bits(bytes[2]) * 0x40 + Bits(bytes[3])
  }

  /** Six bits at a time. */
  lemma Split(v: nat)
    ensures v == v / 0x40 * 0x40 + v % 0x40
    ensures v / 0x1000 == v / 0x40 / 0x40 && v / 0x4_0000 == v / 0x1000 / 0x40
    ensures v == v / 0x1000 * 0x1000 + v / 0x40 % 0x40 * 0x40 + v % 0x40
    ensures v == v / 0x4_0000 * 0x4_0000 + v / 0x1000 % 0x40 * 0x1000 + v / 0x40 % 0x40 * 0x40 + v % 0x40
  {
  }

  lemma Utf8Encodes(v: nat)
    requires v <= 0x10_ffff
    ensures Encodes(Utf8(v), v)
  {
    Split(v);
  }

  /** Positional notation is unique. */
  lemma SameParts(a: nat, x: nat, b: nat, y: nat)
    requires a * 0x40 + x == b * 0x40 + y && x < 0x40 && y < 0x40
    ensures a == b && x == y
  {
  }

  lemma SameLength(a: string, b: string, v: nat)
    requires Encodes(a, v) && Encodes(b, v)
    ensures |a| == |b|
  {
  }

  /** There is one encoding of each code point. */
  lemma EncodesOnce(a: string, b: string, v: nat)
    requires Encodes(a, v) && Encodes(b, v)
    ensures a == b
  {
    SameLength(a, b, v);
    var n := |a|;
    if n == 2 {
      SameParts(a[0] as int - 0xc0, Bits(a[1]), b[0] as int - 0xc0, Bits(b[1]));
    } else if n == 3 {
      SameParts((a[0] as int - 0xe0) * 0x40 + Bits(a[1]), Bits(a[2]), (b[0] as int - 0xe0) * 0x40 + Bits(b[1]), Bits(b[2]));
      SameParts(a[0] as int - 0xe0, Bits(a[1]), b[0] as int - 0xe0, Bits(b[1]));
    } else if n == 4 {
      var a1, b1 := (a[0] as int - 0xf0) * 0x40 + Bits(a[1]), (b[0] as int - 0xf0) * 0x40 + Bits(b[1]);
      SameParts(a1 * 0x40 + Bits(a[2]), Bits(a[3]), b1 * 0x40 + Bits(b[2]), Bits(b[3]));
      SameParts(a1, Bits(a[2]), b1, Bits(b[2]));
      SameParts(a[0] as int - 0xf0, Bits(a[1]), b[0] as int - 0xf0, Bits(b[1]));
    }
  }

  lemma TheBytes(bytes: string, v: nat)
    requires Encodes(bytes, v)
    ensures v <= 0x10_ffff && bytes == Utf8(v)
  {
    hide Utf8, Encodes;
    InRange(bytes, v);
    Utf8Encodes(v);
    EncodesOnce(bytes, Utf8(v), v);
  }

  lemma InRange(bytes: string, v: nat)
    requires Encodes(bytes, v)
    ensures v <= 0x10_ffff
  {
  }

  // ----- backslash, u and four hex digits -----

  predicate EscapeAt(s: string, b: nat, x: seq<nat>) {
    && b + 6 <= |s| && s[b] == '\\' && s[b + 1] == 'u'
    && |x| == 4 && IsHex(s[b + 2], x[0]) && IsHex(s[b + 3], x[1]) && IsHex(s[b + 4], x[2]) && IsHex(s[b + 5], x[3])
  }

  function Unit(x: seq<nat>): nat
    requires |x| == 4
  {
    x[0] * 0x1000 + x[1] * 0x100 + x[2] * 0x10 + x[3]
  }

  predicate IsHigh(v: nat) {
    0xd800 <= v <= 0xdbff
  }

  predicate IsLow(v: nat) {
    0xdc00 <= v <= 0xdfff
  }

  lemma HexDigitIs(c: char, x: nat)
    ensures IsHex(c, x) <==> HexDigit(c) == Some(x)
  {
  }

  lemma EscapeIs(s: string, b: nat, x: seq<nat>)
    requires EscapeAt(s, b, x)
    ensures Hex4(s, b + 2) == Some(Unit(x))
  {
    hide HexDigit, IsHex;
    HexDigitIs(s[b + 2], x[0]);
    HexDigitIs(s[b + 3], x[1]);
    HexDigitIs(s[b + 4], x[2]);
    HexDigitIs(s[b + 5], x[3]);
  }

  /** Where four hex digits are read, they are there. */
  lemma DigitsRead(s: string, b: nat) returns (x: seq<nat>)
    requires Hex4(s, b + 2).Some? && s[b] == '\\' && s[b + 1] == 'u'
    ensures EscapeAt(s, b, x) && Hex4(s, b + 2) == Some(Unit(x))
  {
    hide HexDigit, IsHex;
    x := [HexDigit(s[b + 2]).value, HexDigit(s[b + 3]).value, HexDigit(s[b + 4]).value, HexDigit(s[b + 5]).value];
    HexDigitIs(s[b + 2], x[0]);
    HexDigitIs(s[b + 3], x[1]);
    HexDigitIs(s[b + 4], x[2]);
    HexDigitIs(s[b + 5], x[3]);
  }

  // ----- what the parser makes of an escape -----

  /** The string starts with these bytes, and goes on at q. */
  predicate Reads(s: string, b: nat, bytes: string, q: nat) {
    match ParseString(s, q)
    case Fail => ParseString(s, b) == Fail
    case Done(pos, rest) => ParseString(s, b) == Done(pos, bytes + rest)
  }

  /** One code unit that is not a high surrogate is read as its UTF-8 bytes. */
  lemma UnitReads(s: string, b: nat, x: seq<nat>, bytes: string)
    requires EscapeAt(s, b, x) && !IsHigh(Unit(x)) && Encodes(bytes, Unit(x))
    ensures Reads(s, b, bytes, b + 6)
  {
    hide Hex4, Utf8, Encodes, Unit;
    EscapeIs(s, b, x);
    TheBytes(bytes, Unit(x));
  }

  /** A pair of surrogates is read as the bytes of the code point it stands for. */
  lemma PairReads(s: string, b: nat, x: seq<nat>, y: seq<nat>, bytes: string)
    requires EscapeAt(s, b, x) && IsHigh(Unit(x)) && EscapeAt(s, b + 6, y) && IsLow(Unit(y))
    requires Encodes(bytes, 0x1_0000 + (Unit(x) - 0xd800) * 0x400 + (Unit(y) - 0xdc00))
    ensures Reads(s, b, bytes, b + 12)
  {
    hide Hex4, Utf8, Encodes, Unit;
    EscapeIs(s, b, x);
    EscapeIs(s, b + 6, y);
    SurrogateBits(Unit(x), Unit(y));
    TheBytes(bytes, 0x1_0000 + (Unit(x) - 0xd800) * 0x400 + (Unit(y) - 0xdc00));
  }

  lemma SurrogateBits(h: nat, l: nat)
    requires IsHigh(h) && IsLow(l)
    ensures h % 0x400 == h - 0xd800 && l % 0x400 == l - 0xdc00
  {
  }

  /** A high surrogate with no low one behind it is an error. */
  lemma LoneHighFails(s: string, b: nat, x: seq<nat>)
    requires EscapeAt(s, b, x) && IsHigh(Unit(x))
    requires forall y :: EscapeAt(s, b + 6, y) ==> !IsLow(Unit(y))
    ensures ParseString(s, b) == Fail
  {
    hide Hex4, Utf8, Unit;
    EscapeIs(s, b, x);
    if CharAt(s, b + 6) == '\\' && CharAt(s, b + 7) == 'u' && Hex4(s, b + 8).Some? {
      var y := DigitsRead(s, b + 6);
      assert EscapeAt(s, b + 6, y);
    }
  }

  /** So is a backslash and u without four hex digits. */
  lemma NoDigitsFails(s: string, b: nat)
    requires b + 1 < |s| && s[b] == '\\' && s[b + 1] == 'u' && forall x :: !EscapeAt(s, b, x)
    ensures ParseString(s, b) == Fail
  {
    hide Hex4, Utf8, Unit;
    if Hex4(s, b + 2).Some? {
      var x := DigitsRead(s, b);
    }
  }

  /** The escapes of one character, and those that are none. */
  lemma ShortEscapes(s: string, b: nat)
    requires b + 1 < |s| && s[b] == '\\' && s[b + 1] != 'u'
    ensures forall i :: 0 <= i < 8 && s[b + 1] == "\"\\/bfnrt"[i] ==>
              Reads(s, b, [['"', '\\', '/', 8 as char, 12 as char, 10 as char, 13 as char, 9 as char][i]], b + 2)
    ensures s[b + 1] !in "\"\\/bfnrt" ==> ParseString(s, b) == Fail
  {
  }
}
