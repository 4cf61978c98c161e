/**
 * The language that the parser of src/json.cc:363-703 accepts, as a grammar over the positions of the text,
 * and that the parser returns v exactly if the grammar derives v: it accepts no other text and no other value.
 */
module JsonGrammar {
  import opened Common
  import opened JsonText
  import opened JsonParse
  import opened Atoi
  import U = JsonUnicode

  // ----- the grammar: s[b..e] is an item of the given kind and value -----

  /** Nothing but blanks, tabs and line ends. */
  predicate White(s: string, b: nat, e: nat) {
    b <= e <= |s| && forall i :: b <= i < e ==> s[i] in " \t\r\n"
  }

  /** The character or escape s[b..q] stands for these bytes: itself, an escape of two characters, one of six
      for a code unit that is no high surrogate, or one of twelve for a pair of surrogates. */
  ghost predicate Denotes(s: string, b: nat, q: nat, bytes: string) {
    && b < q <= |s|
    && (PlainAt(s, b, q, bytes) || ShortAt(s, b, q, bytes) ||
        (q == b + 6 && exists u: seq<nat> :: UnitAt(s, b, u, bytes)) ||
        (q == b + 12 && exists u: seq<nat>, w: seq<nat> :: PairAt(s, b, u, w, bytes)))
  }

  predicate PlainAt(s: string, b: nat, q: nat, bytes: string)
    requires b < |s|
  {
    q == b + 1 && s[b] !in ['"', '\\', '\0'] && bytes == [s[b]]
  }

  predicate ShortAt(s: string, b: nat, q: nat, bytes: string)
    requires b < q <= |s|
  {
    && q == b + 2 && s[b] == '\\' && |bytes| == 1
    && exists i :: 0 <= i < 8 && s[b + 1] == "\"\\/bfnrt"[i] &&
                   bytes[0] == ['"', '\\', '/', 8 as char, 12 as char, 10 as char, 13 as char, 9 as char][i]
  }

  predicate UnitAt(s: string, b: nat, u: seq<nat>, bytes: string) {
    U.EscapeAt(s, b, u) && !U.IsHigh(U.Unit(u)) && U.Encodes(bytes, U.Unit(u))
  }

  predicate PairAt(s: string, b: nat, u: seq<nat>, w: seq<nat>, bytes: string) {
    && U.EscapeAt(s, b, u) && U.IsHigh(U.Unit(u)) && U.EscapeAt(s, b + 6, w) && U.IsLow(U.Unit(w))
    && U.Encodes(bytes, 0x1_0000 + (U.Unit(u) - 0xd800) * 0x400 + (U.Unit(w) - 0xdc00))
  }

  /** The characters from b on, up to the closing quote before e, denote x. */
  ghost predicate CharsAt(s: string, b: nat, e: nat, x: string)
    decreases if b < e then e - b else 0
  {
    && b < e <= |s|
    && if s[b] == '"' then e == b + 1 && x == ""
       else exists q: nat, n: nat :: b < q < e && n <= |x| && Denotes(s, b, q, x[..n]) && CharsAt(s, q, e, x[n..])
  }

  // ----- strings -----

  lemma DenotesIsRead(s: string, b: nat, q: nat, bytes: string)
    requires Denotes(s, b, q, bytes)
    ensures U.Reads(s, b, bytes, q) && s[b] != '"'
  {
    hide U.EscapeAt, U.Encodes, U.Unit, ReadUnicode, Unescape;
    if PlainAt(s, b, q, bytes) {
    } else if ShortAt(s, b, q, bytes) {
      U.ShortEscapes(s, b);
      assert bytes == [bytes[0]];
    } else if q == b + 6 {
      var u: seq<nat> :| UnitAt(s, b, u, bytes);
      U.UnitReads(s, b, u, bytes);
      EscapeStarts(s, b, u);
    } else {
      var u: seq<nat>, w: seq<nat> :| PairAt(s, b, u, w, bytes);
      U.PairReads(s, b, u, w, bytes);
      EscapeStarts(s, b, u);
    }
  }

  lemma EscapeStarts(s: string, b: nat, u: seq<nat>)
    requires U.EscapeAt(s, b, u)
    ensures b + 6 <= |s| && s[b] == '\\' && s[b + 1] == 'u'
  {
  }

  lemma {:induction false} CharsAreRead(s: string, b: nat, e: nat, x: string)
    requires CharsAt(s, b, e, x)
    ensures ParseString(s, b) == Done(e - 1, x)
    decreases e - b
  {
    hide Denotes;
    if s[b] != '"' {
      var q: nat, n: nat :| b < q < e && n <= |x| && Denotes(s, b, q, x[..n]) && CharsAt(s, q, e, x[n..]);
      CharsAreRead(s, q, e, x[n..]);
      DenotesIsRead(s, b, q, x[..n]);
      assert x[..n] + x[n..] == x;
    }
  }

  lemma DenotesInRange(s: string, b: nat, q: nat, bytes: string)
    requires Denotes(s, b, q, bytes)
    ensures b < q <= |s|
  {
  }

  /** Where the parser reads a character or an escape, it stands for what the parser takes it for. */
  lemma ReadDenotes(s: string, b: nat) returns (q: nat, bytes: string)
    requires ParseString(s, b).Done? && s[b] != '"'
    ensures Denotes(s, b, q, bytes) && ParseString(s, q).Done?
  {
    hide U.EscapeAt, U.Encodes, U.Unit, Utf8, Hex4, Unescape;
    if s[b] != '\\' {
      q, bytes := b + 1, [s[b]];
    } else if s[b + 1] != 'u' {
      q, bytes := ReadShort(s, b);
    } else {
      q, bytes := ReadEscape(s, b);
    }
  }

  lemma ReadShort(s: string, b: nat) returns (q: nat, bytes: string)
    requires ParseString(s, b).Done? && s[b] == '\\' && s[b + 1] != 'u'
    ensures Denotes(s, b, q, bytes) && ParseString(s, q).Done?
  {
    U.ShortEscapes(s, b);
    hide ParseString;
    var i :| 0 <= i < 8 && s[b + 1] == "\"\\/bfnrt"[i];
    q, bytes := b + 2, [['"', '\\', '/', 8 as char, 12 as char, 10 as char, 13 as char, 9 as char][i]];
    assert ShortAt(s, b, q, bytes);
  }

  lemma ReadEscape(s: string, b: nat) returns (q: nat, bytes: string)
    requires ParseString(s, b).Done? && s[b] == '\\' && s[b + 1] == 'u'
    ensures Denotes(s, b, q, bytes) && ParseString(s, q).Done?
  {
    hide U.EscapeAt, U.Encodes, U.Unit, Utf8, ParseString;
    var u := TheDigits(s, b);
    U.EscapeIs(s, b, u);
    if !U.IsHigh(U.Unit(u)) {
      UnitInRange(s, b, u);
      bytes := Utf8(U.Unit(u));
      U.Utf8Encodes(U.Unit(u));
      assert UnitAt(s, b, u, bytes);
      U.UnitReads(s, b, u, bytes);
      q := b + 6;
      EscapeStarts(s, b, u);
    } else {
      var w := TheLow(s, b, u);
      var v := 0x1_0000 + (U.Unit(u) - 0xd800) * 0x400 + (U.Unit(w) - 0xdc00);
      bytes := Utf8(v);
      U.Utf8Encodes(v);
      assert PairAt(s, b, u, w, bytes);
      U.PairReads(s, b, u, w, bytes);
      q := b + 12;
      EscapeStarts(s, b + 6, w);
    }
  }

  lemma UnitInRange(s: string, b: nat, u: seq<nat>)
    requires U.EscapeAt(s, b, u)
    ensures U.Unit(u) < 0x1_0000
  {
    U.EscapeIs(s, b, u);
  }

  lemma TheDigits(s: string, b: nat) returns (u: seq<nat>)
    requires ParseString(s, b).Done? && s[b] == '\\' && s[b + 1] == 'u'
    ensures U.EscapeAt(s, b, u) && |u| == 4
  {
    if forall x :: !U.EscapeAt(s, b, x) {
      U.NoDigitsFails(s, b);
    }
    u :| U.EscapeAt(s, b, u);
  }

  lemma TheLow(s: string, b: nat, u: seq<nat>) returns (w: seq<nat>)
    requires ParseString(s, b).Done? && U.EscapeAt(s, b, u) && |u| == 4 && U.IsHigh(U.Unit(u))
    ensures U.EscapeAt(s, b + 6, w) && |w| == 4 && U.IsLow(U.Unit(w))
  {
    hide U.Unit, ParseString;
    if forall y :: U.EscapeAt(s, b + 6, y) ==> !U.IsLow(U.Unit(y)) {
      U.LoneHighFails(s, b, u);
    }
    w :| U.EscapeAt(s, b + 6, w) && U.IsLow(U.Unit(w));
  }

  lemma {:induction false} ReadAreChars(s: string, b: nat)
    requires ParseString(s, b).Done?
    ensures var r := ParseString(s, b); b <= r.pos < |s| && CharsAt(s, b, r.pos + 1, r.value)
    decreases |s| - b
  {
    hide Denotes;
    var r := ParseString(s, b);
    if s[b] != '"' {
      var q, bytes := ReadDenotes(s, b);
      DenotesInRange(s, b, q, bytes);
      DenotesIsRead(s, b, q, bytes);
      ReadAreChars(s, q);
      var n := |bytes|;
      assert r.value[..n] == bytes && r.value[n..] == ParseString(s, q).value;
    }
  }

  // ----- keys and tokens -----

  /** The key from b on, up to the first quote, which is the character before e; it is used as a C string. */
  predicate KeyAt(s: string, b: nat, e: nat, k: Key) {
    && b < e <= |s| && s[e - 1] == '"' && (forall i :: b <= i < e - 1 ==> s[i] != '"')
    && |k| <= e - 1 - b && s[b..b + |k|] == k && (|k| == e - 1 - b || s[b + |k|] == '\0')
  }

  lemma NotShorter(t: string, k: string, r: string)
    requires k <= t && '\0' !in k && r <= t && (|r| < |t| ==> t[|r|] == '\0')
    ensures |r| >= |k|
  {
    assert forall i :: 0 <= i < |k| ==> k[i] in k && t[i] == k[i];
  }

  lemma CStringIs(t: string, k: string)
    requires k <= t && '\0' !in k && (|k| < |t| ==> t[|k|] == '\0')
    ensures CString(t) == k
  {
    var r := CString(t);
    NotShorter(t, k, r);
    NotShorter(t, r, k);
    assert r == t[..|r|] && k == t[..|k|];
  }

  lemma KeyIff(s: string, b: nat, e: nat, k: Key)
    requires b <= |s|
    ensures KeyAt(s, b, e, k) <==> e > 0 && ParseKey(s, b) == Done(e - 1, k)
  {
    hide ParseKey, CString;
    if KeyAt(s, b, e, k) {
      KeyIsRead(s, b, e, k);
    }
    if e > 0 && ParseKey(s, b) == Done(e - 1, k) {
      ReadIsKey(s, b, e, k);
    }
  }

  lemma KeyIsRead(s: string, b: nat, e: nat, k: Key)
    requires KeyAt(s, b, e, k)
    ensures ParseKey(s, b) == Done(e - 1, k)
  {
    hide ParseKey, CString;
    var r, t := ParseKey(s, b), s[b..e - 1];
    assert r.Done? && r.pos == e - 1;
    assert t[..|k|] == s[b..b + |k|];
    CStringIs(t, k);
  }

  lemma ReadIsKey(s: string, b: nat, e: nat, k: Key)
    requires b <= |s| && e > 0 && ParseKey(s, b) == Done(e - 1, k)
    ensures KeyAt(s, b, e, k)
  {
    hide ParseKey, CString;
    var t := s[b..e - 1];
    assert k == CString(t) && k <= t;
    assert t[..|k|] == s[b..b + |k|];
  }

  predicate IsWhiteChar(c: char) {
    c in " \t\r\n"
  }

  /** Constants and numbers. */
  ghost predicate TokenText(c: DoubleCodec, t: string, v: Json)
    requires t != ""
  {
    if t[0] == 'f' then t == "false" && v == Bool(false)
    else if t[0] == 't' then t == "true" && v == Bool(true)
    else if t[0] == 'n' then t == "null" && v == Null
    else if exists i :: 1 <= i < |t| && t[i] in ".eE" then v.Double? && c.read(t) == Some(v.d)
    else v.Int? && AtoiValue(t) == Some(v.i)
  }

  /** A token goes up to a comma, a closing bracket or white space. */
  predicate TokenSpan(s: string, b: nat, e: nat) {
    b < e < |s| && (forall i :: b < i < e ==> s[i] !in ",}] \t\r\n") && s[e] in ",}] \t\r\n"
  }

  ghost predicate TokenAt(c: DoubleCodec, s: string, b: nat, e: nat, v: Json) {
    TokenSpan(s, b, e) && TokenText(c, s[b..e], v)
  }

  lemma DelimiterIs(c: char)
    ensures IsDelimiter(c) <==> c in ",}] \t\r\n"
  {
  }

  lemma SpanIff(s: string, b: nat, e: nat)
    requires b < |s|
    ensures TokenSpan(s, b, e) <==> e < |s| && TokenEnd(s, b + 1) == e
  {
    hide IsDelimiter, TokenEnd;
    var p := TokenEnd(s, b + 1);
    forall i | 0 <= i < |s| ensures IsDelimiter(s[i]) <==> s[i] in ",}] \t\r\n" {
      DelimiterIs(s[i]);
    }
  }

  lemma TokenMeans(c: DoubleCodec, t: string, v: Json)
    requires t != ""
    ensures TokenText(c, t, v) <==> Token(c, t) == Some(v)
  {
    hide IsDoubleToken;
    MarksIs(t);
  }

  lemma TokenIff(c: DoubleCodec, s: string, b: nat, e: nat, v: Json)
    requires b < |s|
    ensures TokenAt(c, s, b, e, v) <==> e > 0 && ParseToken(c, s, b) == Done(e - 1, v)
  {
    hide TokenSpan, TokenText, Token, TokenEnd;
    var p := TokenEnd(s, b + 1);
    SpanIff(s, b, e);
    SpanIff(s, b, p);
    if p < |s| {
      TokenMeans(c, s[b..p], v);
    }
  }

  lemma MarksIs(t: string)
    ensures IsDoubleToken(t) <==> exists i :: 1 <= i < |t| && t[i] in ".eE"
  {
    if IsDoubleToken(t) {
      var i :| 1 <= i < |t| && IsDoubleMark(t[i]);
      assert t[i] in ".eE";
    }
    if i :| 1 <= i < |t| && t[i] in ".eE" {
      assert IsDoubleMark(t[i]);
    }
  }

  // ----- values -----

  ghost predicate ValueAt(c: DoubleCodec, s: string, b: nat, e: nat, v: Json)
    decreases if b < e then e - b else 0, 0
  {
    && b < e <= |s|
    && if s[b] == '"' then v.Str? && CharsAt(s, b + 1, e, v.s)
       else if s[b] == '{' then v.Obj? && MembersAt(c, s, b + 1, e, v.members)
       else if s[b] == '[' then v.Arr? && ItemsAt(c, s, b + 1, e, v.items)
       else TokenAt(c, s, b, e, v)
  }

  /** The elements from b on, up to the closing bracket before e: white space, then the bracket or an element. */
  ghost predicate ItemsAt(c: DoubleCodec, s: string, b: nat, e: nat, items: seq<Json>)
    decreases if b < e then e - b else 0, 2
  {
    exists k: nat :: b <= k < e <= |s| && White(s, b, k) && !IsWhiteChar(s[k]) && ItemsFrom(c, s, k, e, items)
  }

  ghost predicate ItemsFrom(c: DoubleCodec, s: string, k: nat, e: nat, items: seq<Json>)
    requires k < e <= |s|
    decreases e - k, 1
  {
    if s[k] == ']' then e == k + 1 && items == []
    else items != [] && exists m: nat, q: nat :: k < m <= q < e && ItemThen(c, s, k, m, q, e, items)
  }

  /** An element s[k..m], white space up to q, and the closing bracket or a comma with more elements. */
  ghost predicate ItemThen(c: DoubleCodec, s: string, k: nat, m: nat, q: nat, e: nat, items: seq<Json>)
    requires k < m <= q < e <= |s| && items != []
    decreases e - k, 0
  {
    && ValueAt(c, s, k, m, items[0]) && White(s, m, q)
    && ((s[q] == ']' && e == q + 1 && |items| == 1) || (s[q] == ',' && ItemsAt(c, s, q + 1, e, items[1..])))
  }

  ghost predicate MembersAt(c: DoubleCodec, s: string, b: nat, e: nat, members: seq<Member>)
    decreases if b < e then e - b else 0, 2
  {
    exists k: nat :: b <= k < e <= |s| && White(s, b, k) && !IsWhiteChar(s[k]) && MembersFrom(c, s, k, e, members)
  }

  ghost predicate MembersFrom(c: DoubleCodec, s: string, k: nat, e: nat, members: seq<Member>)
    requires k < e <= |s|
    decreases e - k, 1
  {
    if s[k] == '}' then e == k + 1 && members == []
    else members != [] && s[k] == '"' && exists m: nat, q: nat :: k < m <= q < e && MemberThen(c, s, k, m, q, e, members)
  }

  ghost predicate MemberThen(c: DoubleCodec, s: string, k: nat, m: nat, q: nat, e: nat, members: seq<Member>)
    requires k < m <= q < e <= |s| && members != []
    decreases e - k, 0
  {
    && MemberAt(c, s, k, m, members[0]) && White(s, m, q)
    && ((s[q] == '}' && e == q + 1 && |members| == 1) || (s[q] == ',' && MembersAt(c, s, q + 1, e, members[1..])))
  }

  /** A key behind its quote, white space, a colon, white space, a value. */
  ghost predicate MemberAt(c: DoubleCodec, s: string, k: nat, e: nat, m: Member)
    requires k < e <= |s|
    decreases e - k, 0
  {
    exists q: nat, n: nat, w: nat :: k < q <= n < w < e && MemberParts(c, s, k, q, n, w, e, m)
  }

  ghost predicate MemberParts(c: DoubleCodec, s: string, k: nat, q: nat, n: nat, w: nat, e: nat, m: Member)
    requires k < q <= n < w < e <= |s|
    decreases e - w, 3
  {
    && KeyAt(s, k + 1, q, m.key) && White(s, q, n) && s[n] == ':' && White(s, n + 1, w) && !IsWhiteChar(s[w])
    && ValueAt(c, s, w, e, m.value)
  }

  // ----- what the grammar derives is read -----

  lemma {:induction false} WhiteSkipped(s: string, b: nat, k: nat)
    requires White(s, b, k) && (k < |s| ==> !IsWhiteChar(s[k]))
    ensures SkipWhite(s, b) == k
    decreases k - b
  {
    if b < k {
      WhiteSkipped(s, b + 1, k);
    }
  }

  lemma {:induction false} SkippedIsWhite(s: string, b: nat)
    requires b <= |s|
    ensures var k := SkipWhite(s, b); White(s, b, k) && (k < |s| ==> !IsWhiteChar(s[k]))
    decreases |s| - b
  {
    if b < |s| && IsWhite(s[b]) {
      SkippedIsWhite(s, b + 1);
    }
  }

  lemma {:induction false} ValueIsRead(c: DoubleCodec, s: string, b: nat, e: nat, v: Json)
    requires ValueAt(c, s, b, e, v)
    ensures b < e <= |s| && ParseValue(c, s, b) == Done(e - 1, v)
    decreases e - b, 0
  {
    hide CharsAt, TokenAt, ItemsAt, MembersAt;
    if s[b] == '"' {
      CharsAreRead(s, b + 1, e, v.s);
    } else if s[b] == '{' {
      MembersAreRead(c, s, b + 1, e, v.members);
    } else if s[b] == '[' {
      ItemsAreRead(c, s, b + 1, e, v.items);
    } else {
      TokenIff(c, s, b, e, v);
    }
  }

  lemma {:induction false} ItemsAreRead(c: DoubleCodec, s: string, b: nat, e: nat, items: seq<Json>)
    requires ItemsAt(c, s, b, e, items)
    ensures b < e <= |s| && ParseArray(c, s, b) == Done(e - 1, items)
    decreases e - b, 2
  {
    hide ItemThen, ArrayTurn, SkipWhite, IsWhiteChar;
    var k: nat :| b <= k < e <= |s| && White(s, b, k) && !IsWhiteChar(s[k]) && ItemsFrom(c, s, k, e, items);
    WhiteSkipped(s, b, k);
    if s[k] != ']' {
      var m, q := TheItem(c, s, k, e, items);
      ItemIsRead(c, s, k, m, q, e, items);
    } else {
      EmptyTurn(c, s, k);
    }
  }

  lemma TheItem(c: DoubleCodec, s: string, k: nat, e: nat, items: seq<Json>) returns (m: nat, q: nat)
    requires k < e <= |s| && s[k] != ']' && ItemsFrom(c, s, k, e, items)
    ensures items != [] && k < m <= q < e && ItemThen(c, s, k, m, q, e, items)
  {
    m, q :| k < m <= q < e && ItemThen(c, s, k, m, q, e, items);
  }

  lemma TheMember(c: DoubleCodec, s: string, k: nat, e: nat, members: seq<Member>) returns (m: nat, q: nat)
    requires k < e <= |s| && s[k] != '}' && MembersFrom(c, s, k, e, members)
    ensures members != [] && s[k] == '"' && k < m <= q < e && MemberThen(c, s, k, m, q, e, members)
  {
    m, q :| k < m <= q < e && MemberThen(c, s, k, m, q, e, members);
  }

  lemma EmptyTurn(c: DoubleCodec, s: string, k: nat)
    requires k < |s|
    ensures s[k] == ']' ==> ArrayTurn(c, s, k) == Done(k, [])
    ensures s[k] == '}' ==> ObjectTurn(c, s, k) == Done(k, [])
  {
  }

  lemma {:induction false} ItemIsRead(c: DoubleCodec, s: string, k: nat, m: nat, q: nat, e: nat, items: seq<Json>)
    requires k < m <= q < e <= |s| && items != [] && s[k] != ']' && ItemThen(c, s, k, m, q, e, items)
    ensures ArrayTurn(c, s, k) == Done(e - 1, items)
    decreases e - k, 1
  {
    hide ValueAt, ItemsAt, ParseValue, ParseArray, SkipWhite;
    ValueIsRead(c, s, k, m, items[0]);
    WhiteSkipped(s, m, q);
    assert items == [items[0]] + items[1..];
    if s[q] == ',' {
      ItemsAreRead(c, s, q + 1, e, items[1..]);
    } else {
      assert items == [items[0]];
    }
  }

  lemma {:induction false} MembersAreRead(c: DoubleCodec, s: string, b: nat, e: nat, members: seq<Member>)
    requires MembersAt(c, s, b, e, members)
    ensures b < e <= |s| && ParseObject(c, s, b) == Done(e - 1, members)
    decreases e - b, 2
  {
    hide MemberThen, ObjectTurn, SkipWhite, IsWhiteChar;
    var k: nat :| b <= k < e <= |s| && White(s, b, k) && !IsWhiteChar(s[k]) && MembersFrom(c, s, k, e, members);
    WhiteSkipped(s, b, k);
    if s[k] != '}' {
      var m, q := TheMember(c, s, k, e, members);
      MemberThenIsRead(c, s, k, m, q, e, members);
    } else {
      EmptyTurn(c, s, k);
    }
  }

  lemma {:induction false} MemberThenIsRead(c: DoubleCodec, s: string, k: nat, m: nat, q: nat, e: nat, members: seq<Member>)
    requires k < m <= q < e <= |s| && members != [] && s[k] == '"' && MemberThen(c, s, k, m, q, e, members)
    ensures ObjectTurn(c, s, k) == Done(e - 1, members)
    decreases e - k, 1
  {
    hide MemberAt, MembersAt, ParseMember, ParseObject, SkipWhite;
    MemberIsRead(c, s, k, m, members[0]);
    WhiteSkipped(s, m, q);
    assert members == [members[0]] + members[1..];
    if s[q] == ',' {
      MembersAreRead(c, s, q + 1, e, members[1..]);
    } else {
      assert members == [members[0]];
    }
  }

  lemma {:induction false} MemberIsRead(c: DoubleCodec, s: string, k: nat, e: nat, m: Member)
    requires k < e <= |s| && MemberAt(c, s, k, e, m)
    ensures ParseMember(c, s, k) == Done(e - 1, m)
    decreases e - k, 1
  {
    hide MemberParts, ParseValue, ParseKey, ParseMember, SkipWhite;
    var q: nat, n: nat, w: nat :| k < q <= n < w < e && MemberParts(c, s, k, q, n, w, e, m);
    PartsAre(c, s, k, q, n, w, e, m);
    ValueIsRead(c, s, w, e, m.value);
    MemberOfParts(c, s, k, q, n, w);
  }

  lemma MemberOfParts(c: DoubleCodec, s: string, k: nat, q: nat, n: nat, w: nat)
    requires k < q <= n < w < |s| && s[n] == ':'
    requires ParseKey(s, k + 1).Done? && ParseKey(s, k + 1).pos == q - 1 && SkipWhite(s, q) == n && SkipWhite(s, n + 1) == w
    ensures var v := ParseValue(c, s, w);
            ParseMember(c, s, k) == if v.Fail? then Fail else Done(v.pos, Member(ParseKey(s, k + 1).value, v.value))
  {
    hide ParseKey, ParseValue, SkipWhite;
  }

  lemma PartsAre(c: DoubleCodec, s: string, k: nat, q: nat, n: nat, w: nat, e: nat, m: Member)
    requires k < q <= n < w < e <= |s| && MemberParts(c, s, k, q, n, w, e, m)
    ensures ParseKey(s, k + 1) == Done(q - 1, m.key) && SkipWhite(s, q) == n && s[n] == ':' && SkipWhite(s, n + 1) == w
    ensures ValueAt(c, s, w, e, m.value)
  {
    hide KeyAt, ValueAt, ParseKey, SkipWhite;
    KeyIff(s, k + 1, q, m.key);
    WhiteSkipped(s, q, n);
    WhiteSkipped(s, n + 1, w);
  }

  // ----- what is read, the grammar derives -----

  lemma {:induction false} ReadIsValue(c: DoubleCodec, s: string, b: nat)
    requires b < |s| && ParseValue(c, s, b).Done?
    ensures var r := ParseValue(c, s, b); ValueAt(c, s, b, r.pos + 1, r.value)
    decreases |s| - b, 0
  {
    hide CharsAt, TokenAt, ItemsAt, MembersAt;
    if s[b] == '"' {
      ReadAreChars(s, b + 1);
    } else if s[b] == '{' {
      ReadAreMembers(c, s, b + 1);
    } else if s[b] == '[' {
      ReadAreItems(c, s, b + 1);
    } else {
      var r := ParseToken(c, s, b);
      TokenIff(c, s, b, r.pos + 1, r.value);
    }
  }

  lemma {:induction false} ReadAreItems(c: DoubleCodec, s: string, b: nat)
    requires b <= |s| && ParseArray(c, s, b).Done?
    ensures var r := ParseArray(c, s, b); ItemsAt(c, s, b, r.pos + 1, r.value)
    decreases |s| - b, 2
  {
    hide ItemsFrom, SkipWhite, IsWhiteChar, ArrayTurn;
    var k := SkipWhite(s, b);
    SkippedIsWhite(s, b);
    TurnIsItems(c, s, k);
  }

  lemma {:induction false} TurnIsItems(c: DoubleCodec, s: string, k: nat)
    requires k < |s| && ArrayTurn(c, s, k).Done?
    ensures var r := ArrayTurn(c, s, k); k < r.pos + 1 <= |s| && ItemsFrom(c, s, k, r.pos + 1, r.value)
    decreases |s| - k, 1
  {
    hide ValueAt, ItemsAt, ParseValue, ParseArray, SkipWhite;
    var r := ArrayTurn(c, s, k);
    if s[k] != ']' {
      var v := ParseValue(c, s, k);
      ReadIsValue(c, s, k);
      var q := SkipWhite(s, v.pos + 1);
      SkippedIsWhite(s, v.pos + 1);
      if s[q] == ',' {
        ReadAreItems(c, s, q + 1);
        assert r.value[0] == v.value && r.value[1..] == ParseArray(c, s, q + 1).value;
      }
      assert ItemThen(c, s, k, v.pos + 1, q, r.pos + 1, r.value);
    }
  }

  lemma {:induction false} ReadAreMembers(c: DoubleCodec, s: string, b: nat)
    requires b <= |s| && ParseObject(c, s, b).Done?
    ensures var r := ParseObject(c, s, b); MembersAt(c, s, b, r.pos + 1, r.value)
    decreases |s| - b, 2
  {
    hide MembersFrom, SkipWhite, IsWhiteChar, ObjectTurn;
    var k := SkipWhite(s, b);
    SkippedIsWhite(s, b);
    TurnIsMembers(c, s, k);
  }

  lemma {:induction false} TurnIsMembers(c: DoubleCodec, s: string, k: nat)
    requires k < |s| && ObjectTurn(c, s, k).Done?
    ensures var r := ObjectTurn(c, s, k); k < r.pos + 1 <= |s| && MembersFrom(c, s, k, r.pos + 1, r.value)
    decreases |s| - k, 1
  {
    hide MemberAt, MembersAt, ParseMember, ParseObject, SkipWhite;
    var r := ObjectTurn(c, s, k);
    if s[k] != '}' {
      var m := ParseMember(c, s, k);
      ReadIsMember(c, s, k);
      var q := SkipWhite(s, m.pos + 1);
      SkippedIsWhite(s, m.pos + 1);
      if s[q] == ',' {
        ReadAreMembers(c, s, q + 1);
        assert r.value[0] == m.value && r.value[1..] == ParseObject(c, s, q + 1).value;
      }
      assert MemberThen(c, s, k, m.pos + 1, q, r.pos + 1, r.value);
    }
  }

  lemma {:induction false} ReadIsMember(c: DoubleCodec, s: string, k: nat)
    requires k < |s| && ParseMember(c, s, k).Done?
    ensures var r := ParseMember(c, s, k); k < r.pos + 1 <= |s| && MemberAt(c, s, k, r.pos + 1, r.value)
    decreases |s| - k, 0
  {
    hide KeyAt, ValueAt, ParseValue, ParseKey, SkipWhite;
    var r := ParseMember(c, s, k);
    var key := ParseKey(s, k + 1);
    KeyIff(s, k + 1, key.pos + 1, key.value);
    var n := SkipWhite(s, key.pos + 1);
    SkippedIsWhite(s, key.pos + 1);
    var w := SkipWhite(s, n + 1);
    SkippedIsWhite(s, n + 1);
    ReadIsValue(c, s, w);
    assert MemberParts(c, s, k, key.pos + 1, n, w, r.pos + 1, r.value);
  }

  // ----- documents -----

  /** White space, an object or array, and white space up to the end. */
  ghost predicate Derives(c: DoubleCodec, s: string, v: Json) {
    exists b: nat, e: nat :: White(s, 0, b) && b < e <= |s| && s[b] in "{[" && ValueAt(c, s, b, e, v) && White(s, e, |s|)
  }

  /** The parser accepts a text with the value v exactly if the grammar derives v from it. */
  lemma ParseIff(c: DoubleCodec, s: string, v: Json)
    ensures Parse(c, s) == Some(v) <==> Derives(c, s, v)
  {
    hide ValueAt, ParseValue, SkipWhite, IsWhiteChar;
    var p := SkipWhite(s, 0);
    SkippedIsWhite(s, 0);
    if Parse(c, s) == Some(v) {
      var r := ParseValue(c, s, p);
      ReadIsValue(c, s, p);
      SkippedIsWhite(s, r.pos + 1);
      assert White(s, 0, p) && ValueAt(c, s, p, r.pos + 1, v) && White(s, r.pos + 1, |s|);
    }
    if Derives(c, s, v) {
      var b: nat, e: nat :| White(s, 0, b) && b < e <= |s| && s[b] in "{[" && ValueAt(c, s, b, e, v) && White(s, e, |s|);
      BracketIsNotWhite(s[b]);
      WhiteSkipped(s, 0, b);
      ValueIsRead(c, s, b, e, v);
      WhiteSkipped(s, e, |s|);
    }
  }

  lemma BracketIsNotWhite(c: char)
    requires c in "{["
    ensures !IsWhiteChar(c)
  {
  }
}
