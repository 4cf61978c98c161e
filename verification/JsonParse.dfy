/** The JSON parser of src/json.cc. Positions index the text; the character at |s| is the terminating NUL. */
module JsonParse {
  import opened Common
  import opened JsonText
  import opened Atoi

  /** pos is the position of the last character of the parsed item. */
  datatype Parsed<+T> = Fail | Done(pos: nat, value: T)

  function SkipWhite(s: string, b: nat): (p: nat)
    requires b <= |s|
    ensures b <= p <= |s| && (p < |s| ==> !IsWhite(s[p]))
    decreases |s| - b
  {
    if b < |s| && IsWhite(s[b]) then SkipWhite(s, b + 1) else b
  }

  /** The first delimiter from b on, |s| if there is none. */
  function TokenEnd(s: string, b: nat): (p: nat)
    requires b <= |s|
    ensures b <= p <= |s| && (p < |s| ==> IsDelimiter(s[p]))
    ensures forall i :: b <= i < p ==> !IsDelimiter(s[i])
    decreases |s| - b
  {
    if b < |s| && !IsDelimiter(s[b]) then TokenEnd(s, b + 1) else b
  }

  predicate IsDoubleMark(c: char) {
    c == '.' || c == 'e' || c == 'E'
  }

  /** The first character of a token does not count. */
  predicate IsDoubleToken(t: string) {
    exists i :: 1 <= i < |t| && IsDoubleMark(t[i])
  }

  function Token(c: DoubleCodec, t: string): Option<Json>
    requires t != ""
  {
    if t[0] == 'f' then (if t == "false" then Some(Bool(false)) else None)
    else if t[0] == 't' then (if t == "true" then Some(Bool(true)) else None)
    else if t[0] == 'n' then (if t == "null" then Some(Null) else None)
    else if IsDoubleToken(t) then
      var d := c.read(t);
      if d.Some? then Some(Double(d.value)) else None
    else
      var i := AtoiValue(t);
      if i.Some? then Some(Int(i.value)) else None
  }

  function ParseToken(c: DoubleCodec, s: string, b: nat): (r: Parsed<Json>)
    requires b < |s|
    ensures r.Done? ==> b <= r.pos < |s|
  {
    var e := TokenEnd(s, b + 1);
    if e == |s| then Fail
    else
      var v := Token(c, s[b..e]);
      if v.Some? then Done(e - 1, v.value) else Fail
  }

  function HexDigit(c: char): Option<nat> {
    if '0' <= c <= '9' then Some(c as int - '0' as int)
    else if 'a' <= c <= 'f' then Some(c as int - 'a' as int + 10)
    else if 'A' <= c <= 'F' then Some(c as int - 'A' as int + 10)
    else None
  }

  /** The character at i, NUL at the end of the text. */
  function CharAt(s: string, i: nat): char {
    if i < |s| then s[i] else '\0'
  }

  function Hex4(s: string, b: nat): (r: Option<nat>)
    ensures r.Some? ==> b + 4 <= |s| && r.value < 0x1_0000
  {
    var h0, h1, h2, h3 := HexDigit(CharAt(s, b)), HexDigit(CharAt(s, b + 1)),
                          HexDigit(CharAt(s, b + 2)), HexDigit(CharAt(s, b + 3));
    if h0.Some? && h1.Some? && h2.Some? && h3.Some?
    then Some(((h0.value * 16 + h1.value) * 16 + h2.value) * 16 + h3.value)
    else None
  }

  /** The UTF-8 bytes of a code point, one character a byte. */
  function Utf8(v: nat): (r: string)
    requires v <= 0x10_ffff
    ensures 1 <= |r| <= 4
  {
    if v <= 0x7f then [v as char]
    else if v <= 0x7ff then [(0xc0 + v / 64) as char, (0x80 + v % 64) as char]
    else if v <= 0xffff then [(0xe0 + v / 4096) as char, (0x80 + v / 64 % 64) as char, (0x80 + v % 64) as char]
    else [(0xf0 + v / 262144) as char, (0x80 + v / 4096 % 64) as char,
          (0x80 + v / 64 % 64) as char, (0x80 + v % 64) as char]
  }

  /** read_unicode, from the first hex digit; a high surrogate needs a low one behind it. */
  function ReadUnicode(s: string, b: nat): (r: Parsed<string>)
    ensures r.Done? ==> b <= r.pos < |s|
  {
    var v := Hex4(s, b);
    if v.None? then Fail
    else if 0xd800 <= v.value <= 0xdbff then
      if CharAt(s, b + 4) != '\\' || CharAt(s, b + 5) != 'u' then Fail
      else
        var u := Hex4(s, b + 6);
        if u.None? || u.value < 0xdc00 || u.value > 0xdfff then Fail
        else Done(b + 9, Utf8(0x1_0000 + v.value % 0x400 * 0x400 + u.value % 0x400))
    else Done(b + 3, Utf8(v.value))
  }

  function Prefixed(p: string, r: Parsed<string>): Parsed<string> {
    if r.Done? then Done(r.pos, p + r.value) else Fail
  }

  function Unescape(c: char): Option<char> {
    if c == '"' || c == '\\' || c == '/' then Some(c)
    else if c == 'n' then Some('\n')
    else if c == 'r' then Some('\r')
    else if c == 't' then Some('\t')
    else if c == 'b' then Some(BACKSPACE)
    else if c == 'f' then Some(FORMFEED)
    else None
  }

  /** A string from behind its opening quote, one character after the other. */
  function ParseString(s: string, b: nat): (r: Parsed<string>)
    ensures r.Done? ==> b <= r.pos < |s|
    decreases if b < |s| then |s| - b else 0
  {
    if b >= |s| || s[b] == '\0' then Fail
    else if s[b] == '"' then Done(b, "")
    else if s[b] == '\\' then
      if b + 1 == |s| then Fail
      else if s[b + 1] == 'u' then
        var u := ReadUnicode(s, b + 2);
        if u.Fail? then Fail else Prefixed(u.value, ParseString(s, u.pos + 1))
      else
        var e := Unescape(s[b + 1]);
        if e.None? then Fail else Prefixed([e.value], ParseString(s, b + 2))
    else Prefixed([s[b]], ParseString(s, b + 1))
  }

  /** memchr for the closing quote; the key is used as a C string. */
  function ParseKey(s: string, b: nat): (r: Parsed<Key>)
    requires b <= |s|
    ensures r.Done? ==> b <= r.pos < |s| && s[r.pos] == '"' && r.value == CString(s[b..r.pos])
    ensures r.Done? ==> forall i :: b <= i < r.pos ==> s[i] != '"'
    ensures r.Fail? ==> forall i :: b <= i < |s| ==> s[i] != '"'
    decreases |s| - b
  {
    if b == |s| then Fail
    else if s[b] == '"' then Done(b, CString(s[b..b]))
    else
      var r := ParseKey(s, b + 1);
      if r.Done? then Done(r.pos, CString(s[b..r.pos])) else Fail
  }

  function ParseValue(c: DoubleCodec, s: string, b: nat): (r: Parsed<Json>)
    requires b < |s|
    ensures r.Done? ==> b <= r.pos < |s|
    decreases |s| - b, 0
  {
    if s[b] == '"' then
      var r := ParseString(s, b + 1);
      if r.Done? then Done(r.pos, Str(r.value)) else Fail
    else if s[b] == '{' then
      var r := ParseObject(c, s, b + 1);
      if r.Done? then Done(r.pos, Obj(r.value)) else Fail
    else if s[b] == '[' then
      var r := ParseArray(c, s, b + 1);
      if r.Done? then Done(r.pos, Arr(r.value)) else Fail
    else ParseToken(c, s, b)
  }

  /** One member from its opening quote k on; pos is the last character of the value. */
  function ParseMember(c: DoubleCodec, s: string, k: nat): (r: Parsed<Member>)
    requires k < |s|
    ensures r.Done? ==> k < r.pos < |s|
    decreases |s| - k, 0
  {
    var q := ParseKey(s, k + 1);
    if q.Fail? then Fail
    else
      var m := SkipWhite(s, q.pos + 1);
      if m == |s| || s[m] != ':' then Fail
      else
        var w := SkipWhite(s, m + 1);
        if w == |s| then Fail
        else
          var v := ParseValue(c, s, w);
          if v.Fail? then Fail else Done(v.pos, Member(q.value, v.value))
  }

  /** The members from b on, inside the braces; a comma may stand before the closing brace. */
  function ParseObject(c: DoubleCodec, s: string, b: nat): (r: Parsed<seq<Member>>)
    requires b <= |s|
    ensures r.Done? ==> b <= r.pos < |s|
    decreases |s| - b, 2
  {
    var k := SkipWhite(s, b);
    if k == |s| then Fail else ObjectTurn(c, s, k)
  }

  function ObjectTurn(c: DoubleCodec, s: string, k: nat): (r: Parsed<seq<Member>>)
    requires k < |s|
    ensures r.Done? ==> k <= r.pos < |s|
    decreases |s| - k, 1
  {
    if s[k] == '}' then Done(k, [])
    else if s[k] != '"' then Fail
    else
      var m := ParseMember(c, s, k);
      if m.Fail? then Fail
      else
        var t := SkipWhite(s, m.pos + 1);
        if t == |s| then Fail
        else if s[t] == '}' then Done(t, [m.value])
        else if s[t] != ',' then Fail
        else More([m.value], ParseObject(c, s, t + 1))
  }

  function More<T>(head: seq<T>, r: Parsed<seq<T>>): Parsed<seq<T>> {
    if r.Done? then Done(r.pos, head + r.value) else Fail
  }

  function ParseArray(c: DoubleCodec, s: string, b: nat): (r: Parsed<seq<Json>>)
    requires b <= |s|
    ensures r.Done? ==> b <= r.pos < |s|
    decreases |s| - b, 2
  {
    var k := SkipWhite(s, b);
    if k == |s| then Fail else ArrayTurn(c, s, k)
  }

  function ArrayTurn(c: DoubleCodec, s: string, k: nat): (r: Parsed<seq<Json>>)
    requires k < |s|
    ensures r.Done? ==> k <= r.pos < |s|
    decreases |s| - k, 1
  {
    if s[k] == ']' then Done(k, [])
    else
      var v := ParseValue(c, s, k);
      if v.Fail? then Fail
      else
        var t := SkipWhite(s, v.pos + 1);
        if t == |s| then Fail
        else if s[t] == ']' then Done(t, [v.value])
        else if s[t] != ',' then Fail
        else More([v.value], ParseArray(c, s, t + 1))
  }

  /** parse_from: an object or array, with white space around it and nothing else. */
  function Parse(c: DoubleCodec, s: string): Option<Json> {
    var p := SkipWhite(s, 0);
    if p == |s| || (s[p] != '{' && s[p] != '[') then None
    else
      var r := ParseValue(c, s, p);
      if r.Done? && SkipWhite(s, r.pos + 1) == |s| then Some(r.value) else None
  }

  // ----- the loops of the source compute these functions -----

  method ReadToken(c: DoubleCodec, s: string, b: nat) returns (r: Parsed<Json>)
    requires b < |s|
    ensures r == ParseToken(c, s, b)
  {
    var isDouble := false;
    var i := b + 1;
    while i < |s|
      invariant b < i <= |s|
      invariant TokenEnd(s, b + 1) == TokenEnd(s, i)
      invariant isDouble <==> IsDoubleToken(s[b..i])
    {
      if IsDelimiter(s[i]) {
        var t := s[b..i];
        if t[0] == 'f' {
          return if |t| != 5 || t != "false" then Fail else Done(i - 1, Bool(false));
        } else if t[0] == 't' {
          return if |t| != 4 || t != "true" then Fail else Done(i - 1, Bool(true));
        } else if t[0] == 'n' {
          return if |t| != 4 || t != "null" then Fail else Done(i - 1, Null);
        } else if !isDouble {
          var v := FastAtoi(t);
          return if v.None? then Fail else Done(i - 1, Int(v.value));
        } else {
          var d := c.read(t);
          return if d.None? then Fail else Done(i - 1, Double(d.value));
        }
      }
      DoubleTokenStep(s[b..i], s[i]);
      assert s[b..i + 1] == s[b..i] + [s[i]];
      if IsDoubleMark(s[i]) {
        isDouble := true;
      }
      i := i + 1;
    }
    return Fail;
  }

  lemma DoubleTokenStep(t: string, c: char)
    requires t != ""
    ensures IsDoubleToken(t + [c]) <==> IsDoubleToken(t) || IsDoubleMark(c)
  {
    var u := t + [c];
    if IsDoubleToken(t) {
      var i :| 1 <= i < |t| && IsDoubleMark(t[i]);
      assert IsDoubleMark(u[i]);
    }
    if IsDoubleMark(c) {
      assert IsDoubleMark(u[|t|]);
    }
  }

  /** strpbrk for a quote or backslash; |s| if a NUL or the end comes first. */
  method FindQuote(s: string, b: nat) returns (p: nat)
    requires b <= |s|
    ensures b <= p <= |s|
    ensures p < |s| ==> s[p] == '"' || s[p] == '\\'
    ensures p < |s| ==> ParseString(s, b) == Prefixed(s[b..p], ParseString(s, p))
    ensures p == |s| ==> ParseString(s, b).Fail?
  {
    p := b;
    PrefixedEmpty(ParseString(s, b));
    assert s[b..b] == "";
    while p < |s| && s[p] != '\0' && s[p] != '"' && s[p] != '\\'
      invariant b <= p <= |s|
      invariant ParseString(s, b) == Prefixed(s[b..p], ParseString(s, p))
    {
      PrefixedTwice(s[b..p], [s[p]], ParseString(s, p + 1));
      assert s[b..p + 1] == s[b..p] + [s[p]];
      p := p + 1;
    }
    if p < |s| && s[p] == '\0' {
      p := |s|;
    }
  }

  lemma PrefixedEmpty(r: Parsed<string>)
    ensures Prefixed("", r) == r
  {
    if r.Done? {
      assert "" + r.value == r.value;
    }
  }

  lemma PrefixedFail(p: string)
    ensures Prefixed(p, Fail) == Fail
  {
  }

  lemma PrefixedTwice(a: string, b: string, r: Parsed<string>)
    ensures Prefixed(a, Prefixed(b, r)) == Prefixed(a + b, r)
  {
    if r.Done? {
      Assoc(a, b, r.value);
    }
  }

  method ReadString(s: string, start: nat) returns (r: Parsed<string>)
    requires start <= |s|
    ensures r == ParseString(s, start)
  {
    hide ParseString, Unescape, ReadUnicode, Prefixed;
    var b := start;
    var p := FindQuote(s, b);
    if p == |s| {
      return Fail;
    }
    if s[p] == '"' {
      ParseStringEnd(s, p, s[b..p]);
      return Done(p, s[b..p]);
    }
    var fs := "";
    assert fs + s[b..p] == s[b..p];
    while true
      invariant b <= p < |s| && s[p] == '\\'
      invariant ParseString(s, start) == Prefixed(fs + s[b..p], ParseString(s, p))
      decreases |s| - p
    {
      fs := fs + s[b..p];
      ParseEscape(s, p);
      PrefixedFail(fs);
      p := p + 1;
      if p == |s| {
        return Fail;
      }
      if s[p] == 'u' {
        var u := ReadUnicode(s, p + 1);
        if u.Fail? {
          return Fail;
        }
        PrefixedTwice(fs, u.value, ParseString(s, u.pos + 1));
        fs := fs + u.value;
        p := u.pos;
      } else {
        var e := Unescape(s[p]);
        if e.None? {
          return Fail;
        }
        PrefixedTwice(fs, [e.value], ParseString(s, p + 1));
        fs := fs + [e.value];
      }
      b := p + 1;
      p := FindQuote(s, b);
      if p == |s| {
        PrefixedFail(fs);
        return Fail;
      }
      PrefixedTwice(fs, s[b..p], ParseString(s, p));
      if s[p] == '"' {
        fs := fs + s[b..p];
        ParseStringEnd(s, p, fs);
        return Done(p, fs);
      }
    }
  }

  lemma ParseStringEnd(s: string, p: nat, fs: string)
    requires p < |s| && s[p] == '"'
    ensures Prefixed(fs, ParseString(s, p)) == Done(p, fs)
  {
    assert fs + "" == fs;
  }

  lemma ParseEscape(s: string, p: nat)
    requires p < |s| && s[p] == '\\'
    ensures ParseString(s, p) ==
            if p + 1 == |s| then Fail
            else if s[p + 1] == 'u' then
              var u := ReadUnicode(s, p + 2);
              if u.Fail? then Fail else Prefixed(u.value, ParseString(s, u.pos + 1))
            else
              var e := Unescape(s[p + 1]);
              if e.None? then Fail else Prefixed([e.value], ParseString(s, p + 2))
  {
  }

  method ReadValue(c: DoubleCodec, s: string, b: nat) returns (r: Parsed<Json>)
    requires b < |s|
    ensures r == ParseValue(c, s, b)
    decreases |s| - b, 0
  {
    if s[b] == '"' {
      var t := ReadString(s, b + 1);
      r := if t.Done? then Done(t.pos, Str(t.value)) else Fail;
    } else if s[b] == '{' {
      var t := ReadObject(c, s, b + 1);
      r := if t.Done? then Done(t.pos, Obj(t.value)) else Fail;
    } else if s[b] == '[' {
      var t := ReadArray(c, s, b + 1);
      r := if t.Done? then Done(t.pos, Arr(t.value)) else Fail;
    } else {
      r := ReadToken(c, s, b);
    }
  }

  method Skip(s: string, start: nat) returns (b: nat)
    requires start <= |s|
    ensures b == SkipWhite(s, start)
  {
    b := start;
    while b < |s| && IsWhite(s[b])
      invariant start <= b <= |s|
      invariant SkipWhite(s, start) == SkipWhite(s, b)
    {
      b := b + 1;
    }
  }

  lemma MoreTwice<T>(a: seq<T>, b: seq<T>, r: Parsed<seq<T>>)
    ensures More(a, More(b, r)) == More(a + b, r)
  {
    if r.Done? {
      assert a + (b + r.value) == a + b + r.value;
    }
  }

  lemma MoreEmpty<T>(r: Parsed<seq<T>>)
    ensures More([], r) == r
  {
    if r.Done? {
      assert [] + r.value == r.value;
    }
  }

  /** Key, colon and value of one member. */
  method ReadMember(c: DoubleCodec, s: string, k: nat) returns (r: Parsed<Member>)
    requires k < |s|
    ensures r == ParseMember(c, s, k)
    decreases |s| - k, 0
  {
    hide CString, SkipWhite, ParseKey, ParseValue;
    var key := ParseKey(s, k + 1);
    if key.Fail? {
      return Fail;
    }
    var colon := Skip(s, key.pos + 1);
    if colon == |s| || s[colon] != ':' {
      return Fail;
    }
    var w := Skip(s, colon + 1);
    if w == |s| {
      return Fail;
    }
    var v := ReadValue(c, s, w);
    r := if v.Fail? then Fail else Done(v.pos, Member(key.value, v.value));
  }

  lemma ObjectLoop(c: DoubleCodec, s: string, b: nat)
    requires b <= |s|
    ensures ParseObject(c, s, b) ==
            if b == |s| then Fail
            else if IsWhite(s[b]) then ParseObject(c, s, b + 1)
            else ObjectTurn(c, s, b)
  {
    hide ObjectTurn;
  }

  /** parse_json, from behind the opening brace. */
  method ReadObject(c: DoubleCodec, s: string, start: nat) returns (r: Parsed<seq<Member>>)
    requires start <= |s|
    ensures r == ParseObject(c, s, start)
    decreases |s| - start, 1
  {
    hide ParseObject, ParseMember, SkipWhite;
    var b := start;
    var res := [];
    MoreEmpty(ParseObject(c, s, start));
    while b < |s|
      invariant start <= b <= |s|
      invariant ParseObject(c, s, start) == More(res, ParseObject(c, s, b))
      decreases |s| - b
    {
      ObjectLoop(c, s, b);
      if IsWhite(s[b]) {
        b := b + 1;
        continue;
      }
      if s[b] == '}' {
        return Done(b, res + []);
      }
      if s[b] != '"' {
        return Fail;
      }
      var m := ReadMember(c, s, b);
      if m.Fail? {
        return Fail;
      }
      var t := Skip(s, m.pos + 1);
      if t == |s| {
        return Fail;
      }
      ghost var before := res;
      res := res + [m.value];
      if s[t] == '}' {
        return Done(t, res);
      }
      if s[t] != ',' {
        return Fail;
      }
      MoreTwice(before, [m.value], ParseObject(c, s, t + 1));
      b := t + 1;
    }
    ObjectLoop(c, s, b);
    return Fail;
  }

  lemma ArrayLoop(c: DoubleCodec, s: string, b: nat)
    requires b <= |s|
    ensures ParseArray(c, s, b) ==
            if b == |s| then Fail
            else if IsWhite(s[b]) then ParseArray(c, s, b + 1)
            else ArrayTurn(c, s, b)
  {
    hide ArrayTurn;
  }

  /** parse_array, from behind the opening bracket. */
  method ReadArray(c: DoubleCodec, s: string, start: nat) returns (r: Parsed<seq<Json>>)
    requires start <= |s|
    ensures r == ParseArray(c, s, start)
    decreases |s| - start, 1
  {
    hide ParseArray, ParseValue, SkipWhite;
    var b := start;
    var res := [];
    MoreEmpty(ParseArray(c, s, start));
    while b < |s|
      invariant start <= b <= |s|
      invariant ParseArray(c, s, start) == More(res, ParseArray(c, s, b))
      decreases |s| - b
    {
      ArrayLoop(c, s, b);
      if IsWhite(s[b]) {
        b := b + 1;
        continue;
      }
      if s[b] == ']' {
        return Done(b, res + []);
      }
      var v := ReadValue(c, s, b);
      if v.Fail? {
        return Fail;
      }
      var t := Skip(s, v.pos + 1);
      if t == |s| {
        return Fail;
      }
      ghost var before := res;
      res := res + [v.value];
      if s[t] == ']' {
        return Done(t, res);
      }
      if s[t] != ',' {
        return Fail;
      }
      MoreTwice(before, [v.value], ParseArray(c, s, t + 1));
      b := t + 1;
    }
    ArrayLoop(c, s, b);
    return Fail;
  }

  method ParseFrom(c: DoubleCodec, s: string) returns (r: Option<Json>)
    ensures r == Parse(c, s)
  {
    var p := Skip(s, 0);
    if p == |s| {
      return None;
    }
    var v;
    if s[p] == '{' || s[p] == '[' {
      v := ReadValue(c, s, p);
    } else {
      return None;
    }
    if v.Fail? {
      return None;
    }
    var q := Skip(s, v.pos + 1);
    return if q == |s| then Some(v.value) else None;
  }
}
