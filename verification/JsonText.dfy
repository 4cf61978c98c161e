/** JSON values and the text that the two printers of src/json.cc write. */
module JsonText {
  import opened Common
  import opened Decimal

  /** Keys are C strings. */
  type Key = k: string | '\0' !in k

  /** A double is its 64-bit pattern. */
  type double = uint64

  datatype Json =
    | Null
    | Bool(b: bool)
    | Int(i: int64)
    | Double(d: double)
    | Str(s: string)
    | Arr(items: seq<Json>)
    | Obj(members: seq<Member>)

  datatype Member = Member(key: Key, value: Json)

  /** The text codec of doubles, which this model does not fix. */
  datatype DoubleCodec = DoubleCodec(show: double -> string, read: string -> Option<double>)

  const BACKSPACE: char := 8 as char
  const FORMFEED: char := 12 as char

  predicate IsWhite(c: char) {
    c == ' ' || c == '\t' || c == '\r' || c == '\n'
  }

  predicate IsDelimiter(c: char) {
    c == ',' || c == '}' || c == ']' || IsWhite(c)
  }

  /** The characters that the printer escapes. */
  predicate IsSpecial(c: char) {
    c == '\r' || c == '\n' || c == '\t' || c == BACKSPACE || c == FORMFEED || c == '"' || c == '\\'
  }

  /** The letter behind the backslash. */
  function EscapeLetter(c: char): char
    requires IsSpecial(c)
  {
    if c == '\\' || c == '"' then c
    else if c == '\n' then 'n'
    else if c == '\r' then 'r'
    else if c == '\t' then 't'
    else if c == BACKSPACE then 'b'
    else 'f'
  }

  function EscapeChar(c: char): string {
    if IsSpecial(c) then ['\\', EscapeLetter(c)] else [c]
  }

  function Escape(s: string): string {
    if s == "" then "" else EscapeChar(s[0]) + Escape(s[1..])
  }

  /** The part of s before its first NUL. */
  function CString(s: string): (r: string)
    ensures '\0' !in r && r <= s
    ensures '\0' !in s ==> r == s
    ensures |r| < |s| ==> s[|r|] == '\0'
  {
    if s == "" || s[0] == '\0' then "" else [s[0]] + CString(s[1..])
  }

  predicate HasSpecial(s: string) {
    exists i :: 0 <= i < |s| && IsSpecial(s[i])
  }

  /**
   A printed string. One without a special character before its first NUL is copied
   with its length; any other one is escaped as a C string.
   */
  function Quote(s: string): string {
    "\"" + (if HasSpecial(CString(s)) then Escape(CString(s)) else s) + "\""
  }

  /** Compact text, or pretty text with its base and current indentation. */
  datatype Style = Compact | Indented(base: nat, current: nat) {
    function Child(): Style {
      if Compact? then Compact else Indented(base, current + base)
    }

    /** Before an element. */
    function Lead(): string {
      if Compact? then "" else "\n" + Spaces(current)
    }

    /** Between key and value. */
    function Colon(): string {
      if Compact? then ":" else ": "
    }

    /** Before the closing bracket. */
    function Trail(): string {
      if Compact? then "" else "\n" + Spaces(if current > base then current - base else 0)
    }
  }

  function Spaces(n: nat): (s: string)
    ensures |s| == n && forall i :: 0 <= i < n ==> s[i] == ' '
  {
    seq(n, _ => ' ')
  }

  /** The text of a value. */
  function ValueText(c: DoubleCodec, v: Json, st: Style): string
    decreases v
  {
    match v
    case Null => "null"
    case Bool(b) => if b then "true" else "false"
    case Int(i) => IntText(i)
    case Double(d) => c.show(d)
    case Str(s) => Quote(s)
    case Arr(items) => if items == [] then "[]" else "[" + ArrayBody(c, items, st)
    case Obj(members) => if members == [] then "{}" else "{" + ObjectBody(c, members, st)
  }

  /** The elements from the first of items on, up to the closing bracket. */
  function ArrayBody(c: DoubleCodec, items: seq<Json>, st: Style): string
    requires items != []
    decreases items
  {
    st.Lead() + ValueText(c, items[0], st.Child()) +
    (if |items| == 1 then st.Trail() + "]" else "," + ArrayBody(c, items[1..], st))
  }

  function ObjectBody(c: DoubleCodec, members: seq<Member>, st: Style): string
    requires members != []
    decreases members
  {
    st.Lead() + "\"" + members[0].key + "\"" + st.Colon() + ValueText(c, members[0].value, st.Child()) +
    (if |members| == 1 then st.Trail() + "}" else "," + ObjectBody(c, members[1..], st))
  }

  class Stream {
    var data: string

    constructor ()
      ensures data == ""
    {
      data := "";
    }

    method Append(s: string)
      modifies this
      ensures data == old(data) + s
    {
      data := data + s;
    }
  }

  /** strpbrk with the escaped set: the first special character of s from b on, |s| if a NUL or the end comes first. */
  method FindSpecial(s: string, b: nat) returns (p: nat)
    requires b <= |CString(s)|
    ensures b <= p <= |s|
    ensures p < |s| ==> p < |CString(s)| && IsSpecial(s[p])
    ensures forall i :: b <= i < p && i < |CString(s)| ==> !IsSpecial(s[i])
  {
    p := b;
    while p < |s| && s[p] != '\0' && !IsSpecial(s[p])
      invariant b <= p <= |CString(s)|
      invariant forall i :: b <= i < p ==> !IsSpecial(s[i])
    {
      p := p + 1;
    }
    if p < |s| && s[p] == '\0' {
      assert p == |CString(s)|;
      p := |s|;
    }
  }

  lemma {:induction false} EscapeConcat(a: string, b: string)
    ensures Escape(a + b) == Escape(a) + Escape(b)
  {
    hide Escape, EscapeChar;
    if a == "" {
      assert a + b == b;
      EscapeNothing();
    } else {
      var h, t := a[0], a[1..];
      EscapeConcat(t, b);
      EscapeFirst(h, t);
      EscapeFirst(h, t + b);
      assert a == [h] + t && a + b == [h] + (t + b);
      Assoc(EscapeChar(h), Escape(t), Escape(b));
    }
  }

  lemma EscapeNothing()
    ensures Escape("") == ""
  {
  }

  lemma EscapeFirst(h: char, t: string)
    ensures Escape([h] + t) == EscapeChar(h) + Escape(t)
  {
    hide EscapeChar;
    assert ([h] + t)[1..] == t;
  }

  lemma {:induction false} EscapePlain(s: string)
    requires !HasSpecial(s)
    ensures Escape(s) == s
  {
    if s != "" {
      assert forall i :: 0 <= i < |s[1..]| ==> s[1..][i] == s[i + 1];
      EscapePlain(s[1..]);
    }
  }

  /** Extending the escaped prefix by the plain run s[b..p]. */
  lemma EscapeRun(s: string, b: nat, p: nat)
    requires b <= p <= |s|
    requires forall i :: b <= i < p ==> !IsSpecial(s[i])
    ensures Escape(s[..p]) == Escape(s[..b]) + s[b..p]
  {
    assert s[..p] == s[..b] + s[b..p];
    EscapeConcat(s[..b], s[b..p]);
    EscapePlain(s[b..p]);
  }

  /** Extending the escaped prefix by one special character. */
  lemma EscapeOne(s: string, p: nat)
    requires p < |s| && IsSpecial(s[p])
    ensures Escape(s[..p + 1]) == Escape(s[..p]) + ['\\', EscapeLetter(s[p])]
  {
    assert s[..p + 1] == s[..p] + [s[p]];
    EscapeConcat(s[..p], [s[p]]);
    assert [s[p]][1..] == "";
  }

  /** One turn of the loop: the plain run s[b..p] and the special character at p. */
  method PrintRun(s: string, b: nat, p: nat, fs: Stream)
    requires b <= p < |s| && IsSpecial(s[p])
    requires forall i :: b <= i < p ==> !IsSpecial(s[i])
    modifies fs
    ensures forall start :: old(fs.data) == start + Escape(s[..b]) ==> fs.data == start + Escape(s[..p + 1])
  {
    hide Escape;
    EscapeRun(s, b, p);
    EscapeOne(s, p);
    var letter;
    if s[p] == '\\' || s[p] == '"' {
      letter := s[p];
    } else if s[p] == '\n' {
      letter := 'n';
    } else if s[p] == '\r' {
      letter := 'r';
    } else if s[p] == '\t' {
      letter := 't';
    } else if s[p] == BACKSPACE {
      letter := 'b';
    } else {
      letter := 'f';
    }
    fs.Append(s[b..p]);
    fs.Append(['\\', letter]);
    forall start | old(fs.data) == start + Escape(s[..b]) ensures fs.data == start + Escape(s[..p + 1]) {
      Associate(start, Escape(s[..b]), s[b..p], ['\\', letter]);
    }
  }

  lemma Associate(a: string, b: string, c: string, d: string)
    ensures a + b + c + d == a + (b + c + d)
  {
  }

  /** The loop of the string branch: everything from the first special character p on. */
  method PrintEscaped(s: string, first: nat, fs: Stream)
    requires first < |CString(s)| && IsSpecial(s[first])
    requires forall i :: 0 <= i < first ==> !IsSpecial(s[i])
    modifies fs
    ensures fs.data == old(fs.data) + Escape(CString(s))
  {
    hide Escape, IsSpecial, CString;
    ghost var start := fs.data;
    var t := CString(s);
    var b: nat, p: nat := 0, first;
    NothingEscaped(t, start);
    while true
      invariant b <= p < |t| && IsSpecial(s[p])
      invariant forall i :: b <= i < p ==> !IsSpecial(s[i])
      invariant fs.data == start + Escape(t[..b])
      decreases |t| - p
    {
      PrintRun(t, b, p, fs);
      b := p + 1;
      p := FindSpecial(s, b);
      if p == |s| {
        EscapeRun(t, b, |t|);
        assert t[..|t|] == t && t[b..|t|] == t[b..];
        fs.Append(t[b..]);
        break;
      }
    }
  }

  lemma NothingEscaped(t: string, start: string)
    ensures start == start + Escape(t[..0])
  {
  }

  /** The string branch of _Json2str. */
  method PrintString(s: string, fs: Stream)
    modifies fs
    ensures fs.data == old(fs.data) + Quote(s)
  {
    hide Escape, IsSpecial, CString;
    fs.Append("\"");
    var p := FindSpecial(s, 0);
    if p == |s| {
      assert !HasSpecial(CString(s));
      fs.Append(s);
    } else {
      assert IsSpecial(CString(s)[p]);
      PrintEscaped(s, p, fs);
    }
    fs.Append("\"");
  }

  method PrintScalar(c: DoubleCodec, v: Json, fs: Stream)
    requires !v.Arr? && !v.Obj?
    modifies fs
    ensures forall st: Style :: fs.data == old(fs.data) + ValueText(c, v, st)
  {
    match v
    case Null => fs.Append("null");
    case Bool(b) => fs.Append(if b then "true" else "false");
    case Int(i) => fs.Append(IntText(i));
    case Double(d) => fs.Append(c.show(d));
    case Str(s) => PrintString(s, fs);
  }

  /** _Json2str */
  method PrintCompact(c: DoubleCodec, v: Json, fs: Stream)
    modifies fs
    ensures fs.data == old(fs.data) + ValueText(c, v, Compact)
    decreases v, 1
  {
    match v
    case Obj(members) => PrintObjectCompact(c, members, fs);
    case Arr(items) => PrintArrayCompact(c, items, fs);
    case _ => PrintScalar(c, v, fs);
  }

  /** The text from element i on, split into the element and what follows it. */
  function AfterElement(c: DoubleCodec, items: seq<Json>, i: nat, st: Style): string
    requires i < |items|
  {
    if i + 1 == |items| then st.Trail() + "]" else "," + ArrayBody(c, items[i + 1..], st)
  }

  lemma ArrayBodyAt(c: DoubleCodec, items: seq<Json>, i: nat, st: Style)
    requires i < |items|
    ensures ArrayBody(c, items[i..], st) == st.Lead() + (ValueText(c, items[i], st.Child()) + AfterElement(c, items, i, st))
  {
    hide ValueText, Style.Lead, Style.Trail;
    var tail := items[i..];
    assert tail[0] == items[i] && tail[1..] == items[i + 1..];
  }

  function AfterMember(c: DoubleCodec, members: seq<Member>, i: nat, st: Style): string
    requires i < |members|
  {
    if i + 1 == |members| then st.Trail() + "}" else "," + ObjectBody(c, members[i + 1..], st)
  }

  function MemberText(c: DoubleCodec, m: Member, st: Style): string {
    ("\"" + m.key + "\"") + st.Colon() + ValueText(c, m.value, st.Child())
  }

  lemma MemberTextAt(c: DoubleCodec, m: Member, st: Style, before: string)
    ensures before + ("\"" + m.key + "\"") + st.Colon() + ValueText(c, m.value, st.Child()) == before + MemberText(c, m, st)
  {
    hide ValueText, Style.Colon, Style.Child;
    var q := "\"" + m.key + "\"";
    assert before + q + st.Colon() + ValueText(c, m.value, st.Child()) == before + (q + st.Colon() + ValueText(c, m.value, st.Child()));
  }

  /** A key is written raw. */
  method PrintKey(key: Key, colon: string, fs: Stream)
    modifies fs
    ensures fs.data == old(fs.data) + ("\"" + key + "\"") + colon
  {
    fs.Append("\"" + key + "\"");
    fs.Append(colon);
  }

  lemma ObjectBodyAt(c: DoubleCodec, members: seq<Member>, i: nat, st: Style)
    requires i < |members|
    ensures ObjectBody(c, members[i..], st) == st.Lead() + (MemberText(c, members[i], st) + AfterMember(c, members, i, st))
  {
    hide ValueText, Style.Lead, Style.Trail, Style.Colon;
    var tail := members[i..];
    assert tail[0] == members[i] && tail[1..] == members[i + 1..];
  }

  lemma Assoc(a: string, b: string, d: string)
    ensures a + (b + d) == a + b + d
  {
  }

  method PrintObjectCompact(c: DoubleCodec, members: seq<Member>, fs: Stream)
    modifies fs
    ensures fs.data == old(fs.data) + if members == [] then "{}" else "{" + ObjectBody(c, members, Compact)
    decreases members, 0
  {
    hide ValueText, ObjectBody;
    if |members| == 0 {
      fs.Append("{}");
      return;
    }
    ghost var goal := fs.data + ("{" + ObjectBody(c, members, Compact));
    fs.Append("{");
    var i := 0;
    assert members[0..] == members;
    while true
      invariant 0 <= i < |members|
      invariant goal == fs.data + ObjectBody(c, members[i..], Compact)
      decreases |members| - i
    {
      ObjectBodyAt(c, members, i, Compact);
      Assoc(fs.data, MemberText(c, members[i], Compact), AfterMember(c, members, i, Compact));
      ghost var before := fs.data;
      PrintKey(members[i].key, ":", fs);
      PrintCompact(c, members[i].value, fs);
      MemberTextAt(c, members[i], Compact, before);
      i := i + 1;
      if i == |members| {
        break;
      }
      Assoc(fs.data, ",", ObjectBody(c, members[i..], Compact));
      fs.Append(",");
    }
    fs.Append("}");
  }

  method PrintArrayCompact(c: DoubleCodec, items: seq<Json>, fs: Stream)
    modifies fs
    ensures fs.data == old(fs.data) + if items == [] then "[]" else "[" + ArrayBody(c, items, Compact)
    decreases items, 0
  {
    hide ValueText, ArrayBody;
    ghost var goal := fs.data + if items == [] then "[]" else "[" + ArrayBody(c, items, Compact);
    fs.Append("[");
    if |items| == 0 {
      assert "[]" == "[" + "]";
      fs.Append("]");
      return;
    }
    var i := 0;
    assert items[0..] == items;
    while true
      invariant 0 <= i < |items|
      invariant goal == fs.data + ArrayBody(c, items[i..], Compact)
      decreases |items| - i
    {
      ArrayBodyAt(c, items, i, Compact);
      Assoc(fs.data, ValueText(c, items[i], Compact), AfterElement(c, items, i, Compact));
      PrintCompact(c, items[i], fs);
      i := i + 1;
      if i == |items| {
        break;
      }
      Assoc(fs.data, ",", ArrayBody(c, items[i..], Compact));
      fs.Append(",");
    }
    fs.Append("]");
  }

  /** _Json2pretty */
  method PrintPretty(c: DoubleCodec, v: Json, base: nat, current: nat, fs: Stream)
    modifies fs
    ensures fs.data == old(fs.data) + ValueText(c, v, Indented(base, current))
    decreases v, 1
  {
    match v
    case Obj(members) => PrintObjectPretty(c, members, base, current, fs);
    case Arr(items) => PrintArrayPretty(c, items, base, current, fs);
    case _ => PrintScalar(c, v, fs);
  }

  method PrintObjectPretty(c: DoubleCodec, members: seq<Member>, base: nat, current: nat, fs: Stream)
    modifies fs
    ensures fs.data == old(fs.data) +
                       if members == [] then "{}" else "{" + ObjectBody(c, members, Indented(base, current))
    decreases members, 0
  {
    hide ValueText, ObjectBody;
    ghost var st := Indented(base, current);
    if |members| == 0 {
      fs.Append("{}");
      return;
    }
    ghost var goal := fs.data + ("{" + ObjectBody(c, members, st));
    fs.Append("{");
    var i := 0;
    assert members[0..] == members;
    while true
      invariant 0 <= i < |members|
      invariant goal == fs.data + ObjectBody(c, members[i..], st)
      decreases |members| - i
    {
      ObjectBodyAt(c, members, i, st);
      Assoc(fs.data, st.Lead(), MemberText(c, members[i], st) + AfterMember(c, members, i, st));
      Assoc(fs.data + st.Lead(), MemberText(c, members[i], st), AfterMember(c, members, i, st));
      PrintLead(current, fs);
      ghost var before := fs.data;
      PrintKey(members[i].key, ": ", fs);
      PrintNested(c, members[i].value, base, current, fs);
      MemberTextAt(c, members[i], st, before);
      i := i + 1;
      if i == |members| {
        break;
      }
      Assoc(fs.data, ",", ObjectBody(c, members[i..], st));
      fs.Append(",");
    }
    assert goal == fs.data + (st.Trail() + "}");
    PrintTrail(base, current, fs);
    fs.Append("}");
  }

  method PrintArrayPretty(c: DoubleCodec, items: seq<Json>, base: nat, current: nat, fs: Stream)
    modifies fs
    ensures fs.data == old(fs.data) +
                       if items == [] then "[]" else "[" + ArrayBody(c, items, Indented(base, current))
    decreases items, 0
  {
    hide ValueText, ArrayBody;
    ghost var st := Indented(base, current);
    if |items| == 0 {
      fs.Append("[]");
      return;
    }
    ghost var goal := fs.data + ("[" + ArrayBody(c, items, st));
    fs.Append("[");
    var i := 0;
    assert items[0..] == items;
    while true
      invariant 0 <= i < |items|
      invariant goal == fs.data + ArrayBody(c, items[i..], st)
      decreases |items| - i
    {
      ArrayBodyAt(c, items, i, st);
      Assoc(fs.data, st.Lead(), ValueText(c, items[i], st.Child()) + AfterElement(c, items, i, st));
      Assoc(fs.data + st.Lead(), ValueText(c, items[i], st.Child()), AfterElement(c, items, i, st));
      PrintLead(current, fs);
      PrintNested(c, items[i], base, current, fs);
      i := i + 1;
      if i == |items| {
        break;
      }
      Assoc(fs.data, ",", ArrayBody(c, items[i..], st));
      fs.Append(",");
    }
    assert goal == fs.data + (st.Trail() + "]");
    PrintTrail(base, current, fs);
    fs.Append("]");
  }

  /** The line break, which the source writes behind '{', '[' and ',', and the indentation. */
  method PrintLead(current: nat, fs: Stream)
    modifies fs
    ensures forall base: nat :: fs.data == old(fs.data) + Indented(base, current).Lead()
  {
    fs.Append("\n");
    fs.Append(Spaces(current));
  }

  method PrintTrail(base: nat, current: nat, fs: Stream)
    modifies fs
    ensures fs.data == old(fs.data) + Indented(base, current).Trail()
  {
    fs.Append("\n");
    if current > base {
      fs.Append(Spaces(current - base));
    }
  }

  method PrintNested(c: DoubleCodec, v: Json, base: nat, current: nat, fs: Stream)
    modifies fs
    ensures fs.data == old(fs.data) + ValueText(c, v, Indented(base, current + base))
    decreases v, 2
  {
    if v.Obj? || v.Arr? {
      PrintPretty(c, v, base, current + base, fs);
    } else {
      PrintScalar(c, v, fs);
    }
  }
}
