/** Parsing undoes both printers, exactly for the values whose text keeps them. */
module JsonRoundTrip {
  import opened Common
  import opened Decimal
  import opened JsonText
  import opened JsonParse
  import opened Atoi

  /** s holds the text t at position b. */
  predicate At(s: string, b: nat, t: string) {
    b + |t| <= |s| && s[b..b + |t|] == t
  }

  lemma AtConcat(s: string, b: nat, t1: string, t2: string)
    ensures At(s, b, t1 + t2) <==> At(s, b, t1) && At(s, b + |t1|, t2)
  {
    if At(s, b, t1 + t2) {
      assert s[b..b + |t1|] == s[b..b + |t1 + t2|][..|t1|];
      assert s[b + |t1|..b + |t1| + |t2|] == s[b..b + |t1 + t2|][|t1|..];
    }
    if At(s, b, t1) && At(s, b + |t1|, t2) {
      assert s[b..b + |t1 + t2|] == s[b..b + |t1|] + s[b + |t1|..b + |t1| + |t2|];
    }
  }

  lemma AtChar(s: string, b: nat, t: string, i: nat)
    requires At(s, b, t) && i < |t|
    ensures b + i < |s| && s[b + i] == t[i]
  {
    assert s[b..b + |t|][i] == s[b + i];
  }

  /** The codec writes every double of v as a number token and reads it back. */
  predicate DoublesKept(c: DoubleCodec, v: Json) {
    match v
    case Double(d) => IsDoubleText(c.show(d)) && c.read(c.show(d)) == Some(d)
    case Arr(items) => forall i :: 0 <= i < |items| ==> DoublesKept(c, items[i])
    case Obj(members) => forall i :: 0 <= i < |members| ==> DoublesKept(c, members[i].value)
    case _ => true
  }

  predicate IsDoubleText(t: string) {
    && IsDoubleToken(t)
    && t[0] !in ['f', 't', 'n', '"', '{', '[']
    && forall i :: 0 <= i < |t| ==> !IsDelimiter(t[i])
  }

  /** No key contains a quote; keys are printed and read raw. */
  predicate KeysPlain(v: Json) {
    match v
    case Arr(items) => forall i :: 0 <= i < |items| ==> KeysPlain(items[i])
    case Obj(members) => forall i :: 0 <= i < |members| ==> '"' !in members[i].key && KeysPlain(members[i].value)
    case _ => true
  }

  predicate NulFree(v: Json) {
    match v
    case Str(s) => '\0' !in s
    case Arr(items) => forall i :: 0 <= i < |items| ==> NulFree(items[i])
    case Obj(members) => forall i :: 0 <= i < |members| ==> NulFree(members[i].value)
    case _ => true
  }

  /** What is left of a string: cut at its first NUL, or unreadable if that NUL is printed raw. */
  function CutString(s: string): Option<string> {
    if '\0' !in s || HasSpecial(CString(s)) then Some(CString(s)) else None
  }

  function Cut(v: Json): Option<Json>
    decreases v
  {
    match v
    case Str(s) => (var t := CutString(s); if t.Some? then Some(Str(t.value)) else None)
    case Arr(items) => (var t := CutItems(items); if t.Some? then Some(Arr(t.value)) else None)
    case Obj(members) => (var t := CutMembers(members); if t.Some? then Some(Obj(t.value)) else None)
    case _ => Some(v)
  }

  function CutItems(items: seq<Json>): (r: Option<seq<Json>>)
    ensures r.Some? ==> |r.value| == |items|
    decreases items
  {
    if items == [] then Some([])
    else
      var h, t := Cut(items[0]), CutItems(items[1..]);
      if h.Some? && t.Some? then Some([h.value] + t.value) else None
  }

  function CutMembers(members: seq<Member>): (r: Option<seq<Member>>)
    ensures r.Some? ==> |r.value| == |members|
    decreases members
  {
    if members == [] then Some([])
    else
      var h, t := Cut(members[0].value), CutMembers(members[1..]);
      if h.Some? && t.Some? then Some([Member(members[0].key, h.value)] + t.value) else None
  }

  function AsParsed<T>(pos: nat, r: Option<T>): Parsed<T> {
    if r.Some? then Done(pos, r.value) else Fail
  }

  lemma {:induction false} SkipRun(s: string, b: nat, w: string)
    requires At(s, b, w) && forall i :: 0 <= i < |w| ==> IsWhite(w[i])
    ensures SkipWhite(s, b) == SkipWhite(s, b + |w|)
    decreases |w|
  {
    if w != "" {
      AtChar(s, b, w, 0);
      assert w == w[..1] + w[1..];
      AtConcat(s, b, w[..1], w[1..]);
      SkipRun(s, b + 1, w[1..]);
    }
  }

  lemma SkipStop(s: string, b: nat)
    requires b < |s| && !IsWhite(s[b])
    ensures SkipWhite(s, b) == b
  {
  }

  lemma StyleIsWhite(st: Style)
    ensures forall i :: 0 <= i < |st.Lead()| ==> IsWhite(st.Lead()[i])
    ensures forall i :: 0 <= i < |st.Trail()| ==> IsWhite(st.Trail()[i])
  {
  }

  // ----- strings -----

  lemma {:induction false} EscapedParses(s: string, b: nat, t: string)
    requires '\0' !in t && At(s, b, Escape(t) + "\"")
    ensures ParseString(s, b) == Done(b + |Escape(t)|, t)
    decreases |t|
  {
    hide ParseString, Escape, EscapeChar, At;
    if t == "" {
      EscapeNothing();
      assert "" + "\"" == "\"";
      QuoteEnds(s, b);
    } else {
      var c, u := t[0], t[1..];
      var tail := Escape(u) + "\"";
      EscapeFirst(c, u);
      assert t == [c] + u;
      Assoc(EscapeChar(c), Escape(u), "\"");
      AtConcat(s, b, EscapeChar(c), tail);
      EscapedParses(s, b + |EscapeChar(c)|, u);
      CharParses(s, b, c);
    }
  }

  lemma QuoteEnds(s: string, b: nat)
    requires At(s, b, "\"")
    ensures ParseString(s, b) == Done(b, "")
  {
    AtChar(s, b, "\"", 0);
  }

  /** One character in its escaped form. */
  lemma CharParses(s: string, b: nat, c: char)
    requires c != '\0' && At(s, b, EscapeChar(c))
    ensures ParseString(s, b) == Prefixed([c], ParseString(s, b + |EscapeChar(c)|))
  {
    AtChar(s, b, EscapeChar(c), 0);
    if IsSpecial(c) {
      AtChar(s, b, EscapeChar(c), 1);
      LetterUnescapes(c);
      hide EscapeLetter, Unescape;
      ParseEscape(s, b);
    }
  }

  lemma LetterUnescapes(c: char)
    requires IsSpecial(c)
    ensures Unescape(EscapeLetter(c)) == Some(c) && EscapeLetter(c) != 'u'
  {
  }

  lemma RawNulFails(s: string, b: nat, t: string)
    requires '\0' in t && !HasSpecial(CString(t)) && At(s, b, t)
    ensures ParseString(s, b).Fail?
  {
    hide ParseString, IsSpecial, At;
    var z := CString(t);
    assert |z| < |t|;
    AtChar(s, b, t, |z|);
    forall i | b <= i < b + |z|
      ensures i < |s| && s[i] != '\0' && !IsSpecial(s[i])
    {
      AtChar(s, b, t, i - b);
      assert s[i] == z[i - b] && z[i - b] in z;
    }
    NulFails(s, b, b + |z|);
  }

  lemma {:induction false} NulFails(s: string, b: nat, e: nat)
    requires b <= e < |s| && s[e] == '\0'
    requires forall i :: b <= i < e ==> s[i] != '\0' && !IsSpecial(s[i])
    ensures ParseString(s, b).Fail?
    decreases e - b
  {
    if b < e {
      NulFails(s, b + 1, e);
    }
  }

  lemma StringParses(c: DoubleCodec, t: string, s: string, b: nat)
    requires At(s, b, Quote(t))
    ensures ParseValue(c, s, b) == AsParsed(b + |Quote(t)| - 1, Cut(Str(t)))
  {
    hide ParseString, Escape, HasSpecial, CString;
    var z := CString(t);
    var body := if HasSpecial(z) then Escape(z) else t;
    assert Quote(t) == "\"" + (body + "\"");
    AtChar(s, b, Quote(t), 0);
    AtConcat(s, b, "\"", body + "\"");
    AtConcat(s, b + 1, body, "\"");
    if '\0' in t && !HasSpecial(z) {
      RawNulFails(s, b + 1, t);
    } else {
      if !HasSpecial(z) {
        EscapePlain(z);
      }
      EscapedParses(s, b + 1, z);
    }
  }

  // ----- tokens -----

  lemma {:induction false} TokenEndAt(s: string, b: nat, e: nat)
    requires b <= e < |s| && IsDelimiter(s[e])
    requires forall i :: b <= i < e ==> !IsDelimiter(s[i])
    ensures TokenEnd(s, b) == e
    decreases e - b
  {
    if b < e {
      TokenEndAt(s, b + 1, e);
    }
  }

  /** A text that is a token parses as its token value. */
  lemma TokenParses(c: DoubleCodec, t: string, s: string, b: nat)
    requires t != "" && At(s, b, t) && t[0] !in ['"', '{', '[']
    requires forall i :: 0 <= i < |t| ==> !IsDelimiter(t[i])
    requires b + |t| < |s| && IsDelimiter(s[b + |t|])
    ensures ParseValue(c, s, b) == AsParsed(b + |t| - 1, Token(c, t))
  {
    AtChar(s, b, t, 0);
    forall i | b + 1 <= i < b + |t|
      ensures !IsDelimiter(s[i])
    {
      AtChar(s, b, t, i - b);
    }
    TokenEndAt(s, b + 1, b + |t|);
  }

  lemma IntToken(c: DoubleCodec, i: int64)
    ensures Token(c, IntText(i)) == Some(Int(i))
    ensures IntText(i)[0] !in ['"', '{', '[', 'f', 't', 'n']
    ensures forall k :: 0 <= k < |IntText(i)| ==> !IsDelimiter(IntText(i)[k])
  {
    AtoiOfText(i);
    var t := IntText(i);
    forall k | 0 <= k < |t|
      ensures t[k] == '-' || IsDigit(t[k])
    {
    }
    assert !IsDoubleToken(t);
  }

  /** The first character of a text opens no other item and ends none. */
  lemma FirstChar(c: DoubleCodec, v: Json, st: Style)
    requires DoublesKept(c, v)
    ensures ValueText(c, v, st) != "" && !IsDelimiter(ValueText(c, v, st)[0])
  {
    match v
    case Int(i) => IntToken(c, i);
    case Double(d) => assert IsDoubleText(c.show(d));
    case _ =>
  }

  lemma ConstantTokens(c: DoubleCodec)
    ensures Token(c, "null") == Some(Null) && Token(c, "true") == Some(Bool(true)) && Token(c, "false") == Some(Bool(false))
  {
  }

  lemma DoubleTokenOf(c: DoubleCodec, d: double)
    requires DoublesKept(c, Double(d))
    ensures IsDoubleText(c.show(d)) && Token(c, c.show(d)) == Some(Double(d))
  {
  }

  // ----- values -----

  lemma EmptyParses(c: DoubleCodec, s: string, b: nat)
    ensures At(s, b, "[]") ==> ParseArray(c, s, b + 1) == Done(b + 1, []) && CutItems([]) == Some([])
    ensures At(s, b, "{}") ==> ParseObject(c, s, b + 1) == Done(b + 1, []) && CutMembers([]) == Some([])
  {
    if At(s, b, "[]") {
      AtChar(s, b, "[]", 1);
      SkipStop(s, b + 1);
    }
    if At(s, b, "{}") {
      AtChar(s, b, "{}", 1);
      SkipStop(s, b + 1);
    }
  }

  lemma {:induction false} ValueParses(c: DoubleCodec, v: Json, st: Style, s: string, b: nat)
    requires KeysPlain(v) && DoublesKept(c, v) && At(s, b, ValueText(c, v, st))
    requires b + |ValueText(c, v, st)| < |s| && IsDelimiter(s[b + |ValueText(c, v, st)|])
    ensures b < |s| && ParseValue(c, s, b) == AsParsed(b + |ValueText(c, v, st)| - 1, Cut(v))
    decreases v, 1
  {
    hide ParseArray, ParseObject, ParseToken, ParseString, SkipWhite, At, CutItems, CutMembers, ArrayBody, ObjectBody,
         KeysPlain, DoublesKept, Token, TokenEnd, IntText, Quote, CutString;
    FirstChar(c, v, st);
    AtChar(s, b, ValueText(c, v, st), 0);
    match v
    case Null =>
      ConstantTokens(c);
      TokenParses(c, "null", s, b);
    case Bool(x) =>
      ConstantTokens(c);
      TokenParses(c, if x then "true" else "false", s, b);
    case Int(i) =>
      IntToken(c, i);
      TokenParses(c, IntText(i), s, b);
    case Double(d) =>
      DoubleTokenOf(c, d);
      TokenParses(c, c.show(d), s, b);
    case Str(t) =>
      StringParses(c, t, s, b);
    case Arr(items) =>
      if items == [] {
        EmptyParses(c, s, b);
      } else {
        AtConcat(s, b, "[", ArrayBody(c, items, st));
        ItemsParse(c, items, st, s, b + 1);
      }
    case Obj(members) =>
      if members == [] {
        EmptyParses(c, s, b);
      } else {
        AtConcat(s, b, "{", ObjectBody(c, members, st));
        MembersParse(c, members, st, s, b + 1);
      }
  }

  /** The element behind the white space w. */
  lemma LeadSkipped(s: string, b: nat, w: string, t: string)
    requires At(s, b, w + t) && t != "" && !IsWhite(t[0])
    requires forall i :: 0 <= i < |w| ==> IsWhite(w[i])
    ensures SkipWhite(s, b) == b + |w| < |s| && s[b + |w|] == t[0]
  {
    AtConcat(s, b, w, t);
    SkipRun(s, b, w);
    AtChar(s, b + |w|, t, 0);
    SkipStop(s, b + |w|);
  }

  /** White space and a closing bracket behind an element delimit it. */
  lemma CloseSkipped(s: string, e: nat, w: string, close: char)
    requires At(s, e, w + [close]) && (close == ']' || close == '}')
    requires forall i :: 0 <= i < |w| ==> IsWhite(w[i])
    ensures e < |s| && IsDelimiter(s[e])
    ensures SkipWhite(s, e) == e + |w| < |s| && s[e + |w|] == close
  {
    LeadSkipped(s, e, w, [close]);
    AtChar(s, e, w + [close], 0);
  }

  lemma {:induction false} ItemsParse(c: DoubleCodec, items: seq<Json>, st: Style, s: string, b: nat)
    requires items != [] && KeysPlain(Arr(items)) && DoublesKept(c, Arr(items)) && At(s, b, ArrayBody(c, items, st))
    ensures ParseArray(c, s, b) == AsParsed(b + |ArrayBody(c, items, st)| - 1, CutItems(items))
    decreases items, 0
  {
    hide SkipWhite, Style.Lead, Style.Trail, ValueText, ArrayBody, DoublesKept, Cut, ParseValue, KeysPlain, At, CutItems, ParseArray, ArrayTurn;
    var lead, t, rest := st.Lead(), ValueText(c, items[0], st.Child()), AfterElement(c, items, 0, st);
    ArrayBodyAt(c, items, 0, st);
    assert items[0..] == items;
    var k := b + |lead|;
    var e := k + |t|;
    AtConcat(s, b, lead, t + rest);
    AtConcat(s, k, t, rest);
    StyleIsWhite(st);
    HeadAndTail(c, items);
    FirstChar(c, items[0], st.Child());
    assert (t + rest)[0] == t[0];
    LeadSkipped(s, b, lead, t + rest);
    if |items| == 1 {
      CloseSkipped(s, e, st.Trail(), ']');
    } else {
      AtConcat(s, e, ",", ArrayBody(c, items[1..], st));
      AtChar(s, e, ",", 0);
      SkipStop(s, e);
      ItemsParse(c, items[1..], st, s, e + 1);
    }
    ValueParses(c, items[0], st.Child(), s, k);
    ArrayStep(c, items, s, b, k, e);
  }

  lemma HeadAndTail(c: DoubleCodec, items: seq<Json>)
    requires items != [] && KeysPlain(Arr(items)) && DoublesKept(c, Arr(items))
    ensures KeysPlain(items[0]) && KeysPlain(Arr(items[1..]))
    ensures DoublesKept(c, items[0]) && DoublesKept(c, Arr(items[1..]))
  {
    forall i | 0 <= i < |items[1..]|
      ensures KeysPlain(items[1..][i]) && DoublesKept(c, items[1..][i])
    {
      assert items[1..][i] == items[i + 1];
    }
  }

  /** One turn of the array loop, given what its parts do. */
  lemma ArrayStep(c: DoubleCodec, items: seq<Json>, s: string, b: nat, k: nat, e: nat)
    requires items != [] && b <= k < e < |s| && SkipWhite(s, b) == k && s[k] != ']'
    requires ParseValue(c, s, k) == AsParsed(e - 1, Cut(items[0]))
    requires if |items| == 1 then SkipWhite(s, e) < |s| && s[SkipWhite(s, e)] == ']'
             else SkipWhite(s, e) == e && s[e] == ',' && exists n: nat :: ParseArray(c, s, e + 1) == AsParsed(n, CutItems(items[1..]))
    ensures |items| == 1 ==> ParseArray(c, s, b) == AsParsed(SkipWhite(s, e), CutItems(items))
    ensures |items| > 1 ==> forall n: nat :: ParseArray(c, s, e + 1) == AsParsed(n, CutItems(items[1..]))
                                         ==> ParseArray(c, s, b) == AsParsed(n, CutItems(items))
  {
    hide SkipWhite, Cut, ParseValue;
    if |items| == 1 {
      assert items[1..] == [];
      if Cut(items[0]).Some? {
        assert [Cut(items[0]).value] + [] == [Cut(items[0]).value];
      }
    }
  }

  lemma KeyIsPlain(key: Key)
    ensures CString(key) == key
  {
  }

  lemma KeyParses(s: string, b: nat, key: Key)
    requires '"' !in key && At(s, b, key + "\"")
    ensures ParseKey(s, b) == Done(b + |key|, key)
  {
    hide CString;
    AtChar(s, b, key + "\"", |key|);
    AtConcat(s, b, key, "\"");
    KeyIsPlain(key);
    assert s[b..b + |key|] == key;
    forall i | b <= i < b + |key|
      ensures s[i] != '"'
    {
      AtChar(s, b, key, i - b);
      assert key[i - b] in key;
    }
  }

  lemma MemberParses(c: DoubleCodec, m: Member, st: Style, s: string, k: nat)
    requires '"' !in m.key && KeysPlain(m.value) && DoublesKept(c, m.value) && At(s, k, MemberText(c, m, st))
    requires k + |MemberText(c, m, st)| < |s| && IsDelimiter(s[k + |MemberText(c, m, st)|])
    ensures k < |s| && s[k] == '"'
    ensures ParseMember(c, s, k) == AsParsed(k + |MemberText(c, m, st)| - 1, CutMember(m))
    decreases m, 2
  {
    hide SkipWhite, Cut, ParseKey, ParseValue, ValueText, KeysPlain, At, ParseMember, CutMember, DoublesKept;
    var t, w := ValueText(c, m.value, st.Child()), if st.Compact? then "" else " ";
    MemberLayout(c, m, st);
    FirstChar(c, m.value, st.Child());
    MemberPositions(s, k, m.key, w, t);
    var p := k + 2 + |m.key|;
    var v := p + 1 + |w|;
    assert v + |t| == k + |MemberText(c, m, st)|;
    ValueParses(c, m.value, st.Child(), s, v);
    MemberStep(c, m, s, k, p, v, v + |t|);
  }

  lemma MemberPositions(s: string, k: nat, key: Key, w: string, t: string)
    requires '"' !in key && (w == "" || w == " ") && t != "" && !IsWhite(t[0])
    requires At(s, k, "\"" + ((key + "\"") + (":" + (w + t))))
    ensures k < |s| && s[k] == '"'
    ensures var p := k + 2 + |key|; var v := p + 1 + |w|;
            && ParseKey(s, k + 1) == Done(p - 1, key)
            && p < |s| && s[p] == ':' && SkipWhite(s, p) == p && SkipWhite(s, p + 1) == v && At(s, v, t)
  {
    hide SkipWhite, ParseKey, At;
    var q := key + "\"";
    var p := k + 1 + |q|;
    AtConcat(s, k, "\"", q + (":" + (w + t)));
    AtChar(s, k, "\"", 0);
    AtConcat(s, k + 1, q, ":" + (w + t));
    KeyParses(s, k + 1, key);
    AtConcat(s, p, ":", w + t);
    AtChar(s, p, ":", 0);
    SkipStop(s, p);
    AtConcat(s, p + 1, w, t);
    LeadSkipped(s, p + 1, w, t);
  }

  lemma MemberLayout(c: DoubleCodec, m: Member, st: Style)
    ensures MemberText(c, m, st) ==
            "\"" + ((m.key + "\"") + (":" + ((if st.Compact? then "" else " ") + ValueText(c, m.value, st.Child()))))
  {
    hide ValueText;
  }

  lemma MemberStep(c: DoubleCodec, m: Member, s: string, k: nat, p: nat, v: nat, e: nat)
    requires k < p < v < e <= |s| && ParseKey(s, k + 1) == Done(p - 1, m.key)
    requires SkipWhite(s, p) == p && s[p] == ':' && SkipWhite(s, p + 1) == v
    requires ParseValue(c, s, v) == AsParsed(e - 1, Cut(m.value))
    ensures ParseMember(c, s, k) == AsParsed(e - 1, CutMember(m))
  {
    hide SkipWhite, Cut, ParseKey, ParseValue;
  }

  function CutMember(m: Member): Option<Member> {
    var t := Cut(m.value);
    if t.Some? then Some(Member(m.key, t.value)) else None
  }

  lemma {:induction false} MembersParse(c: DoubleCodec, members: seq<Member>, st: Style, s: string, b: nat)
    requires members != [] && KeysPlain(Obj(members)) && DoublesKept(c, Obj(members)) && At(s, b, ObjectBody(c, members, st))
    ensures ParseObject(c, s, b) == AsParsed(b + |ObjectBody(c, members, st)| - 1, CutMembers(members))
    decreases members, 0
  {
    hide SkipWhite, Style.Lead, Style.Trail, MemberText, ObjectBody, DoublesKept, Cut, ParseMember, KeysPlain, At, CutMembers, ParseObject, ObjectTurn;
    var lead, t, rest := st.Lead(), MemberText(c, members[0], st), AfterMember(c, members, 0, st);
    ObjectBodyAt(c, members, 0, st);
    assert members[0..] == members;
    var k := b + |lead|;
    var e := k + |t|;
    AtConcat(s, b, lead, t + rest);
    AtConcat(s, k, t, rest);
    StyleIsWhite(st);
    MemberTextStart(c, members[0], st);
    assert (t + rest)[0] == '"';
    LeadSkipped(s, b, lead, t + rest);
    FirstAndOthers(c, members);
    if |members| == 1 {
      CloseSkipped(s, e, st.Trail(), '}');
    } else {
      AtConcat(s, e, ",", ObjectBody(c, members[1..], st));
      AtChar(s, e, ",", 0);
      SkipStop(s, e);
      MembersParse(c, members[1..], st, s, e + 1);
    }
    MemberParses(c, members[0], st, s, k);
    ObjectStep(c, members, s, b, k, e);
  }

  lemma MemberTextStart(c: DoubleCodec, m: Member, st: Style)
    ensures |MemberText(c, m, st)| > 0 && MemberText(c, m, st)[0] == '"'
  {
  }

  lemma FirstAndOthers(c: DoubleCodec, members: seq<Member>)
    requires members != [] && KeysPlain(Obj(members)) && DoublesKept(c, Obj(members))
    ensures '"' !in members[0].key && KeysPlain(members[0].value) && KeysPlain(Obj(members[1..]))
    ensures DoublesKept(c, members[0].value) && DoublesKept(c, Obj(members[1..]))
  {
    forall i | 0 <= i < |members[1..]|
      ensures '"' !in members[1..][i].key && KeysPlain(members[1..][i].value) && DoublesKept(c, members[1..][i].value)
    {
      assert members[1..][i] == members[i + 1];
    }
  }

  lemma ObjectStep(c: DoubleCodec, members: seq<Member>, s: string, b: nat, k: nat, e: nat)
    requires members != [] && b <= k < e < |s| && SkipWhite(s, b) == k && s[k] == '"'
    requires ParseMember(c, s, k) == AsParsed(e - 1, CutMember(members[0]))
    requires if |members| == 1 then SkipWhite(s, e) < |s| && s[SkipWhite(s, e)] == '}'
             else SkipWhite(s, e) == e && s[e] == ',' && exists n: nat :: ParseObject(c, s, e + 1) == AsParsed(n, CutMembers(members[1..]))
    ensures |members| == 1 ==> ParseObject(c, s, b) == AsParsed(SkipWhite(s, e), CutMembers(members))
    ensures |members| > 1 ==> forall n: nat :: ParseObject(c, s, e + 1) == AsParsed(n, CutMembers(members[1..]))
                                           ==> ParseObject(c, s, b) == AsParsed(n, CutMembers(members))
  {
    hide SkipWhite, Cut, ParseMember;
    if |members| == 1 {
      assert members[1..] == [];
      var m := CutMember(members[0]);
      if m.Some? {
        assert [m.value] + [] == [m.value];
      }
    }
  }

  // ----- whole documents -----

  /** The whole document, with nothing behind it. */
  lemma DocumentParses(c: DoubleCodec, v: Json, st: Style)
    requires DoublesKept(c, v) && KeysPlain(v) && (v.Arr? || v.Obj?)
    ensures Parse(c, ValueText(c, v, st)) == Cut(v)
  {
    hide ParseArray, ParseObject, SkipWhite, CutItems, CutMembers, ArrayBody, ObjectBody, KeysPlain, DoublesKept;
    var s := ValueText(c, v, st);
    assert s[0..|s|] == s;
    FirstChar(c, v, st);
    SkipStop(s, 0);
    SkipEnd(s);
    match v
    case Arr(items) =>
      if items == [] {
        EmptyParses(c, s, 0);
      } else {
        AtConcat(s, 0, "[", ArrayBody(c, items, st));
        ItemsParse(c, items, st, s, 1);
      }
    case Obj(members) =>
      if members == [] {
        EmptyParses(c, s, 0);
      } else {
        AtConcat(s, 0, "{", ObjectBody(c, members, st));
        MembersParse(c, members, st, s, 1);
      }
  }

  lemma SkipEnd(s: string)
    ensures SkipWhite(s, |s|) == |s|
  {
  }

  lemma {:induction false} CutIdentity(v: Json)
    ensures Cut(v) == Some(v) <==> NulFree(v)
    decreases v
  {
    match v
    case Arr(items) => CutItemsIdentity(items);
    case Obj(members) => CutMembersIdentity(members);
    case _ =>
  }

  lemma {:induction false} CutItemsIdentity(items: seq<Json>)
    ensures CutItems(items) == Some(items) <==> forall i :: 0 <= i < |items| ==> NulFree(items[i])
    decreases items
  {
    if items != [] {
      CutIdentity(items[0]);
      CutItemsIdentity(items[1..]);
      assert items == [items[0]] + items[1..];
      assert forall i :: 1 <= i < |items| ==> items[i] == items[1..][i - 1];
    }
  }

  lemma {:induction false} CutMembersIdentity(members: seq<Member>)
    ensures CutMembers(members) == Some(members) <==>
            forall i :: 0 <= i < |members| ==> NulFree(members[i].value)
    decreases members
  {
    hide Cut, NulFree;
    if members != [] {
      CutIdentity(members[0].value);
      CutMembersIdentity(members[1..]);
      assert members == [members[0]] + members[1..];
      assert forall i :: 1 <= i < |members| ==> members[i] == members[1..][i - 1];
    }
  }

  /** Keys that were read never contain a quote. */
  lemma {:induction false} ReadKeysPlain(c: DoubleCodec, s: string, b: nat)
    requires b < |s| && ParseValue(c, s, b).Done?
    ensures KeysPlain(ParseValue(c, s, b).value)
    decreases |s| - b, 0
  {
    if s[b] == '{' {
      ReadMembersPlain(c, s, b + 1);
    } else if s[b] == '[' {
      ReadItemsPlain(c, s, b + 1);
    }
  }

  lemma {:induction false} ReadItemsPlain(c: DoubleCodec, s: string, b: nat)
    requires b <= |s| && ParseArray(c, s, b).Done?
    ensures KeysPlain(Arr(ParseArray(c, s, b).value))
    decreases |s| - b, 1
  {
    hide SkipWhite, ParseValue;
    var k := SkipWhite(s, b);
    assert ParseArray(c, s, b) == ArrayTurn(c, s, k);
    if s[k] != ']' {
      ReadKeysPlain(c, s, k);
      var v := ParseValue(c, s, k);
      var t := SkipWhite(s, v.pos + 1);
      if s[t] == ',' {
        ReadItemsPlain(c, s, t + 1);
      }
    }
  }

  lemma {:induction false} ReadMembersPlain(c: DoubleCodec, s: string, b: nat)
    requires b <= |s| && ParseObject(c, s, b).Done?
    ensures KeysPlain(Obj(ParseObject(c, s, b).value))
    decreases |s| - b, 1
  {
    hide SkipWhite, ParseMember;
    var k := SkipWhite(s, b);
    assert ParseObject(c, s, b) == ObjectTurn(c, s, k);
    if s[k] != '}' {
      ReadMemberPlain(c, s, k);
      var m := ParseMember(c, s, k);
      var t := SkipWhite(s, m.pos + 1);
      if s[t] == ',' {
        ReadMembersPlain(c, s, t + 1);
      }
    }
  }

  lemma {:induction false} ReadMemberPlain(c: DoubleCodec, s: string, k: nat)
    requires k < |s| && ParseMember(c, s, k).Done?
    ensures '"' !in ParseMember(c, s, k).value.key && KeysPlain(ParseMember(c, s, k).value.value)
    decreases |s| - k, 0
  {
    hide ParseKey, SkipWhite, ParseValue, KeysPlain, CString;
    var q := ParseKey(s, k + 1);
    KeyHasNoQuote(s, k + 1);
    var m := SkipWhite(s, q.pos + 1);
    var w := SkipWhite(s, m + 1);
    ReadKeysPlain(c, s, w);
  }

  lemma KeyHasNoQuote(s: string, b: nat)
    requires b <= |s| && ParseKey(s, b).Done?
    ensures '"' !in ParseKey(s, b).value
  {
    hide ParseKey;
    var q := ParseKey(s, b);
    assert forall i :: 0 <= i < |q.value| ==> q.value[i] == s[b..q.pos][i] == s[b + i];
  }

  /**
   Parsing the text of an array or object gives the value back exactly if no key holds a
   quote and no string a NUL, for the compact printer and for every indentation.
   */
  lemma RoundTrip(c: DoubleCodec, v: Json, st: Style)
    requires DoublesKept(c, v) && (v.Arr? || v.Obj?)
    ensures Parse(c, ValueText(c, v, st)) == Some(v) <==> KeysPlain(v) && NulFree(v)
  {
    hide ParseValue, KeysPlain, NulFree, Cut, DoublesKept;
    if KeysPlain(v) {
      DocumentParses(c, v, st);
      CutIdentity(v);
    } else {
      var s := ValueText(c, v, st);
      var p := SkipWhite(s, 0);
      if Parse(c, s).Some? {
        ReadKeysPlain(c, s, p);
      }
    }
  }
}
