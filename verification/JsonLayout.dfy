/**
 * How the two printers lay out a document (src/json.cc:107-192 and 287-361): the compact one puts nothing
 * between the tokens; the pretty one gives each element and member a line of its own, indented by its depth.
 */
module JsonLayout {
  import opened JsonText

  /** The parts with sep between them. */
  function Separated(ts: seq<string>, sep: string): string {
    if ts == [] then "" else if |ts| == 1 then ts[0] else ts[0] + sep + Separated(ts[1..], sep)
  }

  /** A new line at depth d. */
  function Line(base: nat, d: nat): string {
    "\n" + Spaces(d * base)
  }

  /** Pretty text inside d brackets. */
  function Pretty(base: nat, d: nat): Style {
    Indented(base, (d + 1) * base)
  }

  function Texts(c: DoubleCodec, items: seq<Json>, st: Style): (ts: seq<string>)
    ensures |ts| == |items| && forall i :: 0 <= i < |ts| ==> ts[i] == ValueText(c, items[i], st)
  {
    seq(|items|, (i: nat) requires i < |items| => ValueText(c, items[i], st))
  }

  function MemberTexts(c: DoubleCodec, members: seq<Member>, colon: string, st: Style): (ts: seq<string>)
    ensures |ts| == |members|
    ensures forall i :: 0 <= i < |ts| ==> ts[i] == "\"" + members[i].key + "\"" + colon + ValueText(c, members[i].value, st)
  {
    seq(|members|, (i: nat) requires i < |members| => "\"" + members[i].key + "\"" + colon + ValueText(c, members[i].value, st))
  }

  lemma {:induction false} ArrayBodyIs(c: DoubleCodec, items: seq<Json>, st: Style)
    requires items != []
    ensures ArrayBody(c, items, st) ==
            st.Lead() + (Separated(Texts(c, items, st.Child()), "," + st.Lead()) + (st.Trail() + "]"))
    decreases |items|
  {
    hide ValueText, Style.Lead, Style.Trail, Style.Child;
    var ts := Texts(c, items, st.Child());
    if |items| > 1 {
      ArrayBodyIs(c, items[1..], st);
      assert Texts(c, items[1..], st.Child()) == ts[1..];
      Regroup(st.Lead(), ts[0], ",", Separated(ts[1..], "," + st.Lead()), st.Trail() + "]");
    }
  }

  /** a x , (a r t) is a ((x (, a) r) t) */
  lemma Regroup(a: string, x: string, comma: string, r: string, t: string)
    ensures a + x + (comma + (a + (r + t))) == a + ((x + (comma + a) + r) + t)
  {
  }

  lemma {:induction false} ObjectBodyIs(c: DoubleCodec, members: seq<Member>, st: Style)
    requires members != []
    ensures ObjectBody(c, members, st) ==
            st.Lead() + (Separated(MemberTexts(c, members, st.Colon(), st.Child()), "," + st.Lead()) + (st.Trail() + "}"))
    decreases |members|
  {
    hide ValueText, Style.Lead, Style.Trail, Style.Child, Style.Colon;
    var ts := MemberTexts(c, members, st.Colon(), st.Child());
    FirstMember(st.Lead(), members[0].key, st.Colon(), ValueText(c, members[0].value, st.Child()));
    if |members| > 1 {
      ObjectBodyIs(c, members[1..], st);
      assert MemberTexts(c, members[1..], st.Colon(), st.Child()) == ts[1..];
      Regroup(st.Lead(), ts[0], ",", Separated(ts[1..], "," + st.Lead()), st.Trail() + "}");
    } else {
      assert st.Lead() + ts[0] + (st.Trail() + "}") == st.Lead() + (ts[0] + (st.Trail() + "}"));
    }
  }

  lemma FirstMember(lead: string, key: string, colon: string, v: string)
    ensures lead + "\"" + key + "\"" + colon + v == lead + ("\"" + key + "\"" + colon + v)
  {
  }

  lemma PrettyParts(base: nat, d: nat)
    ensures var st := Pretty(base, d);
            st.Lead() == Line(base, d + 1) && st.Trail() == Line(base, d) && st.Colon() == ": " && st.Child() == Pretty(base, d + 1)
  {
    assert (d + 1) * base - base == d * base;
  }

  /** Every element stands on a line of its own, one step further in than the brackets; an empty array is "[]". */
  lemma ArrayLines(c: DoubleCodec, items: seq<Json>, base: nat, d: nat)
    requires items != []
    ensures ValueText(c, Arr(items), Pretty(base, d)) ==
            "[" + Line(base, d + 1) + Separated(Texts(c, items, Pretty(base, d + 1)), "," + Line(base, d + 1)) + Line(base, d) + "]"
    ensures ValueText(c, Arr([]), Pretty(base, d)) == "[]"
  {
    hide ArrayBody, Separated, Texts, Line, Pretty;
    ArrayBodyIs(c, items, Pretty(base, d));
    PrettyParts(base, d);
    Flat("[", Line(base, d + 1), Separated(Texts(c, items, Pretty(base, d + 1)), "," + Line(base, d + 1)), Line(base, d), "]");
  }

  lemma Flat(a: string, b: string, x: string, e: string, f: string)
    ensures a + (b + (x + (e + f))) == a + b + x + e + f
  {
  }

  lemma ObjectLines(c: DoubleCodec, members: seq<Member>, base: nat, d: nat)
    requires members != []
    ensures ValueText(c, Obj(members), Pretty(base, d)) ==
            "{" + Line(base, d + 1) + Separated(MemberTexts(c, members, ": ", Pretty(base, d + 1)), "," + Line(base, d + 1)) + Line(base, d) + "}"
    ensures ValueText(c, Obj([]), Pretty(base, d)) == "{}"
  {
    hide ObjectBody, Separated, MemberTexts, Line, Pretty;
    ObjectBodyIs(c, members, Pretty(base, d));
    PrettyParts(base, d);
    Flat("{", Line(base, d + 1), Separated(MemberTexts(c, members, ": ", Pretty(base, d + 1)), "," + Line(base, d + 1)), Line(base, d), "}");
  }

  /** The compact text has nothing but the tokens. */
  lemma CompactIsTight(c: DoubleCodec, items: seq<Json>, members: seq<Member>)
    ensures ValueText(c, Arr(items), Compact) == "[" + Separated(Texts(c, items, Compact), ",") + "]"
    ensures ValueText(c, Obj(members), Compact) == "{" + Separated(MemberTexts(c, members, ":", Compact), ",") + "}"
  {
    hide ArrayBody, ObjectBody, Texts, MemberTexts;
    assert "," + "" == ",";
    if items != [] {
      ArrayBodyIs(c, items, Compact);
      Tight("[", Separated(Texts(c, items, Compact), ","), "]");
    }
    if members != [] {
      ObjectBodyIs(c, members, Compact);
      Tight("{", Separated(MemberTexts(c, members, ":", Compact), ","), "}");
    }
  }

  lemma Tight(a: string, x: string, e: string)
    ensures a + ("" + (x + ("" + e))) == a + x + e
  {
  }
}
