/** path::clean (src/path.cc): lexical normalisation of a slash-separated path. */
module Path {

  /** The elements between the slashes; one more than there are slashes. */
  function Elements(s: string): (es: seq<string>)
    ensures es != []
  {
    if s == "" then [""]
    else if s[0] == '/' then [""] + Elements(s[1..])
    else
      var es := Elements(s[1..]);
      [[s[0]] + es[0]] + es[1..]
  }

  /** The elements are what stands between the slashes. */
  lemma {:induction false} ElementsJoin(s: string)
    ensures Join(Elements(s)) == s
    ensures forall k :: 0 <= k < |Elements(s)| ==> '/' !in Elements(s)[k]
  {
    hide Join;
    NoSlashInside(s);
    if s == "" {
      JoinOne("");
    } else {
      ElementsJoin(s[1..]);
      if s[0] == '/' {
        JoinFront("", Elements(s[1..]));
        assert s == "" + "/" + s[1..];
      } else {
        JoinLonger(s[0], Elements(s[1..]));
        assert s == [s[0]] + s[1..];
      }
    }
  }

  lemma JoinOne(e: string)
    ensures Join([e]) == e
  {
  }

  lemma JoinLonger(c: char, es: seq<string>)
    requires es != []
    ensures Join([[c] + es[0]] + es[1..]) == [c] + Join(es)
  {
    hide Join;
    var e, rest := es[0], es[1..];
    assert es == [e] + rest;
    if rest == [] {
      JoinOne(e);
      JoinOne([c] + e);
      assert [[c] + e] + rest == [[c] + e] && [e] + rest == [e];
    } else {
      JoinFront(e, rest);
      JoinFront([c] + e, rest);
      assert [c] + e + "/" + Join(rest) == [c] + (e + "/" + Join(rest));
    }
  }

  lemma {:induction false} JoinFront(e: string, es: seq<string>)
    requires es != []
    ensures Join([e] + es) == e + "/" + Join(es)
    decreases |es|
  {
    hide Join;
    var h, l := es[..|es| - 1], es[|es| - 1];
    assert es == h + [l] && [e] + es == ([e] + h) + [l];
    JoinPush([e] + h, l);
    JoinPush(h, l);
    if h != [] {
      JoinFront(e, h);
      assert e + "/" + Join(h) + "/" + l == e + "/" + (Join(h) + "/" + l);
    } else {
      assert [e] + h == [e];
      JoinOne(e);
    }
  }

  /** One element on the stack of those seen so far. */
  function Push(rooted: bool, st: seq<string>, e: string): seq<string> {
    if e == "" || e == "." then st
    else if e != ".." then st + [e]
    else if st != [] && st[|st| - 1] != ".." then st[..|st| - 1]
    else if rooted then st
    else st + [".."]
  }

  function PushAll(rooted: bool, st: seq<string>, es: seq<string>): seq<string>
    decreases |es|
  {
    if es == [] then st else PushAll(rooted, Push(rooted, st, es[0]), es[1..])
  }

  function Join(st: seq<string>): string {
    if st == [] then ""
    else if |st| == 1 then st[0]
    else Join(st[..|st| - 1]) + "/" + st[|st| - 1]
  }

  /** The text of a stack behind its root. */
  function Body(rooted: bool, st: seq<string>): string {
    (if rooted then "/" else "") + Join(st)
  }

  function Rooted(s: string): bool {
    s != "" && s[0] == '/'
  }

  function Normal(s: string): seq<string> {
    PushAll(Rooted(s), [], Elements(s))
  }

  function Clean(s: string): string {
    var b := Body(Rooted(s), Normal(s));
    if b == "" then "." else b
  }

  predicate IsName(e: string) {
    e != "" && e != "." && e != ".." && '/' !in e
  }

  /** u leading ".." elements, none below a root, and names behind them. */
  ghost predicate Shape(rooted: bool, st: seq<string>, u: nat) {
    && u <= |st| && (rooted ==> u == 0)
    && (forall k :: 0 <= k < u ==> st[k] == "..")
    && (forall k :: u <= k < |st| ==> IsName(st[k]))
  }

  function Ups(rooted: bool, st: seq<string>, u: nat, e: string): nat {
    if e == ".." && !rooted && (st == [] || st[|st| - 1] == "..") then u + 1 else u
  }

  lemma PushShape(rooted: bool, st: seq<string>, u: nat, e: string)
    requires Shape(rooted, st, u) && '/' !in e
    ensures u <= |st| && Shape(rooted, Push(rooted, st, e), Ups(rooted, st, u, e))
  {
  }

  lemma {:induction false} NoSlashInside(s: string)
    ensures forall k :: 0 <= k < |Elements(s)| ==> '/' !in Elements(s)[k]
  {
    if s != "" {
      NoSlashInside(s[1..]);
    }
  }

  lemma {:induction false} PushAllShape(rooted: bool, st: seq<string>, u: nat, es: seq<string>)
    requires Shape(rooted, st, u) && forall k :: 0 <= k < |es| ==> '/' !in es[k]
    ensures exists v :: Shape(rooted, PushAll(rooted, st, es), v)
    decreases es
  {
    if es != [] {
      PushShape(rooted, st, u, es[0]);
      var st2 := Push(rooted, st, es[0]);
      PushAllShape(rooted, st2, Ups(rooted, st, u, es[0]), es[1..]);
      var v :| Shape(rooted, PushAll(rooted, st2, es[1..]), v);
      assert Shape(rooted, PushAll(rooted, st, es), v);
    } else {
      assert Shape(rooted, PushAll(rooted, st, es), u);
    }
  }

  lemma {:induction false} PushAllConcat(rooted: bool, st: seq<string>, a: seq<string>, b: seq<string>)
    ensures PushAll(rooted, st, a + b) == PushAll(rooted, PushAll(rooted, st, a), b)
    decreases a
  {
    if a == [] {
      assert a + b == b;
    } else {
      assert (a + b)[1..] == a[1..] + b;
      PushAllConcat(rooted, Push(rooted, st, a[0]), a[1..], b);
    }
  }

  /** An element at the front of the text. */
  lemma {:induction false} ElementsFront(e: string, rest: string)
    requires '/' !in e && (rest == "" || rest[0] == '/')
    ensures Elements(e + rest) == [e] + Elements(rest)[1..] && Elements(rest)[0] == ""
  {
    if e == "" {
      assert e + rest == rest;
    } else {
      assert (e + rest)[1..] == e[1..] + rest && e == [e[0]] + e[1..];
      ElementsFront(e[1..], rest);
    }
  }

  /** Consuming an element leaves the same work as the slash that follows it. */
  lemma Consume(rooted: bool, st: seq<string>, e: string, rest: string)
    requires '/' !in e && (rest == "" || rest[0] == '/')
    ensures PushAll(rooted, st, Elements(e + rest)) == PushAll(rooted, Push(rooted, st, e), Elements(rest))
  {
    ElementsFront(e, rest);
    assert ([e] + Elements(rest)[1..])[1..] == Elements(rest)[1..];
  }

  lemma ConsumeSlash(rooted: bool, st: seq<string>, rest: string)
    ensures PushAll(rooted, st, Elements("/" + rest)) == PushAll(rooted, st, Elements(rest))
  {
    assert ("/" + rest)[1..] == rest;
    assert ([""] + Elements(rest))[1..] == Elements(rest);
  }

  // ----- the text of a stack -----

  lemma JoinPush(st: seq<string>, e: string)
    ensures Join(st + [e]) == if st == [] then e else Join(st) + "/" + e
  {
    assert (st + [e])[..|st|] == st;
  }

  lemma {:induction false} JoinNonEmpty(st: seq<string>)
    requires st != [] && forall k :: 0 <= k < |st| ==> st[k] != ""
    ensures Join(st) != ""
  {
    if |st| > 1 {
      JoinNonEmpty(st[..|st| - 1]);
    }
  }

  lemma ShapeNonEmpty(rooted: bool, st: seq<string>, u: nat)
    requires Shape(rooted, st, u)
    ensures forall k :: 0 <= k < |st| ==> st[k] != ""
    ensures Join(st) == "" <==> st == []
  {
    if st != [] {
      JoinNonEmpty(st);
    }
  }

  lemma JoinOfNothing()
    ensures Join([]) == ""
  {
  }

  lemma BodyPush(rooted: bool, st: seq<string>, e: string)
    ensures Body(rooted, st + [e]) == Body(rooted, st) + (if st == [] then "" else "/") + e
  {
    hide Join;
    JoinOfNothing();
    JoinPush(st, e);
  }

  lemma ShapeFront(rooted: bool, st: seq<string>, u: nat)
    requires Shape(rooted, st, u) && |st| > u
    ensures var h := st[..|st| - 1]; Shape(rooted, h, u) && h[..u] == st[..u] && st == h + [st[|st| - 1]]
    ensures IsName(st[|st| - 1])
  {
    hide IsName;
  }

  /** The text of the stack is longer than that of its ".." prefix exactly when a name is left. */
  lemma {:induction false} LongerThanUps(rooted: bool, st: seq<string>, u: nat)
    requires Shape(rooted, st, u)
    ensures |Body(rooted, st[..u])| <= |Body(rooted, st)|
    ensures |Body(rooted, st)| > |Body(rooted, st[..u])| <==> |st| > u
    decreases |st|
  {
    hide Body, Shape;
    ShapeSize(rooted, st, u);
    if |st| > u {
      ShapeFront(rooted, st, u);
      var h := st[..|st| - 1];
      LongerThanUps(rooted, h, u);
      BodyPush(rooted, h, st[|st| - 1]);
    } else {
      assert st[..u] == st;
    }
  }

  lemma ShapeSize(rooted: bool, st: seq<string>, u: nat)
    requires Shape(rooted, st, u)
    ensures u <= |st|
  {
  }

  /** The text ends with its last element, behind a slash unless nothing stands before it. */
  lemma LastElement(rooted: bool, st: seq<string>, u: nat)
    requires Shape(rooted, st, u) && st != []
    ensures var h, e := st[..|st| - 1], st[|st| - 1];
            Body(rooted, st) == Body(rooted, h) + (if h == [] then "" else "/") + e
  {
    var h, e := st[..|st| - 1], st[|st| - 1];
    assert st == h + [e];
    JoinPush(h, e);
  }

  /** A text whose last element is e: where its last slash is. */
  lemma LastSlash(text: string, base: string, slash: string, e: string)
    requires text == base + slash + e && '/' !in e && (slash == "" || slash == "/")
    ensures forall k :: |base| + |slash| <= k < |text| ==> text[k] != '/'
    ensures slash == "/" ==> text[|base|] == '/'
    ensures text[..|base|] == base
  {
    forall k | |base| + |slash| <= k < |text| ensures text[k] != '/' {
      assert text[k] == e[k - |base| - |slash|] && e[k - |base| - |slash|] in e;
    }
  }

  /** Back to the last slash, or to the place where ".." must stop. */
  method Backtrack(buf: array<char>, p: nat, dotdot: nat, ghost rooted: bool, ghost st: seq<string>, ghost u: nat)
    returns (q: nat)
    requires p <= buf.Length && Shape(rooted, st, u) && u < |st|
    requires buf[..p] == Body(rooted, st) && dotdot == |Body(rooted, st[..u])| < p
    ensures q < p && buf[..q] == Body(rooted, st[..|st| - 1])
  {
    hide Shape, Join, Body;
    ghost var h, e := st[..|st| - 1], st[|st| - 1];
    ghost var base, text := Body(rooted, h), buf[..p];
    LastElement(rooted, st, u);
    ShapeFront(rooted, st, u);
    LongerThanUps(rooted, h, u);
    LastSlash(text, base, if h == [] then "" else "/", e);
    ShapeSize(rooted, h, u);
    q := p - 1;
    while q > dotdot && buf[q] != '/'
      invariant dotdot <= |base| <= q < p
    {
      assert text[q] == buf[q];
      q := q - 1;
    }
    assert text[q] == buf[q] && buf[..q] == text[..q];
  }

  method PutChar(buf: array<char>, p: nat, c: char)
    requires p < buf.Length
    modifies buf
    ensures buf[..p + 1] == old(buf[..p]) + [c]
  {
    buf[p] := c;
  }

  lemma OneMore(start: string, s: string, i0: nat, i: nat)
    requires i0 <= i < |s|
    ensures start + s[i0..i + 1] == start + s[i0..i] + [s[i]]
  {
    assert s[i0..i + 1] == s[i0..i] + [s[i]];
  }

  /** Copies the characters up to the next slash. */
  method CopyName(s: string, buf: array<char>, p0: nat, i0: nat) returns (p: nat, i: nat)
    requires |s| == buf.Length && p0 <= i0 <= |s|
    modifies buf
    ensures i0 <= i <= |s| && (i == |s| || s[i] == '/') && p - p0 == i - i0
    ensures buf[..p] == old(buf[..p0]) + s[i0..i]
    ensures forall k :: i0 <= k < i ==> s[k] != '/'
  {
    p, i := p0, i0;
    ghost var start := buf[..p0];
    assert start + s[i0..i0] == start;
    while i < |s| && s[i] != '/'
      invariant i0 <= i <= |s| && p - p0 == i - i0
      invariant buf[..p] == start + s[i0..i]
      invariant forall k :: i0 <= k < i ==> s[k] != '/'
    {
      OneMore(start, s, i0, i);
      PutChar(buf, p, s[i]);
      p := p + 1;
      i := i + 1;
    }
  }

  /** A real element: a slash if something stands before it, then its characters. */
  method CopyElement(s: string, buf: array<char>, p0: nat, i0: nat, rooted: bool, ghost st: seq<string>, ghost u: nat)
    returns (p: nat, i: nat, ghost e: string)
    requires |s| == buf.Length && p0 <= i0 < |s| && s[i0] != '/'
    requires !(s[i0] == '.' && (i0 + 1 == |s| || s[i0 + 1] == '/'))
    requires !(s[i0] == '.' && i0 + 1 < |s| && s[i0 + 1] == '.' && (i0 + 2 == |s| || s[i0 + 2] == '/'))
    requires Shape(rooted, st, u) && buf[..p0] == Body(rooted, st) && (st != [] ==> p0 < i0)
    modifies buf
    ensures p <= i && i0 < i <= |s| && (i == |s| || s[i] == '/')
    ensures IsName(e) && buf[..p] == Body(rooted, st + [e])
    ensures PushAll(rooted, st + [e], Elements(s[i..])) == PushAll(rooted, st, Elements(s[i0..]))
  {
    hide Join, PushAll, Elements, Shape, IsName, Push;
    p := SlashIfNeeded(buf, p0, rooted, st, u);
    p, i := CopyName(s, buf, p, i0);
    e := s[i0..i];
    NameAt(s, i0, i);
    BodyPush(rooted, st, e);
    assert s[i0..] == e + s[i..];
    Consume(rooted, st, e, s[i..]);
    NameIsPushed(rooted, st, e);
  }

  /** The separator in front of a real element. */
  method SlashIfNeeded(buf: array<char>, p0: nat, rooted: bool, ghost st: seq<string>, ghost u: nat) returns (p: nat)
    requires Shape(rooted, st, u) && p0 + (if st == [] then 0 else 1) <= buf.Length && buf[..p0] == Body(rooted, st)
    modifies buf
    ensures p == p0 + if st == [] then 0 else 1
    ensures buf[..p] == Body(rooted, st) + if st == [] then "" else "/"
  {
    hide Join, Shape;
    JoinOfNothing();
    ShapeNonEmpty(rooted, st, u);
    p := p0;
    if (rooted && p != 1) || (!rooted && p != 0) {
      PutChar(buf, p, '/');
      p := p + 1;
    }
  }

  lemma NameIsPushed(rooted: bool, st: seq<string>, e: string)
    requires IsName(e)
    ensures Push(rooted, st, e) == st + [e] && '/' !in e && e != ""
  {
  }

  /** A ".." that cannot be undone. */
  method AppendUp(buf: array<char>, p0: nat, ghost st: seq<string>, ghost u: nat) returns (p: nat)
    requires p0 + 2 + (if st == [] then 0 else 1) <= buf.Length
    requires Shape(false, st, u) && buf[..p0] == Body(false, st)
    modifies buf
    ensures p == p0 + 2 + (if st == [] then 0 else 1) && buf[..p] == Body(false, st + [".."])
  {
    hide Join;
    JoinOfNothing();
    JoinPush(st, "..");
    ShapeNonEmpty(false, st, u);
    p := p0;
    if p > 0 {
      PutChar(buf, p, '/');
      p := p + 1;
    }
    ghost var front := buf[..p];
    assert front == Body(false, st) + if st == [] then "" else "/";
    PutChar(buf, p, '.');
    PutChar(buf, p + 1, '.');
    p := p + 2;
    assert buf[..p] == front + "..";
  }

  lemma NameAt(s: string, i: nat, j: nat)
    requires i < j <= |s| && (j == |s| || s[j] == '/')
    requires forall k :: i <= k < j ==> s[k] != '/'
    requires !(s[i] == '.' && (i + 1 == |s| || s[i + 1] == '/'))
    requires !(s[i] == '.' && i + 1 < |s| && s[i + 1] == '.' && (i + 2 == |s| || s[i + 2] == '/'))
    ensures IsName(s[i..j])
  {
    var e := s[i..j];
    assert e[0] == s[i];
    if |e| == 2 {
      assert e[1] == s[i + 1];
    }
  }

  /** The ".." branch: back over the last name, or one more ".." where there is none. */
  method Up(buf: array<char>, p0: nat, dotdot0: nat, rooted: bool, ghost st0: seq<string>, ghost u0: nat)
    returns (p: nat, dotdot: nat, ghost st: seq<string>, ghost u: nat)
    requires p0 + 2 + (if st0 == [] then 0 else 1) <= buf.Length
    requires Shape(rooted, st0, u0) && buf[..p0] == Body(rooted, st0) && dotdot0 == |Body(rooted, st0[..u0])|
    modifies buf
    ensures p <= p0 + 2 + (if st0 == [] then 0 else 1) && p <= buf.Length
    ensures u <= |st| && st == Push(rooted, st0, "..") && Shape(rooted, st, u)
    ensures buf[..p] == Body(rooted, st) && dotdot == |Body(rooted, st[..u])|
  {
    hide Join;
    PushShape(rooted, st0, u0, "..");
    LongerThanUps(rooted, st0, u0);
    p, dotdot, st, u := p0, dotdot0, st0, u0;
    if p > dotdot {
      p := Backtrack(buf, p, dotdot, rooted, st, u);
      assert st[..|st| - 1][..u] == st[..u];
      st := st[..|st| - 1];
    } else if !rooted {
      assert st[..u] == st;
      p := AppendUp(buf, p, st, u);
      dotdot := p;
      st, u := st + [".."], u + 1;
      assert st[..u] == st;
    }
  }

  lemma CleanEmpty()
    ensures Clean("") == "."
  {
    assert Elements("")[1..] == [];
    assert PushAll(false, [], [""]) == PushAll(false, [], [""][1..]);
  }

  lemma EmptyShape(rooted: bool)
    ensures Shape(rooted, [], 0)
  {
  }

  lemma NormalFrom(s: string)
    ensures Rooted(s) ==> s[0..] == "/" + s[1..] && Normal(s) == PushAll(true, [], Elements(s[1..]))
    ensures !Rooted(s) ==> Normal(s) == PushAll(false, [], Elements(s[0..]))
  {
    assert s[0..] == s;
    if Rooted(s) {
      assert s == "/" + s[1..];
      ConsumeSlash(true, [], s[1..]);
    }
  }

  /** A slash or a "." element leaves the stack. */
  lemma SkipElement(rooted: bool, st: seq<string>, s: string, i: nat)
    requires i < |s| && (s[i] == '/' || (s[i] == '.' && (i + 1 == |s| || s[i + 1] == '/')))
    ensures PushAll(rooted, st, Elements(s[i + 1..])) == PushAll(rooted, st, Elements(s[i..]))
  {
    hide PushAll, Elements;
    if s[i] == '/' {
      assert s[i..] == "/" + s[i + 1..];
      ConsumeSlash(rooted, st, s[i + 1..]);
    } else {
      assert s[i..] == "." + s[i + 1..];
      Consume(rooted, st, ".", s[i + 1..]);
    }
  }

  lemma UpElement(rooted: bool, st: seq<string>, s: string, i: nat)
    requires i + 1 < |s| && s[i] == '.' && s[i + 1] == '.' && (i + 2 == |s| || s[i + 2] == '/')
    ensures PushAll(rooted, Push(rooted, st, ".."), Elements(s[i + 2..])) == PushAll(rooted, st, Elements(s[i..]))
  {
    hide PushAll, Elements;
    assert s[i..] == ".." + s[i + 2..];
    Consume(rooted, st, "..", s[i + 2..]);
  }

  /** The loop of clean has read s[..i]: `out` is the text of the stack st, dotdot that of its ".." prefix. */
  ghost predicate Progress(s: string, out: string, i: nat, dotdot: nat, rooted: bool, st: seq<string>, u: nat) {
    && |out| <= i <= |s| && u <= |st| && Shape(rooted, st, u)
    && out == Body(rooted, st) && dotdot == |Body(rooted, st[..u])|
    && PushAll(rooted, st, Elements(s[i..])) == Normal(s)
    && (st != [] && i < |s| && s[i] != '/' ==> |out| < i)
    && (i == |s| || s[i] == '/' || i == 0 || s[i - 1] == '/')
  }

  lemma SkipTurn(s: string, out: string, i: nat, dotdot: nat, rooted: bool, st: seq<string>, u: nat)
    requires Progress(s, out, i, dotdot, rooted, st, u)
    requires i < |s| && (s[i] == '/' || (s[i] == '.' && (i + 1 == |s| || s[i + 1] == '/')))
    ensures Progress(s, out, i + 1, dotdot, rooted, st, u)
  {
    hide PushAll, Elements, Body, Normal, Shape;
    SkipElement(rooted, st, s, i);
  }

  method UpTurn(s: string, buf: array<char>, p0: nat, i: nat, dotdot0: nat, rooted: bool, ghost st0: seq<string>, ghost u0: nat)
    returns (p: nat, dotdot: nat, ghost st: seq<string>, ghost u: nat)
    requires |s| == buf.Length && p0 <= |s| && Progress(s, buf[..p0], i, dotdot0, rooted, st0, u0)
    requires i + 1 < |s| && s[i] == '.' && s[i + 1] == '.' && (i + 2 == |s| || s[i + 2] == '/')
    modifies buf
    ensures p <= |s| && Progress(s, buf[..p], i + 2, dotdot, rooted, st, u)
  {
    hide PushAll, Elements, Body, Normal, Shape, Push;
    UpElement(rooted, st0, s, i);
    p, dotdot, st, u := Up(buf, p0, dotdot0, rooted, st0, u0);
  }

  method NameTurn(s: string, buf: array<char>, p0: nat, i0: nat, dotdot: nat, rooted: bool, ghost st0: seq<string>, ghost u: nat)
    returns (p: nat, i: nat, ghost st: seq<string>)
    requires |s| == buf.Length && p0 <= |s| && Progress(s, buf[..p0], i0, dotdot, rooted, st0, u)
    requires i0 < |s| && s[i0] != '/' && !(s[i0] == '.' && (i0 + 1 == |s| || s[i0 + 1] == '/'))
    requires !(s[i0] == '.' && i0 + 1 < |s| && s[i0 + 1] == '.' && (i0 + 2 == |s| || s[i0 + 2] == '/'))
    modifies buf
    ensures i0 < i && p <= |s| && Progress(s, buf[..p], i, dotdot, rooted, st, u)
  {
    hide PushAll, Elements, Body, Normal;
    ghost var e;
    p, i, e := CopyElement(s, buf, p0, i0, rooted, st0, u);
    PushName(rooted, st0, u, e);
    st := st0 + [e];
  }

  lemma PushName(rooted: bool, st: seq<string>, u: nat, e: string)
    requires Shape(rooted, st, u) && IsName(e)
    ensures u <= |st| && Shape(rooted, st + [e], u) && (st + [e])[..u] == st[..u]
  {
  }

  lemma StartTurn(s: string, rooted: bool)
    requires s != "" && rooted == (s[0] == '/')
    ensures var p := if rooted then 1 else 0; Progress(s, s[..p], p, p, rooted, [], 0)
  {
    hide PushAll, Elements, Normal, Shape, Join;
    NormalFrom(s);
    EmptyShape(rooted);
    JoinOfNothing();
    assert "/" + "" == "/" && "" + "" == "";
    if rooted {
      assert s[..1] == "/";
    }
  }

  lemma EndTurn(s: string, out: string, dotdot: nat, rooted: bool, st: seq<string>, u: nat)
    requires s != "" && rooted == (s[0] == '/') && Progress(s, out, |s|, dotdot, rooted, st, u)
    ensures Clean(s) == if out == "" then "." else out
  {
    hide PushAll, Elements, Body, Normal, Shape;
    assert s[|s|..] == "";
    PushNothing(rooted, st);
  }

  method CleanInPlace(s: string) returns (r: string)
    ensures r == Clean(s)
    ensures s != "" ==> |r| <= |s|
  {
    hide Progress, Clean;
    if |s| == 0 {
      CleanEmpty();
      return ".";
    }
    var n := |s|;
    var buf := new char[n](i requires 0 <= i < n => s[i]);
    assert buf[..] == s;
    var rooted := s[0] == '/';
    var p := if rooted then 1 else 0;
    var dotdot := if rooted then 1 else 0;
    var i := p;
    ghost var st: seq<string>, u: nat := [], 0;
    StartTurn(s, rooted);
    assert buf[..p] == s[..p];
    while i < n
      invariant 0 <= i <= n && 0 <= p <= n == buf.Length && dotdot >= 0
      invariant Progress(s, buf[..p], i, dotdot, rooted, st, u)
      decreases n - i
    {
      if s[i] == '/' || (s[i] == '.' && (i + 1 == n || s[i + 1] == '/')) {
        SkipTurn(s, buf[..p], i, dotdot, rooted, st, u);
        i := i + 1;
      } else if s[i] == '.' && s[i + 1] == '.' && (i + 2 == n || s[i + 2] == '/') {
        p, dotdot, st, u := UpTurn(s, buf, p, i, dotdot, rooted, st, u);
        i := i + 2;
      } else {
        p, i, st := NameTurn(s, buf, p, i, dotdot, rooted, st, u);
        InRange(s, buf[..p], i, dotdot, rooted, st, u);
      }
    }
    EndTurn(s, buf[..p], dotdot, rooted, st, u);
    r := if p == 0 then "." else buf[..p];
  }

  lemma InRange(s: string, out: string, i: nat, dotdot: nat, rooted: bool, st: seq<string>, u: nat)
    requires Progress(s, out, i, dotdot, rooted, st, u)
    ensures |out| <= i <= |s|
  {
  }

  // ----- what the cleaned path is good for -----

  lemma SlashElements(rest: string)
    ensures Elements("/" + rest)[1..] == Elements(rest)
  {
    assert ("/" + rest)[1..] == rest;
    assert ([""] + Elements(rest))[1..] == Elements(rest);
  }

  lemma {:induction false} JoinSlashes(st: seq<string>, rest: string)
    requires st != [] && (rest == "" || rest[0] == '/')
    requires forall k :: 0 <= k < |st| ==> '/' !in st[k]
    ensures Elements(Join(st) + rest) == st + Elements(rest)[1..]
    decreases |st|
  {
    hide Elements, Join;
    var h, e := st[..|st| - 1], st[|st| - 1];
    if h == [] {
      ElementsFront(e, rest);
      assert st == [] + [e];
      JoinPush([], e);
    } else {
      var tail := "/" + e + rest;
      assert st == h + [e];
      JoinPush(h, e);
      assert Join(h) + "/" + e + rest == Join(h) + tail;
      JoinSlashes(h, tail);
      assert tail == "/" + (e + rest);
      SlashElements(e + rest);
      ElementsFront(e, rest);
      assert h + ([e] + Elements(rest)[1..]) == st + Elements(rest)[1..];
    }
  }

  lemma PushOne(rooted: bool, st: seq<string>, e: string)
    ensures PushAll(rooted, st, [e]) == Push(rooted, st, e)
  {
    assert [e][1..] == [];
  }

  /** The last element of a stack in normal form goes back onto the others. */
  lemma PushLast(rooted: bool, st: seq<string>, u: nat)
    requires Shape(rooted, st, u) && st != []
    ensures var h := st[..|st| - 1];
            Shape(rooted, h, if u <= |h| then u else |h|) && Push(rooted, h, st[|st| - 1]) == st && st == h + [st[|st| - 1]]
  {
  }

  /** Pushing a stack in normal form rebuilds it. */
  lemma {:induction false} PushAllRebuilds(rooted: bool, st: seq<string>, u: nat)
    requires Shape(rooted, st, u)
    ensures PushAll(rooted, [], st) == st
    decreases |st|
  {
    if st != [] {
      hide PushAll, Push, Shape;
      var h, e := st[..|st| - 1], st[|st| - 1];
      PushLast(rooted, st, u);
      PushAllRebuilds(rooted, h, if u <= |h| then u else |h|);
      PushAllConcat(rooted, [], h, [e]);
      PushOne(rooted, h, e);
    }
  }

  lemma NormalShape(s: string) returns (u: nat)
    ensures Shape(Rooted(s), Normal(s), u)
  {
    NoSlashInside(s);
    PushAllShape(Rooted(s), [], 0, Elements(s));
    u :| Shape(Rooted(s), Normal(s), u);
  }

  lemma NoSlashInStack(rooted: bool, st: seq<string>, u: nat)
    requires Shape(rooted, st, u)
    ensures forall k :: 0 <= k < |st| ==> '/' !in st[k] && st[k] != ""
  {
  }

  /** The elements of the cleaned path, followed by nothing or by a slash and more. */
  lemma CleanElements(s: string, rest: string)
    requires rest == "" || rest[0] == '/'
    ensures Rooted(Clean(s) + rest) == Rooted(s)
    ensures PushAll(Rooted(s), [], Elements(Clean(s) + rest)) == PushAll(Rooted(s), Normal(s), Elements(rest))
  {
    hide PushAll, Elements, Join, Normal, Shape;
    var rooted, st := Rooted(s), Normal(s);
    var u := NormalShape(s);
    ShapeNonEmpty(rooted, st, u);
    if st == [] {
      JoinOfNothing();
      assert Clean(s) == if rooted then "/" else ".";
      NothingElements(rooted, rest);
    } else {
      StackElements(rooted, st, u, rest);
      if rooted {
        assert Clean(s) + rest == "/" + (Join(st) + rest);
        ConsumeSlash(rooted, [], Join(st) + rest);
      } else {
        JoinStart(st);
        assert Clean(s) + rest == Join(st) + rest;
      }
    }
  }

  /** The same where nothing is left of a path. */
  lemma NothingElements(rooted: bool, rest: string)
    requires rest == "" || rest[0] == '/'
    ensures PushAll(rooted, [], Elements((if rooted then "/" else ".") + rest)) == PushAll(rooted, [], Elements(rest))
  {
    hide PushAll, Elements;
    if rooted {
      ConsumeSlash(rooted, [], rest);
    } else {
      Consume(rooted, [], ".", rest);
    }
  }

  lemma StackElements(rooted: bool, st: seq<string>, u: nat, rest: string)
    requires Shape(rooted, st, u) && st != [] && (rest == "" || rest[0] == '/')
    ensures PushAll(rooted, [], Elements(Join(st) + rest)) == PushAll(rooted, st, Elements(rest))
    ensures forall k :: 0 <= k < |st| ==> '/' !in st[k] && st[k] != ""
  {
    hide PushAll, Elements, Join;
    NoSlashInStack(rooted, st, u);
    JoinSlashes(st, rest);
    ElementsFront("", rest);
    PushAllRebuilds(rooted, st, u);
    PushAllConcat(rooted, [], st, Elements(rest)[1..]);
    PushEmpty(rooted, st, Elements(rest));
  }

  lemma PushEmpty(rooted: bool, st: seq<string>, es: seq<string>)
    requires es != [] && es[0] == ""
    ensures PushAll(rooted, st, es) == PushAll(rooted, st, es[1..])
  {
  }

  lemma {:induction false} JoinStart(st: seq<string>)
    requires st != [] && forall k :: 0 <= k < |st| ==> '/' !in st[k] && st[k] != ""
    ensures Join(st) != "" && Join(st)[0] == st[0][0] != '/'
  {
    if |st| > 1 {
      JoinStart(st[..|st| - 1]);
    } else {
      assert st[0][0] in st[0];
    }
  }

  /** Cleaning twice is cleaning once. */
  lemma Idempotent(s: string)
    ensures Clean(Clean(s)) == Clean(s)
  {
    hide Normal;
    CleanIsNormal(s);
  }

  lemma PushNothing(rooted: bool, st: seq<string>)
    ensures PushAll(rooted, st, Elements("")) == st
  {
    assert Elements("")[1..] == [];
  }

  /** The first part of a joined path may be cleaned beforehand. */
  lemma JoinCleaned(a: string, b: string)
    requires a != ""
    ensures Clean(Clean(a) + "/" + b) == Clean(a + "/" + b)
  {
    hide PushAll, Elements;
    var rest := "/" + b;
    assert Clean(a) + "/" + b == Clean(a) + rest && a + "/" + b == a + rest;
    CleanElements(a, rest);
    SplitAtSlash(a, b);
    PushAllConcat(Rooted(a), [], Elements(a), Elements(b));
    ConsumeSlash(Rooted(a), Normal(a), b);
  }

  lemma {:induction false} SplitAtSlash(a: string, b: string)
    ensures Elements(a + "/" + b) == Elements(a) + Elements(b)
    decreases |a|
  {
    var t := a + "/" + b;
    if a == "" {
      assert t[1..] == b;
    } else {
      assert t[1..] == a[1..] + "/" + b;
      SplitAtSlash(a[1..], b);
    }
  }

  // ----- where a path leads -----

  /** One step from a directory, which is the sequence of the names that lead to it from the root. */
  function Step(dir: seq<string>, e: string): seq<string> {
    if e == "" || e == "." then dir
    else if e != ".." then dir + [e]
    else if dir == [] then dir
    else dir[..|dir| - 1]
  }

  function Walk(dir: seq<string>, es: seq<string>): seq<string>
    decreases |es|
  {
    if es == [] then dir else Walk(Step(dir, es[0]), es[1..])
  }

  /** The directory that the path s leads to from dir; a rooted path starts at the root. */
  function Place(dir: seq<string>, s: string): seq<string> {
    Walk(if Rooted(s) then [] else dir, Elements(s))
  }

  lemma {:induction false} WalkConcat(dir: seq<string>, a: seq<string>, b: seq<string>)
    ensures Walk(dir, a + b) == Walk(Walk(dir, a), b)
    decreases a
  {
    if a == [] {
      assert a + b == b;
    } else {
      assert (a + b)[1..] == a[1..] + b;
      WalkConcat(Step(dir, a[0]), a[1..], b);
    }
  }

  lemma WalkSnoc(dir: seq<string>, st: seq<string>, e: string)
    ensures Walk(dir, st + [e]) == Step(Walk(dir, st), e)
  {
    WalkConcat(dir, st, [e]);
    assert [e][1..] == [];
  }

  /** From the root, no name of a stack in normal form is dropped again. */
  lemma {:induction false} WalkNames(st: seq<string>)
    requires Shape(true, st, 0)
    ensures Walk([], st) == st
    decreases |st|
  {
    if st != [] {
      var h, e := st[..|st| - 1], st[|st| - 1];
      WalkNames(h);
      WalkSnoc([], h, e);
      assert st == h + [e];
    }
  }

  /** A name with the ".." behind it leads nowhere. */
  lemma PushWalks(rooted: bool, dir: seq<string>, st: seq<string>, u: nat, e: string)
    requires Shape(rooted, st, u) && (rooted ==> dir == [])
    ensures Walk(dir, Push(rooted, st, e)) == Step(Walk(dir, st), e)
  {
    WalkSnoc(dir, st, e);
    if st != [] {
      var h, l := st[..|st| - 1], st[|st| - 1];
      assert st == h + [l];
      WalkSnoc(dir, h, l);
      if l != ".." {
        assert IsName(l) && Walk(dir, st)[..|Walk(dir, st)| - 1] == Walk(dir, h);
      }
    }
  }

  lemma {:induction false} PushAllWalks(rooted: bool, dir: seq<string>, st: seq<string>, u: nat, es: seq<string>)
    requires Shape(rooted, st, u) && (rooted ==> dir == [])
    requires forall k :: 0 <= k < |es| ==> '/' !in es[k]
    ensures Walk(dir, PushAll(rooted, st, es)) == Walk(Walk(dir, st), es)
    decreases es
  {
    hide Push, Shape;
    if es != [] {
      PushWalks(rooted, dir, st, u, es[0]);
      PushShape(rooted, st, u, es[0]);
      PushAllWalks(rooted, dir, Push(rooted, st, es[0]), Ups(rooted, st, u, es[0]), es[1..]);
    }
  }

  lemma PlaceOfNormal(dir: seq<string>, s: string)
    ensures Place(dir, s) == Walk(if Rooted(s) then [] else dir, Normal(s))
  {
    NoSlashInside(s);
    EmptyShape(Rooted(s));
    PushAllWalks(Rooted(s), if Rooted(s) then [] else dir, [], 0, Elements(s));
  }

  /** The cleaned path leads to the same place as the path, from every directory. */
  lemma SamePlace(dir: seq<string>, s: string)
    ensures Rooted(Clean(s)) == Rooted(s) && Place(dir, Clean(s)) == Place(dir, s)
  {
    hide Walk, Normal, Clean;
    PlaceOfNormal(dir, s);
    PlaceOfNormal(dir, Clean(s));
    CleanIsNormal(s);
  }

  lemma CleanIsNormal(s: string)
    ensures Rooted(Clean(s)) == Rooted(s) && Normal(Clean(s)) == Normal(s)
  {
    hide PushAll, Elements;
    CleanElements(s, "");
    assert Clean(s) + "" == Clean(s);
    PushNothing(Rooted(s), Normal(s));
  }

  /** Walking up u times from deep enough, then down. */
  lemma {:induction false} WalkShape(dir: seq<string>, st: seq<string>, u: nat)
    requires Shape(false, st, u) && u <= |dir|
    ensures u <= |st| && Walk(dir, st) == dir[..|dir| - u] + st[u..]
    decreases |st|
  {
    hide Walk, Step, Shape;
    ShapeSize(false, st, u);
    if st == [] {
      WalkNothing(dir);
      assert dir[..|dir|] + st == dir;
    } else {
      var h, l := st[..|st| - 1], st[|st| - 1];
      assert st == h + [l];
      WalkSnoc(dir, h, l);
      if u == |st| {
        OnlyUps(st);
        WalkShape(dir, h, u - 1);
        StepUp(dir, |dir| - u);
        assert h[u - 1..] == [] && st[u..] == [];
        assert dir[..|dir| - (u - 1)] + [] == dir[..|dir| - u + 1] && dir[..|dir| - u] + [] == dir[..|dir| - u];
      } else {
        ShapeFront(false, st, u);
        WalkShape(dir, h, u);
        StepName(dir[..|dir| - u] + h[u..], l);
        assert st[u..] == h[u..] + [l];
        assert dir[..|dir| - u] + h[u..] + [l] == dir[..|dir| - u] + (h[u..] + [l]);
      }
    }
  }

  lemma WalkNothing(dir: seq<string>)
    ensures Walk(dir, []) == dir
  {
  }

  lemma OnlyUps(st: seq<string>)
    requires st != [] && Shape(false, st, |st|)
    ensures st[|st| - 1] == ".." && Shape(false, st[..|st| - 1], |st| - 1)
  {
  }

  lemma StepUp(dir: seq<string>, k: nat)
    requires k < |dir|
    ensures Step(dir[..k + 1], "..") == dir[..k]
  {
  }

  lemma StepName(dir: seq<string>, e: string)
    requires IsName(e)
    ensures Step(dir, e) == dir + [e]
  {
  }

  /** Stacks in normal form that lead to the same place from everywhere are the same. */
  lemma StacksDiffer(a: seq<string>, u: nat, b: seq<string>, v: nat)
    requires Shape(false, a, u) && Shape(false, b, v) && u <= v
    requires forall dir :: Walk(dir, a) == Walk(dir, b)
    ensures a == b
  {
    hide Walk, IsName;
    ShapeSize(false, a, u);
    ShapeSize(false, b, v);
    TailsMeet("x", a, u, b, v);
    TailsMeet("y", a, u, b, v);
    assert "x"[0] != "y"[0];
    SameStack(a, b, u);
  }

  /** From a directory exactly v deep, all whose names are x. */
  lemma TailsMeet(x: string, a: seq<string>, u: nat, b: seq<string>, v: nat)
    requires Shape(false, a, u) && Shape(false, b, v) && u <= v && u <= |a| && v <= |b|
    requires forall dir :: Walk(dir, a) == Walk(dir, b)
    ensures if u < v then v < |b| && b[v] == x else a[u..] == b[v..]
  {
    hide Walk, IsName;
    var dir := seq(v, _ => x);
    WalkShape(dir, a, u);
    WalkShape(dir, b, v);
    assert dir[..0] + b[v..] == b[v..] && dir[..0] + a[u..] == a[u..];
    assert u < v ==> (dir[..v - u] + a[u..])[0] == b[v..][0];
  }

  lemma SameStack(a: seq<string>, b: seq<string>, u: nat)
    requires Shape(false, a, u) && Shape(false, b, u) && a[u..] == b[u..]
    ensures a == b
  {
    hide IsName;
    assert |a| == |b|;
    forall k | 0 <= k < |a| ensures a[k] == b[k] {
      if k >= u {
        assert a[u..][k - u] == b[u..][k - u];
      }
    }
  }

  /** Two paths are cleaned to the same one exactly if both or none are rooted and they lead to the same
      place from every directory. */
  lemma SameCleanIff(s: string, t: string)
    ensures Clean(s) == Clean(t) <==> Rooted(s) == Rooted(t) && forall dir :: Place(dir, s) == Place(dir, t)
  {
    hide Walk, Normal, Clean, Shape;
    if Clean(s) == Clean(t) {
      SamePlace([], s);
      SamePlace([], t);
      forall dir ensures Place(dir, s) == Place(dir, t) {
        SamePlace(dir, s);
        SamePlace(dir, t);
      }
    } else if Rooted(s) == Rooted(t) && forall dir :: Place(dir, s) == Place(dir, t) {
      SamePlaceSameNormal(s, t);
      CleanOfNormal(s, t);
    }
  }

  lemma CleanOfNormal(s: string, t: string)
    requires Rooted(s) == Rooted(t) && Normal(s) == Normal(t)
    ensures Clean(s) == Clean(t)
  {
  }

  lemma SamePlaceSameNormal(s: string, t: string)
    requires Rooted(s) == Rooted(t) && forall dir :: Place(dir, s) == Place(dir, t)
    ensures Normal(s) == Normal(t)
  {
    hide Walk, Normal, Place;
    var u := NormalShape(s);
    var v := NormalShape(t);
    if Rooted(s) {
      assert Place([], s) == Place([], t);
      PlaceOfNormal([], s);
      PlaceOfNormal([], t);
      WalkNames(Normal(s));
      WalkNames(Normal(t));
    } else {
      forall dir ensures Walk(dir, Normal(s)) == Walk(dir, Normal(t)) {
        assert Place(dir, s) == Place(dir, t);
        PlaceOfNormal(dir, s);
        PlaceOfNormal(dir, t);
      }
      if u <= v {
        StacksDiffer(Normal(s), u, Normal(t), v);
      } else {
        StacksDiffer(Normal(t), v, Normal(s), u);
      }
    }
  }

  function Weight(es: seq<string>): nat {
    if es == [] then 0 else Weight(es[..|es| - 1]) + |es[|es| - 1]| + 1
  }

  lemma {:induction false} JoinLength(st: seq<string>)
    requires st != []
    ensures |Join(st)| + 1 == Weight(st)
  {
    if |st| > 1 {
      JoinLength(st[..|st| - 1]);
    } else {
      assert st[..0] == [];
    }
  }

  lemma {:induction false} WeightFront(e: string, es: seq<string>)
    ensures Weight([e] + es) == |e| + 1 + Weight(es)
    decreases |es|
  {
    if es == [] {
      assert ([e] + es)[..0] == [];
    } else {
      assert ([e] + es)[..|es|] == [e] + es[..|es| - 1];
      WeightFront(e, es[..|es| - 1]);
    }
  }

  lemma {:induction false} ElementsWeight(s: string)
    ensures Weight(Elements(s)) == |s| + 1
  {
    if s == "" {
      assert [""][..0] == [];
    } else {
      ElementsWeight(s[1..]);
      var es := Elements(s[1..]);
      if s[0] == '/' {
        WeightFront("", es);
      } else {
        assert es == [es[0]] + es[1..];
        WeightFront(es[0], es[1..]);
        WeightFront([s[0]] + es[0], es[1..]);
      }
    }
  }

  lemma {:induction false} PushAllWeight(rooted: bool, st: seq<string>, es: seq<string>)
    ensures Weight(PushAll(rooted, st, es)) <= Weight(st) + Weight(es)
    decreases es
  {
    if es != [] {
      var st2 := Push(rooted, st, es[0]);
      assert es == [es[0]] + es[1..];
      WeightFront(es[0], es[1..]);
      assert (st + [es[0]])[..|st|] == st;
      PushAllWeight(rooted, st2, es[1..]);
    }
  }

  /** No path that leads to the same place is shorter than the cleaned one. */
  lemma Shortest(s: string, t: string)
    requires t != "" && Rooted(s) == Rooted(t) && forall dir :: Place(dir, s) == Place(dir, t)
    ensures |Clean(s)| <= |t|
  {
    SameCleanIff(s, t);
    ShortestOfNormal(t);
  }

  lemma ShortestOfNormal(t: string)
    requires t != ""
    ensures |Clean(t)| <= |t|
  {
    var rooted, st := Rooted(t), Normal(t);
    ElementsWeight(t);
    if st != [] {
      JoinLength(st);
      if rooted {
        assert t == "/" + t[1..];
        ElementsWeight(t[1..]);
        ConsumeSlash(rooted, [], t[1..]);
        PushAllWeight(rooted, [], Elements(t[1..]));
      } else {
        PushAllWeight(rooted, [], Elements(t));
      }
    }
  }
}
