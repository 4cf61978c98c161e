/** fastring::rfind (src/fastring.cc:68-92, include/co/fastring.h:155-159): search from the right with a shift table. */
module RFind {
  import opened Common

  predicate Occurs(s: seq<byte>, sub: seq<byte>, j: nat) {
    j + |sub| <= |s| && s[j..j + |sub|] == sub
  }

  /** r is the greatest position where sub occurs, None (npos) if there is none. */
  ghost predicate IsLast(s: seq<byte>, sub: seq<byte>, r: Option<nat>) {
    match r
    case None => forall j: nat :: !Occurs(s, sub, j)
    case Some(k) => Occurs(s, sub, k) && forall j: nat :: j > k ==> !Occurs(s, sub, j)
  }

  /** One more than the leftmost position of c in p, 0 if it is not there. */
  predicate IsShift(p: seq<byte>, c: byte, x: nat) {
    if x == 0 then c !in p else x <= |p| && p[x - 1] == c && c !in p[..x - 1]
  }

  ghost predicate IsTable(p: seq<byte>, tbl: seq<nat>) {
    |tbl| == 256 && forall c: byte :: IsShift(p, c, tbl[c])
  }

  /** The table is filled from right to left, so the leftmost position stays. */
  method FillTable(p: seq<byte>) returns (tbl: array<nat>)
    ensures fresh(tbl) && IsTable(p, tbl[..])
  {
    tbl := new nat[256](_ => 0);
    var i: nat := |p|;
    while i > 0
      invariant i <= |p|
      invariant forall c: byte :: if tbl[c] == 0 then c !in p[i..] else i < tbl[c] <= |p| && p[tbl[c] - 1] == c && c !in p[i..tbl[c] - 1]
    {
      assert p[i - 1..] == [p[i - 1]] + p[i..];
      assert forall k :: i <= k <= |p| ==> p[i - 1..k] == [p[i - 1]] + p[i..k];
      tbl[p[i - 1]] := i;
      i := i - 1;
    }
    assert p[0..] == p;
    forall c: byte ensures IsShift(p, c, tbl[c]) {
      assert tbl[c] != 0 ==> p[0..tbl[c] - 1] == p[..tbl[c] - 1];
    }
  }

  /** An occurrence d places further left would put s[j-1] at position d-1 of sub. */
  lemma Skipped(s: seq<byte>, sub: seq<byte>, j: nat, x: nat, k: nat)
    requires 0 < j && j - 1 < |s| && IsShift(sub, s[j - 1], x)
    requires k < j && k > j - if x == 0 then |sub| + 1 else x
    ensures !Occurs(s, sub, k)
  {
    var d := j - k;
    if k + |sub| <= |s| {
      assert s[k..k + |sub|][d - 1] == s[j - 1];
      assert sub[d - 1] != s[j - 1] by {
        assert x != 0 ==> sub[d - 1] == sub[..x - 1][d - 1];
      }
    }
  }

  /** What the positions above j and the skip rule out. */
  lemma NoneAbove(s: seq<byte>, sub: seq<byte>, j: nat, x: nat)
    requires 0 < j && j - 1 < |s| && IsShift(sub, s[j - 1], x) && !Occurs(s, sub, j)
    requires forall k: nat :: k > j ==> !Occurs(s, sub, k)
    ensures forall k: nat :: k > j - (if x == 0 then |sub| + 1 else x) ==> !Occurs(s, sub, k)
  {
    forall k: nat | k > j - (if x == 0 then |sub| + 1 else x) ensures !Occurs(s, sub, k) {
      if k < j {
        Skipped(s, sub, j, x, k);
      }
    }
  }

  method RFindText(s: seq<byte>, sub: seq<byte>) returns (r: Option<nat>)
    ensures IsLast(s, sub, r)
  {
    var m, n := |sub|, |s|;
    if n < m {
      return None;
    }
    var tbl := FillTable(sub);
    var j: nat := n - m;
    ghost var t := tbl[..];
    while true
      invariant j + m <= n && tbl[..] == t
      invariant forall k: nat :: k > j ==> !Occurs(s, sub, k)
      decreases j
    {
      if s[j..j + m] == sub {
        return Some(j);
      }
      if j == 0 {
        return None;
      }
      var x := tbl[s[j - 1]];
      assert x == t[s[j - 1]];
      NoneAbove(s, sub, j, x);
      if x == 0 {
        x := m + 1;
      }
      if j < x {
        return None;
      }
      j := j - x;
    }
  }

  /** The bytes up to the first NUL, as the C library sees them. */
  function CBytes(s: seq<byte>): (r: seq<byte>)
    ensures |r| <= |s| && r == s[..|r|] && 0 !in r
    ensures |r| < |s| ==> s[|r|] == 0
  {
    if s == [] || s[0] == 0 then [] else [s[0]] + CBytes(s[1..])
  }

  lemma OneChar(s: seq<byte>, c: byte, j: nat)
    ensures Occurs(s, [c], j) <==> j < |s| && s[j] == c
  {
    if j < |s| {
      assert s[j..j + 1] == [s[j]];
    }
  }

  /** strrchr looks at these only. */
  method RFindChar(s: seq<byte>, c: byte) returns (r: Option<nat>)
    requires c != 0
    ensures IsLast(CBytes(s), [c], r)
  {
    r := None;
    var i := 0;
    ghost var t := CBytes(s);
    while i < |s| && s[i] != 0
      invariant i <= |t|
      invariant r.Some? ==> r.value < i && t[r.value] == c
      invariant forall j: nat :: j < i && t[j] == c ==> r.Some? && j <= r.value
    {
      if s[i] == c {
        r := Some(i);
      }
      i := i + 1;
    }
    assert i == |t|;
    forall j: nat ensures Occurs(t, [c], j) <==> j < |t| && t[j] == c {
      OneChar(t, c, j);
    }
  }

  /** sub is a C string, so it holds no NUL. */
  method RFindSub(s: seq<byte>, sub: seq<byte>) returns (r: Option<nat>)
    requires 0 !in sub
    ensures IsLast(if |sub| == 1 then CBytes(s) else s, sub, r)
    ensures IsLast(s, sub, r) <==> |sub| != 1 || sub[0] !in s[|CBytes(s)|..]
  {
    if |sub| == 1 {
      assert sub == [sub[0]];
      r := RFindChar(s, sub[0]);
      OneCharIff(s, sub[0], r);
    } else {
      r := RFindText(s, sub);
    }
  }

  /** A search for one character is right exactly if it does not occur behind a NUL. */
  lemma OneCharIff(s: seq<byte>, c: byte, r: Option<nat>)
    requires c != 0 && IsLast(CBytes(s), [c], r)
    ensures IsLast(s, [c], r) <==> c !in s[|CBytes(s)|..]
  {
    hide Occurs;
    OneCharLast(CBytes(s), c, r);
    OneCharLast(s, c, r);
    ghost var t, u := CBytes(s), s[|CBytes(s)|..];
    SplitAt(s, |t|);
    if c in u {
      var j :| 0 <= j < |u| && u[j] == c;
      assert s[|t| + j] == c;
    }
  }

  /** An 'a' behind a NUL is not found. */
  lemma MissesBehindNul()
    ensures IsLast(CBytes([0, 97]), [97], None) && IsLast([0, 97], [97], Some(1))
  {
    OneCharLast(CBytes([0, 97]), 97, None);
    OneCharLast([0, 97], 97, Some(1));
  }

  lemma SplitAt(s: seq<byte>, k: nat)
    requires k <= |s|
    ensures forall j: nat :: j < k ==> s[..k][j] == s[j]
    ensures forall j: nat :: k <= j < |s| ==> s[j] == s[k..][j - k]
  {
  }

  /** The last occurrence of one character, on the characters themselves. */
  lemma OneCharLast(s: seq<byte>, c: byte, r: Option<nat>)
    ensures IsLast(s, [c], r) <==>
            match r
            case None => forall j: nat :: j < |s| ==> s[j] != c
            case Some(i) => i < |s| && s[i] == c && forall j: nat :: i < j < |s| ==> s[j] != c
  {
    hide Occurs;
    forall j: nat ensures Occurs(s, [c], j) <==> j < |s| && s[j] == c {
      OneChar(s, c, j);
    }
  }
}
