/**
 * LruMap of include/co/lru_map.h: a map of values, a list of keys and a map from each key to its
 * list node. It is proved against a list of keys in the order of their last use.
 */
module LruMap {
  import opened Common

  // ----- the cache as a list -----

  /** The keys, the last used first, with their values. */
  datatype Cache<K, V> = Cache(order: seq<K>, values: map<K, V>)

  predicate Distinct<K(==)>(s: seq<K>) {
    forall i, j :: 0 <= i < j < |s| ==> s[i] != s[j]
  }

  ghost predicate Sound<K(!new), V>(c: Cache<K, V>) {
    Distinct(c.order) && |c.values| == |c.order| && forall k :: k in c.order <==> k in c.values
  }

  function Without<K(==, !new)>(s: seq<K>, k: K): (r: seq<K>)
    ensures forall x :: x in r <==> x in s && x != k
    ensures Distinct(s) ==> Distinct(r) && |r| == if k in s then |s| - 1 else |s|
    ensures k !in s ==> r == s
  {
    if s == [] then []
    else if s[0] == k then (assert forall x :: x in s[1..] || x == k <==> x in s; Without(s[1..], k))
    else
      var r := Without(s[1..], k);
      assert s == [s[0]] + s[1..];
      assert Distinct(s) ==> s[0] !in r && Distinct(s[1..]);
      ConsDistinct(s[0], r);
      [s[0]] + r
  }

  lemma ConsDistinct<K>(x: K, s: seq<K>)
    ensures Distinct(s) && x !in s ==> Distinct([x] + s)
  {
  }

  /** A found key becomes the last used. */
  function Found<K(==, !new), V>(c: Cache<K, V>, k: K): Cache<K, V> {
    if k in c.values then c.(order := [k] + Without(c.order, k)) else c
  }

  /** A new key is the last used; beyond the capacity the least recently used goes. */
  function Inserted<K(==, !new), V>(c: Cache<K, V>, capacity: nat, k: K, v: V): Cache<K, V>
    requires capacity > 0
  {
    if k in c.values then c
    else if |c.values| < capacity then Cache([k] + c.order, c.values[k := v])
    else if c.order == [] then Cache([], map[])
    else Cache([k] + c.order[..|c.order| - 1], c.values[k := v] - {c.order[|c.order| - 1]})
  }

  function Erased<K(==, !new), V>(c: Cache<K, V>, k: K): Cache<K, V> {
    Cache(Without(c.order, k), c.values - {k})
  }

  // ----- the order is the order of last use -----

  datatype Operation<K, V> = Find(key: K) | Insert(key: K, value: V) | Erase(key: K) | Clear

  function Perform<K(==, !new), V>(c: Cache<K, V>, capacity: nat, op: Operation<K, V>): Cache<K, V>
    requires capacity > 0
  {
    match op
    case Find(k) => Found(c, k)
    case Insert(k, v) => Inserted(c, capacity, k, v)
    case Erase(k) => Erased(c, k)
    case Clear => Cache([], map[])
  }

  function After<K(==, !new), V>(ops: seq<Operation<K, V>>, capacity: nat): Cache<K, V>
    requires capacity > 0
    decreases |ops|
  {
    if ops == [] then Cache([], map[]) else Perform(After(ops[..|ops| - 1], capacity), capacity, ops[|ops| - 1])
  }

  /** Whether the operation is a use of k: k is found, or newly inserted. */
  predicate Uses<K(==, !new), V>(c: Cache<K, V>, op: Operation<K, V>, k: K) {
    match op
    case Find(f) => f == k && k in c.values
    case Insert(f, _) => f == k && k !in c.values
    case _ => false
  }

  /** The number of the last operation that used k, 0 if none did. */
  function LastUse<K(==, !new), V>(ops: seq<Operation<K, V>>, capacity: nat, k: K): (t: nat)
    requires capacity > 0
    ensures t <= |ops|
    decreases |ops|
  {
    if ops == [] then 0
    else if Uses(After(ops[..|ops| - 1], capacity), ops[|ops| - 1], k) then |ops|
    else LastUse(ops[..|ops| - 1], capacity, k)
  }

  /** A new key in front. */
  lemma SoundAdd<K(!new), V>(c: Cache<K, V>, k: K, v: V)
    requires Sound(c) && k !in c.values
    ensures Sound(Cache([k] + c.order, c.values[k := v]))
  {
    hide Distinct;
    assert k !in c.order;
    ConsDistinct(k, c.order);
  }

  /** Without the last key. */
  lemma SoundDropLast<K(!new), V>(c: Cache<K, V>, n: nat)
    requires Sound(c) && |c.order| == n + 1
    ensures c.order[n] in c.values && Sound(Cache(c.order[..n], c.values - {c.order[n]}))
  {
    hide Distinct;
    var last, front := c.order[n], c.order[..n];
    FrontDistinct(c.order, n);
    assert last in c.order && c.order == front + [last];
    forall x ensures x in front <==> x in c.values - {last} {
      assert x in c.order <==> x in c.values;
    }
  }

  lemma FrontDistinct<K>(s: seq<K>, n: nat)
    requires Distinct(s) && |s| == n + 1
    ensures Distinct(s[..n]) && s[n] !in s[..n]
  {
  }

  lemma SoundInsert<K(!new), V>(c: Cache<K, V>, capacity: nat, k: K, v: V)
    requires capacity > 0 && Sound(c) && |c.order| <= capacity
    ensures Sound(Inserted(c, capacity, k, v)) && |Inserted(c, capacity, k, v).order| <= capacity
  {
    hide Sound;
    SoundSize(c);
    if k !in c.values {
      SoundAdd(c, k, v);
      if |c.values| >= capacity {
        var more, n := Cache([k] + c.order, c.values[k := v]), |c.order|;
        SoundDropLast(more, n);
        assert more.order[..n] == [k] + c.order[..n - 1] && more.order[n] == c.order[n - 1];
      }
    }
  }

  lemma SoundFind<K(!new), V>(c: Cache<K, V>, k: K)
    requires Sound(c)
    ensures Sound(Found(c, k)) && |Found(c, k).order| == |c.order|
  {
    if k in c.values {
      assert k in c.order;
      ConsDistinct(k, Without(c.order, k));
    }
  }

  lemma SoundErase<K(!new), V>(c: Cache<K, V>, k: K)
    requires Sound(c)
    ensures Sound(Erased(c, k)) && |Erased(c, k).order| <= |c.order|
  {
    assert k in c.order <==> k in c.values;
    if k !in c.values {
      assert c.values - {k} == c.values;
    }
  }

  lemma SoundStep<K(!new), V>(c: Cache<K, V>, capacity: nat, op: Operation<K, V>)
    requires capacity > 0 && Sound(c) && |c.order| <= capacity
    ensures Sound(Perform(c, capacity, op)) && |Perform(c, capacity, op).order| <= capacity
  {
    hide Found, Inserted, Erased;
    match op
    case Find(k) => SoundFind(c, k);
    case Insert(k, v) => SoundInsert(c, capacity, k, v);
    case Erase(k) => SoundErase(c, k);
    case Clear =>
  }

  /** Some earlier position of x is before some later position of y. */
  ghost predicate Precedes<K>(s: seq<K>, x: K, y: K) {
    exists a, b :: 0 <= a < b < |s| && s[a] == x && s[b] == y
  }

  lemma PrecedesBehind<K>(h: K, t: seq<K>, x: K, y: K)
    requires Precedes(t, x, y)
    ensures Precedes([h] + t, x, y)
  {
    var a, b :| 0 <= a < b < |t| && t[a] == x && t[b] == y;
    assert ([h] + t)[a + 1] == x && ([h] + t)[b + 1] == y;
  }

  lemma HeadPrecedes<K>(h: K, t: seq<K>, y: K)
    requires y in t
    ensures Precedes([h] + t, h, y)
  {
    var b :| 0 <= b < |t| && t[b] == y;
    assert ([h] + t)[0] == h && ([h] + t)[b + 1] == y;
  }

  lemma WithoutStep<K(!new)>(h: K, t: seq<K>, k: K)
    requires Distinct([h] + t)
    ensures Without([h] + t, k) == if h == k then Without(t, k) else [h] + Without(t, k)
    ensures Distinct(t)
  {
    assert ([h] + t)[1..] == t;
    forall i, j | 0 <= i < j < |t| ensures t[i] != t[j] {
      assert ([h] + t)[i + 1] != ([h] + t)[j + 1];
    }
  }

  /** A key that stays and is not used keeps its rank below whatever was above it. */
  lemma {:induction false} WithoutKeepsOrder<K(!new)>(s: seq<K>, k: K, i: nat, j: nat)
    requires Distinct(s) && i < j < |Without(s, k)|
    ensures Precedes(s, Without(s, k)[i], Without(s, k)[j])
    decreases |s|
  {
    hide Without, Distinct, Precedes;
    WithoutNothing(k);
    assert s != [];
    var h, t := s[0], s[1..];
    assert s == [h] + t;
    WithoutStep(h, t, k);
    var u := Without(t, k);
    if h == k {
      WithoutKeepsOrder(t, k, i, j);
      PrecedesBehind(h, t, u[i], u[j]);
    } else if i > 0 {
      WithoutKeepsOrder(t, k, i - 1, j - 1);
      PrecedesBehind(h, t, u[i - 1], u[j - 1]);
    } else {
      assert u[j - 1] in u;
      HeadPrecedes(h, t, u[j - 1]);
    }
  }

  lemma WithoutNothing<K(!new)>(k: K)
    ensures Without<K>([], k) == []
  {
  }

  /** One operation: of a pair of keys in the new order the second was not used, and either the first
      was or they already stood in this order. */
  ghost predicate Explained<K(!new), V>(b: Cache<K, V>, op: Operation<K, V>, x: K, y: K) {
    !Uses(b, op, y) && (Uses(b, op, x) || Precedes(b.order, x, y))
  }

  lemma FindOrder<K(!new), V>(b: Cache<K, V>, k: K, i: nat, j: nat)
    requires Sound(b) && i < j < |Found(b, k).order|
    ensures Explained(b, Find(k), Found(b, k).order[i], Found(b, k).order[j])
  {
    hide Without, Distinct;
    var o := Found(b, k).order;
    if k in b.values {
      var r := Without(b.order, k);
      assert o[j] == r[j - 1] && r[j - 1] in r;
      if i > 0 {
        WithoutKeepsOrder(b.order, k, i - 1, j - 1);
      }
    } else {
      assert o[j] in b.order && Precedes(b.order, o[i], o[j]);
    }
  }

  lemma InsertOrder<K(!new), V>(b: Cache<K, V>, capacity: nat, k: K, v: V, i: nat, j: nat)
    requires capacity > 0 && Sound(b) && |b.order| <= capacity && i < j < |Inserted(b, capacity, k, v).order|
    ensures Explained(b, Insert(k, v), Inserted(b, capacity, k, v).order[i], Inserted(b, capacity, k, v).order[j])
  {
    var o := Inserted(b, capacity, k, v).order;
    if k in b.values {
      assert Precedes(b.order, o[i], o[j]);
    } else {
      assert o[j] == b.order[j - 1] && o[j] in b.order && o[j] in b.values;
      if i > 0 {
        assert o[i] == b.order[i - 1];
      }
    }
  }

  lemma NewOrder<K(!new), V>(b: Cache<K, V>, capacity: nat, op: Operation<K, V>, i: nat, j: nat)
    requires capacity > 0 && Sound(b) && |b.order| <= capacity
    requires i < j < |Perform(b, capacity, op).order|
    ensures var o := Perform(b, capacity, op).order; Explained(b, op, o[i], o[j])
  {
    match op
    case Find(k) => FindOrder(b, k, i, j);
    case Insert(k, v) => InsertOrder(b, capacity, k, v, i, j);
    case Erase(k) => WithoutKeepsOrder(b.order, k, i, j);
    case Clear =>
  }

  /** In every history the list is ordered by last use, so what an insertion evicts is the key that
      was found or inserted longest ago. */
  lemma {:induction false} OrderIsLastUse<K(!new), V>(ops: seq<Operation<K, V>>, capacity: nat)
    requires capacity > 0
    ensures var c := After(ops, capacity);
            && Sound(c) && |c.order| <= capacity
            && forall i, j :: 0 <= i < j < |c.order| ==> LastUse(ops, capacity, c.order[i]) > LastUse(ops, capacity, c.order[j])
    decreases |ops|
  {
    if ops != [] {
      var before := ops[..|ops| - 1];
      var op := ops[|ops| - 1];
      OrderIsLastUse(before, capacity);
      var b, c := After(before, capacity), After(ops, capacity);
      SoundStep(b, capacity, op);
      forall i, j | 0 <= i < j < |c.order| ensures LastUse(ops, capacity, c.order[i]) > LastUse(ops, capacity, c.order[j]) {
        NewOrder(b, capacity, op, i, j);
      }
    }
  }

  /** Of all the keys x was used longest ago. */
  ghost predicate Oldest<K(!new), V>(ops: seq<Operation<K, V>>, capacity: nat, keys: set<K>, x: K)
    requires capacity > 0
  {
    forall y :: y in keys && y != x ==> LastUse(ops, capacity, y) > LastUse(ops, capacity, x)
  }

  /** What one more operation does to the keys and their values: only a key that is not there is inserted,
      with its value, and then, if the cache is full, exactly the key used longest ago goes. */
  lemma ContentsAfter<K(!new), V>(ops: seq<Operation<K, V>>, capacity: nat, op: Operation<K, V>)
    requires capacity > 0
    ensures var b, c := After(ops, capacity).values, After(ops + [op], capacity).values;
            && (op.Find? ==> c == b)
            && (op.Erase? ==> c.Keys == b.Keys - {op.key} && forall x :: x in c ==> c[x] == b[x])
            && (op.Clear? ==> c == map[])
            && (op.Insert? && op.key in b ==> c == b)
            && (op.Insert? && op.key !in b ==> op.key in c && c[op.key] == op.value)
            && (op.Insert? && op.key !in b ==> forall x :: x in c && x != op.key ==> x in b && c[x] == b[x])
            && (op.Insert? && op.key !in b ==>
                  forall x :: x in b ==> (x in c <==> !(|b| == capacity && Oldest(ops, capacity, b.Keys, x))))
  {
    hide Distinct, Without, Inserted, LastUse, Oldest, After;
    OrderIsLastUse(ops, capacity);
    OneMore(ops, capacity, op);
    var b := After(ops, capacity);
    if op.Insert? && op.key !in b.values {
      InsertedValues(b, capacity, op.key, op.value);
      forall x | x in b.values
        ensures x in Inserted(b, capacity, op.key, op.value).values <==> !(|b.values| == capacity && Oldest(ops, capacity, b.values.Keys, x))
      {
        OldestIsLast(ops, capacity, x);
      }
    } else if op.Insert? {
      InsertedAlready(b, capacity, op.key, op.value);
    }
  }

  lemma OneMore<K(!new), V>(ops: seq<Operation<K, V>>, capacity: nat, op: Operation<K, V>)
    requires capacity > 0
    ensures After(ops + [op], capacity) == Perform(After(ops, capacity), capacity, op)
  {
    hide Perform;
    assert (ops + [op])[..|ops|] == ops;
  }

  lemma InsertedAlready<K(!new), V>(c: Cache<K, V>, capacity: nat, k: K, v: V)
    requires capacity > 0 && k in c.values
    ensures Inserted(c, capacity, k, v) == c
  {
  }

  lemma InsertedValues<K(!new), V>(c: Cache<K, V>, capacity: nat, k: K, v: V)
    requires capacity > 0 && Sound(c) && |c.order| <= capacity && k !in c.values
    ensures var r := Inserted(c, capacity, k, v).values;
            && k in r && r[k] == v && (forall x :: x in r && x != k ==> x in c.values && r[x] == c.values[x])
            && (forall x :: x in c.values ==> c.order != [] && (x in r <==> !(|c.values| == capacity && x == c.order[|c.order| - 1])))
  {
    hide Distinct;
    assert forall x :: x in c.values ==> x in c.order;
    if c.order != [] {
      assert c.order[|c.order| - 1] in c.order;
    }
  }

  lemma OldestIsLast<K(!new), V>(ops: seq<Operation<K, V>>, capacity: nat, x: K)
    requires capacity > 0 && x in After(ops, capacity).values
    ensures var b := After(ops, capacity);
            b.order != [] && (Oldest(ops, capacity, b.values.Keys, x) <==> x == b.order[|b.order| - 1])
  {
    hide LastUse, After;
    OrderIsLastUse(ops, capacity);
    var b := After(ops, capacity);
    assert x in b.order;
    var n := |b.order| - 1;
    var last := b.order[n];
    assert last in b.order;
    if x == last {
      forall y | y in b.values && y != x ensures LastUse(ops, capacity, y) > LastUse(ops, capacity, x) {
        assert y in b.order;
        var i :| 0 <= i < |b.order| && b.order[i] == y;
        assert i < n;
      }
    } else {
      var i :| 0 <= i < |b.order| && b.order[i] == x;
      assert LastUse(ops, capacity, x) > LastUse(ops, capacity, last);
    }
  }

  // ----- the class -----

  /** A list node; its id stands for the iterator. */
  datatype Node<K> = Node(id: nat, key: K)

  function Keys<K>(l: seq<Node<K>>): (s: seq<K>)
    ensures |s| == |l| && forall i :: 0 <= i < |l| ==> s[i] == l[i].key
  {
    seq(|l|, (i: nat) requires i < |l| => l[i].key)
  }

  /** Every key has its own node, which the index points to. */
  ghost predicate Indexed<K(!new)>(l: seq<Node<K>>, ki: map<K, nat>, nextId: nat) {
    && (forall i :: 0 <= i < |l| ==> l[i].id < nextId && l[i].key in ki && ki[l[i].key] == l[i].id)
    && (forall i, j :: 0 <= i < j < |l| ==> l[i].id != l[j].id)
  }

  /** The list without the node at position i. */
  function Cut<K>(l: seq<Node<K>>, i: nat): seq<Node<K>>
    requires i < |l|
  {
    l[..i] + l[i + 1..]
  }

  lemma {:induction false} CutIsWithout<K(!new)>(l: seq<Node<K>>, i: nat)
    requires i < |l| && Distinct(Keys(l))
    ensures Keys(Cut(l, i)) == Without(Keys(l), l[i].key)
    decreases |l|
  {
    var s := Keys(l);
    assert s[1..] == Keys(l[1..]);
    if i == 0 {
      assert Cut(l, 0) == l[1..];
      assert s[0] !in s[1..];
    } else {
      assert l[..i] == [l[0]] + l[1..][..i - 1] && l[i + 1..] == l[1..][i..];
      assert Cut(l, i) == [l[0]] + Cut(l[1..], i - 1);
      CutIsWithout(l[1..], i - 1);
      assert s[0] != s[i];
      assert Keys(Cut(l, i)) == [s[0]] + Keys(Cut(l[1..], i - 1));
    }
  }

  lemma CutIndexed<K(!new)>(l: seq<Node<K>>, ki: map<K, nat>, nextId: nat, i: nat)
    requires i < |l| && Indexed(l, ki, nextId) && Distinct(Keys(l))
    ensures Indexed(Cut(l, i), ki, nextId) && Indexed(Cut(l, i), ki - {l[i].key}, nextId)
    ensures Indexed([l[i]] + Cut(l, i), ki, nextId)
  {
    var c := Cut(l, i);
    forall j | 0 <= j < |c| ensures c[j] == l[if j < i then j else j + 1] && c[j].key != l[i].key && c[j].id != l[i].id {
      assert Keys(l)[if j < i then j else j + 1] != Keys(l)[i];
    }
  }

  /** Moving a node to the front moves its key. */
  lemma MovedToFront<K(!new)>(l: seq<Node<K>>, ki: map<K, nat>, nextId: nat, i: nat)
    requires i < |l| && Indexed(l, ki, nextId) && Distinct(Keys(l))
    ensures var m := [l[i]] + Cut(l, i);
            && Keys(m) == [l[i].key] + Without(Keys(l), l[i].key) && |m| == |l|
            && Indexed(m, ki, nextId) && ki[l[i].key] == m[0].id
  {
    CutIsWithout(l, i);
    CutIndexed(l, ki, nextId, i);
    assert Keys([l[i]] + Cut(l, i)) == [l[i].key] + Keys(Cut(l, i));
  }

  lemma FrontStays<K(!new)>(l: seq<Node<K>>)
    requires l != [] && Distinct(Keys(l))
    ensures Keys(l) == [l[0].key] + Without(Keys(l), l[0].key)
  {
    CutIsWithout(l, 0);
    assert Keys(l) == [l[0].key] + Keys(Cut(l, 0));
  }

  lemma LastCut<K(!new), V>(l: seq<Node<K>>, kv: map<K, V>, ki: map<K, nat>, nextId: nat, n: nat)
    requires |l| == n + 1 && Indexed(l, ki, nextId) && Sound(Cache(Keys(l), kv))
    ensures Indexed(l[..n], ki - {l[n].key}, nextId) && Keys(l[..n]) == Keys(l)[..n]
    ensures Sound(Cache(Keys(l[..n]), kv - {l[n].key})) && l[n].key in kv
  {
    hide Indexed, Sound, Distinct;
    SoundIsDistinct(Cache(Keys(l), kv));
    CutIndexed(l, ki, nextId, n);
    assert Cut(l, n) == l[..n];
    assert Keys(l[..n]) == Keys(l)[..n];
    SoundDropLast(Cache(Keys(l), kv), n);
  }

  lemma PushedIndexed<K(!new)>(l: seq<Node<K>>, ki: map<K, nat>, nextId: nat, k: K)
    requires Indexed(l, ki, nextId) && k !in Keys(l)
    ensures Indexed([Node(nextId, k)] + l, ki[k := nextId], nextId + 1)
  {
    forall i | 0 <= i < |l| ensures l[i].key != k {
      assert Keys(l)[i] == l[i].key;
    }
  }

  lemma KeyHasNode<K(!new), V>(l: seq<Node<K>>, kv: map<K, V>, k: K)
    requires Sound(Cache(Keys(l), kv))
    ensures k in kv ==> k in Keys(l) && l != []
    ensures k !in kv ==> k !in Keys(l)
  {
    assert k in Cache(Keys(l), kv).order <==> k in kv;
  }

  lemma SoundIsDistinct<K(!new), V>(c: Cache<K, V>)
    requires Sound(c)
    ensures Distinct(c.order)
  {
  }

  lemma SoundSize<K(!new), V>(c: Cache<K, V>)
    requires Sound(c)
    ensures |c.order| == |c.values|
  {
  }

  class LruMap<K(==, !new), V> {
    var kv: map<K, V>
    var ki: map<K, nat>
    var kl: seq<Node<K>>
    var capacity: nat
    var nextId: nat

    ghost function State(): Cache<K, V>
      reads this
    {
      Cache(Keys(kl), kv)
    }

    /** The two maps and the list hold the same keys, at most `capacity`, and the index is right. */
    ghost predicate Valid()
      reads this
    {
      && capacity > 0 && Sound(State()) && |kl| <= capacity
      && ki.Keys == kv.Keys && Indexed(kl, ki, nextId)
    }

    constructor (cap: nat)
      ensures Valid() && State() == Cache([], map[]) && capacity == if cap > 0 then cap else 1024
    {
      kv, ki, kl, nextId := map[], map[], [], 0;
      capacity := if cap > 0 then cap else 1024;
    }

    method Size() returns (n: nat)
      requires Valid()
      ensures n == |State().order| && n <= capacity
    {
      n := |kv|;
    }

    /** The position of the node an iterator points to. */
    method Position(id: nat, ghost k: K) returns (i: nat)
      requires Valid() && k in ki && ki[k] == id
      ensures i < |kl| && kl[i].id == id && kl[i].key == k
    {
      assert k in State().order;
      ghost var w :| 0 <= w < |kl| && Keys(kl)[w] == k;
      i := 0;
      while kl[i].id != id
        invariant i <= w
        decreases w - i
      {
        i := i + 1;
      }
    }

    method FindKey(k: K) returns (r: Option<V>)
      requires Valid()
      modifies this
      ensures Valid() && capacity == old(capacity)
      ensures State() == Found(old(State()), k)
      ensures r == if k in old(kv) then Some(old(kv)[k]) else None
    {
      hide Sound, Indexed, Without, Cut, Keys;
      if k !in kv {
        return None;
      }
      r := Some(kv[k]);
      SoundStep(State(), capacity, Find(k));
      KeyHasNode(kl, kv, k);
      SoundIsDistinct(State());
      if kl[0].key != k {
        // splice the node to the front; the iterator stays the same
        var i := Position(ki[k], k);
        MovedToFront(kl, ki, nextId, i);
        kl := [kl[i]] + Cut(kl, i);
        ki := ki[k := kl[0].id];
        assert ki == old(ki);
      } else {
        FrontStays(kl);
      }
    }

    /** Nothing happens to a key that is there already. */
    method InsertKey(k: K, v: V)
      requires Valid()
      modifies this
      ensures Valid() && capacity == old(capacity)
      ensures State() == Inserted(old(State()), capacity, k, v)
    {
      hide Sound, Indexed, Keys;
      if k in kv {
        return;
      }
      SoundSize(State());
      PushFront(k, v);
      if |kv| > capacity {
        EvictBack();
      }
    }

    /** The list and the maps with a new key in front, perhaps one too many. */
    method PushFront(k: K, v: V)
      requires Valid() && k !in kv
      modifies this
      ensures capacity == old(capacity) && kv == old(kv)[k := v] && ki.Keys == kv.Keys && Indexed(kl, ki, nextId)
      ensures Keys(kl) == [k] + old(Keys(kl)) && Sound(State()) && |kl| == old(|kl|) + 1 == |kv|
    {
      hide Sound, Indexed;
      KeyHasNode(kl, kv, k);
      SoundAdd(State(), k, v);
      SoundSize(State());
      PushedIndexed(kl, ki, nextId, k);
      kv := kv[k := v];
      kl := [Node(nextId, k)] + kl;
      ki := ki[k := nextId];
      nextId := nextId + 1;
      assert Keys(kl) == [k] + old(Keys(kl));
    }

    method EvictBack()
      requires kl != [] && |kl| == capacity + 1 && capacity > 0 && Sound(State()) && ki.Keys == kv.Keys && Indexed(kl, ki, nextId)
      modifies this
      ensures Valid() && capacity == old(capacity)
      ensures var o := old(Keys(kl)); State() == Cache(o[..|o| - 1], old(kv) - {o[|o| - 1]})
    {
      hide Sound, Indexed, Keys;
      var n := |kl| - 1;
      var k := kl[n].key;
      LastCut(kl, kv, ki, nextId, n);
      kl := kl[..n];
      kv := kv - {k};
      ki := ki - {k};
    }

    method EraseKey(k: K)
      requires Valid()
      modifies this
      ensures Valid() && capacity == old(capacity)
      ensures State() == Erased(old(State()), k)
    {
      hide Sound, Indexed, Keys, Without, Cut;
      SoundStep(State(), capacity, Erase(k));
      KeyHasNode(kl, kv, k);
      SoundIsDistinct(State());
      if k in kv {
        var i := Position(ki[k], k);
        CutIsWithout(kl, i);
        CutIndexed(kl, ki, nextId, i);
        kl := Cut(kl, i);
        ki := ki - {k};
        kv := kv - {k};
      } else {
        assert kv - {k} == kv;
      }
    }

    method ClearAll()
      requires Valid()
      modifies this
      ensures Valid() && capacity == old(capacity) && State() == Cache([], map[])
    {
      kv, ki, kl := map[], map[], [];
    }
  }
}
