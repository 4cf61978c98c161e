/**
 * TimerManager and the timer calls of Scheduler (src/co/impl/scheduler.h:152-183 and 253-281,
 * src/co/impl/scheduler.cc:145-187). The multimap is the sequence of its nodes in order.
 */
module Timers {
  import opened Common
  import EventRace

  type CoState = EventRace.CoState

  /** A node of the multimap: `id` stands for the iterator to it. */
  datatype Timer = Timer(id: nat, when: int, co: nat)

  predicate Sorted(ts: seq<Timer>) {
    forall i, j :: 0 <= i < j < |ts| ==> ts[i].when <= ts[j].when
  }

  predicate DistinctIds(ts: seq<Timer>) {
    forall i, j :: 0 <= i < j < |ts| ==> ts[i].id != ts[j].id
  }

  predicate HasId(ts: seq<Timer>, id: nat) {
    exists i :: 0 <= i < |ts| && ts[i].id == id
  }

  /** The position of the first node later than `when`, */
  function UpperBound(ts: seq<Timer>, when: int): (k: nat)
    ensures k <= |ts|
    ensures forall i :: 0 <= i < k ==> ts[i].when <= when
    ensures k < |ts| ==> ts[k].when > when
  {
    if ts == [] || ts[0].when > when then 0 else 1 + UpperBound(ts[1..], when)
  }

  /** and of the first node not earlier. */
  function LowerBound(ts: seq<Timer>, when: int): (k: nat)
    ensures k <= |ts|
    ensures forall i :: 0 <= i < k ==> ts[i].when < when
    ensures k < |ts| ==> ts[k].when >= when
  {
    if ts == [] || ts[0].when >= when then 0 else 1 + LowerBound(ts[1..], when)
  }

  function Position(ts: seq<Timer>, id: nat): (k: nat)
    requires HasId(ts, id)
    ensures k < |ts| && ts[k].id == id
    ensures forall j :: 0 <= j < k ==> ts[j].id != id
  {
    if ts[0].id == id then 0 else
      assert exists j :: 0 <= j < |ts[1..]| && ts[1..][j].id == id by {
        var i :| 0 <= i < |ts| && ts[i].id == id;
        assert ts[1..][i - 1].id == id;
      }
      1 + Position(ts[1..], id)
  }

  /** Where a new node goes that should stand as close before the hint as the order allows. */
  function HintPosition(ts: seq<Timer>, hint: Option<nat>, when: int): (k: nat)
    requires hint.Some? ==> HasId(ts, hint.value)
    ensures k <= |ts|
  {
    var h := if hint.None? then |ts| else Position(ts, hint.value);
    var lo, hi := LowerBound(ts, when), UpperBound(ts, when);
    if h < lo then lo else if h > hi then hi else h
  }

  function InsertAt(ts: seq<Timer>, k: nat, t: Timer): seq<Timer>
    requires k <= |ts|
  {
    ts[..k] + [t] + ts[k..]
  }

  function RemoveAt(ts: seq<Timer>, k: nat): seq<Timer>
    requires k < |ts|
  {
    ts[..k] + ts[k + 1..]
  }

  lemma BoundsMeet(ts: seq<Timer>, when: int)
    requires Sorted(ts)
    ensures LowerBound(ts, when) <= UpperBound(ts, when)
    ensures forall i :: LowerBound(ts, when) <= i < UpperBound(ts, when) ==> ts[i].when == when
    ensures forall i :: UpperBound(ts, when) <= i < |ts| ==> ts[i].when > when
  {
  }

  lemma HintIsBetween(ts: seq<Timer>, hint: Option<nat>, when: int)
    requires Sorted(ts) && (hint.Some? ==> HasId(ts, hint.value))
    ensures LowerBound(ts, when) <= HintPosition(ts, hint, when) <= UpperBound(ts, when)
    ensures var h := if hint.None? then |ts| else Position(ts, hint.value);
            forall k: nat :: LowerBound(ts, when) <= k <= UpperBound(ts, when) ==> Gap(HintPosition(ts, hint, when), h) <= Gap(k, h)
  {
    BoundsMeet(ts, when);
  }

  function Gap(a: nat, b: nat): nat {
    if a < b then b - a else a - b
  }

  /** Any position between the bounds keeps the order. */
  lemma InsertKeepsOrder(ts: seq<Timer>, k: nat, t: Timer)
    requires Sorted(ts) && LowerBound(ts, t.when) <= k <= UpperBound(ts, t.when)
    ensures Sorted(InsertAt(ts, k, t))
  {
    hide Sorted;
    BoundsMeet(ts, t.when);
    assert forall i :: 0 <= i < k ==> ts[i].when <= t.when;
    assert forall i :: k <= i < |ts| ==> t.when <= ts[i].when;
    hide LowerBound, UpperBound;
    SortedAround(ts, k, t);
  }

  lemma SortedAround(ts: seq<Timer>, k: nat, t: Timer)
    requires Sorted(ts) && k <= |ts|
    requires forall i :: 0 <= i < k ==> ts[i].when <= t.when
    requires forall i :: k <= i < |ts| ==> t.when <= ts[i].when
    ensures Sorted(InsertAt(ts, k, t))
  {
    var us := InsertAt(ts, k, t);
    assert forall i :: 0 <= i < k ==> us[i] == ts[i];
    assert forall i :: k < i < |us| ==> us[i] == ts[i - 1];
  }

  lemma HasIdConcat(a: seq<Timer>, b: seq<Timer>, id: nat)
    ensures HasId(a + b, id) <==> HasId(a, id) || HasId(b, id)
  {
    if HasId(a, id) {
      var i :| 0 <= i < |a| && a[i].id == id;
      assert (a + b)[i].id == id;
    }
    if HasId(b, id) {
      var i :| 0 <= i < |b| && b[i].id == id;
      assert (a + b)[|a| + i].id == id;
    }
  }

  lemma HasIdOne(t: Timer, id: nat)
    ensures HasId([t], id) <==> id == t.id
  {
    assert [t][0] == t;
  }

  /** The ids of three parts. */
  lemma HasIdParts(a: seq<Timer>, t: Timer, b: seq<Timer>)
    ensures forall id :: HasId(a + [t] + b, id) <==> HasId(a, id) || id == t.id || HasId(b, id)
  {
    hide HasId;
    forall id ensures HasId(a + [t] + b, id) <==> HasId(a, id) || id == t.id || HasId(b, id) {
      HasIdConcat(a + [t], b, id);
      HasIdConcat(a, [t], id);
      HasIdOne(t, id);
    }
  }

  lemma HasIdCut(ts: seq<Timer>, k: nat)
    requires k <= |ts|
    ensures forall id :: HasId(ts, id) <==> HasId(ts[..k], id) || HasId(ts[k..], id)
  {
    hide HasId;
    assert ts == ts[..k] + ts[k..];
    forall id ensures HasId(ts, id) <==> HasId(ts[..k], id) || HasId(ts[k..], id) {
      HasIdConcat(ts[..k], ts[k..], id);
    }
  }

  lemma InsertKeepsIds(ts: seq<Timer>, k: nat, t: Timer)
    requires DistinctIds(ts) && k <= |ts| && !HasId(ts, t.id)
    ensures DistinctIds(InsertAt(ts, k, t))
    ensures forall id :: HasId(InsertAt(ts, k, t), id) <==> HasId(ts, id) || id == t.id
  {
    HasIdParts(ts[..k], t, ts[k..]);
    HasIdCut(ts, k);
    InsertDistinct(ts, k, t);
  }

  lemma InsertDistinct(ts: seq<Timer>, k: nat, t: Timer)
    requires DistinctIds(ts) && k <= |ts| && !HasId(ts, t.id)
    ensures DistinctIds(InsertAt(ts, k, t))
  {
    assert forall i :: 0 <= i < |ts| ==> ts[i].id != t.id;
  }

  ghost predicate IdsBelow(ts: seq<Timer>, n: nat) {
    forall i :: 0 <= i < |ts| ==> ts[i].id < n
  }

  /** A fresh node between the bounds. */
  lemma InsertKeeps(ts: seq<Timer>, k: nat, t: Timer)
    requires Sorted(ts) && DistinctIds(ts) && IdsBelow(ts, t.id)
    requires LowerBound(ts, t.when) <= k <= UpperBound(ts, t.when)
    ensures var us := InsertAt(ts, k, t);
            && Sorted(us) && DistinctIds(us) && IdsBelow(us, t.id + 1)
            && forall id :: HasId(us, id) <==> HasId(ts, id) || id == t.id
  {
    InsertKeepsOrder(ts, k, t);
    InsertKeepsIds(ts, k, t);
  }

  lemma RemoveKeeps(ts: seq<Timer>, k: nat)
    requires Sorted(ts) && DistinctIds(ts) && k < |ts|
    ensures Sorted(RemoveAt(ts, k)) && DistinctIds(RemoveAt(ts, k))
    ensures forall n :: IdsBelow(ts, n) ==> IdsBelow(RemoveAt(ts, k), n)
    ensures forall id :: HasId(RemoveAt(ts, k), id) <==> HasId(ts, id) && id != ts[k].id
  {
    RemoveKeepsOrder(ts, k);
    RemoveKeepsIds(ts, k);
  }

  lemma RemoveKeepsOrder(ts: seq<Timer>, k: nat)
    requires Sorted(ts) && DistinctIds(ts) && k < |ts|
    ensures Sorted(RemoveAt(ts, k)) && DistinctIds(RemoveAt(ts, k))
    ensures forall n :: IdsBelow(ts, n) ==> IdsBelow(RemoveAt(ts, k), n)
  {
  }

  lemma RemoveKeepsIds(ts: seq<Timer>, k: nat)
    requires DistinctIds(ts) && k < |ts|
    ensures forall id :: HasId(RemoveAt(ts, k), id) <==> HasId(ts, id) && id != ts[k].id
  {
    var a, b := ts[..k], ts[k + 1..];
    assert ts == a + [ts[k]] + b;
    HasIdParts(a, ts[k], b);
    assert !HasId(a, ts[k].id) && !HasId(b, ts[k].id);
    forall id ensures HasId(a + b, id) <==> HasId(a, id) || HasId(b, id) {
      HasIdConcat(a, b, id);
    }
  }

  lemma DropKeeps(ts: seq<Timer>, k: nat)
    requires Sorted(ts) && DistinctIds(ts) && k <= |ts|
    ensures Sorted(ts[k..]) && DistinctIds(ts[k..])
    ensures forall n :: IdsBelow(ts, n) ==> IdsBelow(ts[k..], n)
    ensures forall i :: k <= i < |ts| ==> HasId(ts[k..], ts[i].id)
    ensures forall id :: HasId(ts[k..], id) ==> HasId(ts, id)
  {
    forall i | k <= i < |ts| ensures HasId(ts[k..], ts[i].id) {
      assert ts[k..][i - k] == ts[i];
    }
    forall id | HasId(ts[k..], id) ensures HasId(ts, id) {
      var i :| 0 <= i < |ts[k..]| && ts[k..][i].id == id;
      assert ts[i + k].id == id;
    }
  }

  // ----- check_timeout -----

  /** Whether a timer visited in state x makes its coroutine time out. */
  predicate TimesOut(x: CoState) {
    x != EventRace.S_ready
  }

  /** The coroutines of the nodes ts that time out, visited in order. */
  function TimedOut(ts: seq<Timer>, x: seq<CoState>): seq<nat>
    requires forall i :: 0 <= i < |ts| ==> ts[i].co < |x|
    decreases |ts|
  {
    if ts == [] then []
    else
      var n := |ts| - 1;
      TimedOut(ts[..n], x) + if TimesOut(Swept(ts[..n], x)[ts[n].co]) then [ts[n].co] else []
  }

  /** The states after the visits. */
  function Swept(ts: seq<Timer>, x: seq<CoState>): (y: seq<CoState>)
    requires forall i :: 0 <= i < |ts| ==> ts[i].co < |x|
    ensures |y| == |x|
    ensures forall i :: 0 <= i < |ts| ==> y[ts[i].co] == EventRace.S_init
    ensures forall c :: 0 <= c < |x| && (forall i :: 0 <= i < |ts| ==> ts[i].co != c) ==> y[c] == x[c]
    decreases |ts|
  {
    if ts == [] then x else Swept(ts[..|ts| - 1], x)[ts[|ts| - 1].co := EventRace.S_init]
  }

  /** The elements of ts whose coroutine was not S_ready before. */
  function NotReady(ts: seq<Timer>, x: seq<CoState>): seq<nat>
    requires forall i :: 0 <= i < |ts| ==> ts[i].co < |x|
    decreases |ts|
  {
    if ts == [] then []
    else NotReady(ts[..|ts| - 1], x) + if x[ts[|ts| - 1].co] != EventRace.S_ready then [ts[|ts| - 1].co] else []
  }

  /** With one timer per coroutine the sweep returns the coroutines not yet S_ready, in deadline order. */
  lemma {:induction false} SweepIsFilter(ts: seq<Timer>, x: seq<CoState>)
    requires forall i :: 0 <= i < |ts| ==> ts[i].co < |x|
    requires forall i, j :: 0 <= i < j < |ts| ==> ts[i].co != ts[j].co
    ensures TimedOut(ts, x) == NotReady(ts, x)
    decreases |ts|
  {
    if ts != [] {
      var n := |ts| - 1;
      SweepIsFilter(ts[..n], x);
      assert Swept(ts[..n], x)[ts[n].co] == x[ts[n].co];
    }
  }

  const NEVER: uint32 := 0xFFFF_FFFF

  /** The result of check_timeout: a 64-bit difference through int to uint32. */
  function Remaining(ts: seq<Timer>, now: int): uint32 {
    if ts == [] then NEVER else (ts[0].when - now) % TWO_POW_32
  }

  class TimerManager {
    var timer: seq<Timer>
    /** _it: the identity of a node, None for end(). */
    var hint: Option<nat>
    var nextId: nat

    ghost predicate Valid()
      reads this
    {
      && Sorted(timer) && DistinctIds(timer)
      && IdsBelow(timer, nextId)
      && (hint.Some? ==> HasId(timer, hint.value))
    }

    constructor ()
      ensures Valid() && timer == [] && hint == None && nextId == 0
    {
      timer, hint, nextId := [], None, 0;
    }

    method AddTimer(now: int, ms: uint32, co: nat) returns (id: nat)
      requires Valid()
      modifies this
      ensures Valid() && id == old(nextId) && hint == old(hint)
      ensures timer == InsertAt(old(timer), UpperBound(old(timer), now + ms), Timer(id, now + ms, co))
    {
      hide Sorted, DistinctIds, IdsBelow, HasId, InsertAt, LowerBound, UpperBound;
      id := nextId;
      BoundsMeet(timer, now + ms);
      Insert(UpperBound(timer, now + ms), Timer(id, now + ms, co));
    }

    /** A node at a position the order allows. */
    method Insert(k: nat, t: Timer)
      requires Valid() && t.id == nextId && LowerBound(timer, t.when) <= k <= UpperBound(timer, t.when)
      modifies `timer, `nextId
      ensures Valid() && timer == InsertAt(old(timer), k, t) && HasId(timer, t.id)
    {
      hide Sorted, DistinctIds, IdsBelow, HasId, InsertAt, LowerBound, UpperBound;
      InsertKeeps(timer, k, t);
      timer := InsertAt(timer, k, t);
      nextId := nextId + 1;
    }

    /** The insertion with the hint, which moves to the new node. */
    method AddIoTimer(now: int, ms: uint32, co: nat) returns (id: nat)
      requires Valid()
      modifies this
      ensures Valid() && id == old(nextId) && hint == Some(id)
      ensures timer == InsertAt(old(timer), HintPosition(old(timer), old(hint), now + ms), Timer(id, now + ms, co))
    {
      hide HintPosition, Sorted, DistinctIds, IdsBelow, HasId, InsertAt, LowerBound, UpperBound;
      id := nextId;
      HintIsBetween(timer, hint, now + ms);
      Insert(HintPosition(timer, hint, now + ms), Timer(id, now + ms, co));
      hint := Some(id);
    }

    /** The hint steps off the node that goes. */
    method DelTimer(id: nat)
      requires Valid() && HasId(timer, id)
      modifies this
      ensures Valid() && nextId == old(nextId)
      ensures timer == RemoveAt(old(timer), Position(old(timer), id))
      ensures old(hint) != Some(id) ==> hint == old(hint)
      ensures old(hint) == Some(id) ==>
                var k := Position(old(timer), id);
                hint == if k + 1 < |old(timer)| then Some(old(timer)[k + 1].id) else None
    {
      var k := Position(timer, id);
      RemoveKeeps(timer, k);
      if hint == Some(id) {
        hint := if k + 1 < |timer| then Some(timer[k + 1].id) else None;
        assert k + 1 < |timer| ==> HasId(timer, timer[k + 1].id);
      }
      timer := RemoveAt(timer, k);
    }

    /** Visits the timers due, oldest first, and removes them. `state` holds the states of the coroutines. */
    method CheckTimeout(now: int, state: array<CoState>) returns (res: seq<nat>, wait: uint32)
      requires Valid()
      requires forall i :: 0 <= i < |timer| ==> timer[i].co < state.Length
      modifies this, state
      ensures Valid() && nextId == old(nextId)
      ensures var k := UpperBound(old(timer), now);
              && timer == old(timer)[k..]
              && res == TimedOut(old(timer)[..k], old(state[..]))
              && state[..] == Swept(old(timer)[..k], old(state[..]))
              && hint == if old(hint).Some? && Position(old(timer), old(hint).value) < k
                         then (if k < |old(timer)| then Some(old(timer)[k].id) else None) else old(hint)
      ensures wait == Remaining(timer, now)
    {
      hide Sorted, DistinctIds, IdsBelow, HasId, TimedOut, Swept, UpperBound;
      if timer == [] {
        res, wait := [], NEVER;
        NothingDue(now, state[..]);
        return;
      }
      var it;
      res, it := Sweep(now, state);
      DropDue(now, it);
      wait := if timer == [] then NEVER else (timer[0].when - now) % TWO_POW_32;
    }

    /** The erase of check_timeout: a due hint moves to the first node that stays. */
    method DropDue(now: int, it: nat)
      requires Valid() && it == UpperBound(timer, now)
      modifies `timer, `hint
      ensures Valid() && timer == old(timer)[it..]
      ensures hint == if old(hint).Some? && Position(old(timer), old(hint).value) < it
                      then (if it < |old(timer)| then Some(old(timer)[it].id) else None) else old(hint)
    {
      hide Sorted, DistinctIds, IdsBelow, HasId, UpperBound;
      DropKeeps(timer, it);
      HintAfterSweep(timer, it, now, hint);
      if it != 0 {
        if hint.Some? && timer[Position(timer, hint.value)].when <= now {
          hint := if it < |timer| then Some(timer[it].id) else None;
        }
        timer := timer[it..];
      }
    }

    /** The loop of check_timeout: `it` is where it stops. */
    method Sweep(now: int, state: array<CoState>) returns (res: seq<nat>, it: nat)
      requires Sorted(timer)
      requires forall i :: 0 <= i < |timer| ==> timer[i].co < state.Length
      modifies state
      ensures it == UpperBound(timer, now)
      ensures res == TimedOut(timer[..it], old(state[..])) && state[..] == Swept(timer[..it], old(state[..]))
    {
      res, it := [], 0;
      while it < |timer|
        invariant it <= UpperBound(timer, now)
        invariant res == TimedOut(timer[..it], old(state[..])) && state[..] == Swept(timer[..it], old(state[..]))
      {
        if timer[it].when > now {
          break;
        }
        UpperBoundPast(timer, it, now);
        assert timer[..it + 1][..it] == timer[..it];
        var co := timer[it].co;
        var was := state[co];
        if was == EventRace.S_init {
          res := res + [co];
        } else {
          state[co] := EventRace.S_init;
          if was == EventRace.S_wait {
            res := res + [co];
          }
        }
        it := it + 1;
      }
    }
  }

  lemma NothingDue(now: int, x: seq<CoState>)
    ensures UpperBound([], now) == 0 && TimedOut([], x) == [] && Swept([], x) == x
  {
  }

  lemma UpperBoundPast(ts: seq<Timer>, i: nat, when: int)
    requires Sorted(ts) && i < |ts| && ts[i].when <= when
    ensures i < UpperBound(ts, when)
  {
    BoundsMeet(ts, when);
  }

  /** A hint that is not due is among the nodes that stay. */
  lemma HintAfterSweep(ts: seq<Timer>, k: nat, now: int, hint: Option<nat>)
    requires Sorted(ts) && k == UpperBound(ts, now) && (hint.Some? ==> HasId(ts, hint.value))
    ensures hint.Some? ==> (ts[Position(ts, hint.value)].when <= now <==> Position(ts, hint.value) < k)
    ensures hint.Some? && Position(ts, hint.value) >= k ==> HasId(ts[k..], hint.value)
  {
    BoundsMeet(ts, now);
    if hint.Some? && Position(ts, hint.value) >= k {
      assert ts[k..][Position(ts, hint.value) - k].id == hint.value;
    }
  }

  // ----- the timers of a scheduler and the time it may sleep -----

  /** No timer is due before `limit`. */
  ghost predicate NoneBefore(ts: seq<Timer>, limit: int) {
    forall i :: 0 <= i < |ts| ==> limit <= ts[i].when
  }

  lemma InsertNoneBefore(ts: seq<Timer>, k: nat, t: Timer, limit: int)
    requires NoneBefore(ts, limit) && limit <= t.when && k <= |ts|
    ensures NoneBefore(InsertAt(ts, k, t), limit)
  {
  }

  lemma RemainingIsSafe(ts: seq<Timer>, now: int)
    requires Sorted(ts) && NoneBefore(ts, now)
    ensures ts != [] ==> NoneBefore(ts, now + Remaining(ts, now))
    ensures ts != [] && ts[0].when - now < TWO_POW_32 ==> now + Remaining(ts, now) == ts[0].when
  {
    if ts != [] {
      assert (ts[0].when - now) % TWO_POW_32 <= ts[0].when - now;
    }
  }

  class SchedulerTimers {
    const mgr: TimerManager
    var waitMs: uint32
    /** The clock at the last check. */
    ghost var checked: int

    /** _wait_ms, counted from the last check, never reaches past a pending timer. */
    ghost predicate Valid()
      reads this, mgr
    {
      mgr.Valid() && NoneBefore(mgr.timer, checked + waitMs)
    }

    constructor (now: int)
      ensures Valid() && fresh(mgr) && mgr.timer == [] && mgr.nextId == 0 && waitMs == NEVER && checked == now
    {
      mgr := new TimerManager();
      waitMs := NEVER;
      checked := now;
    }

    /** Also the first half of sleep. */
    method AddTimer(now: int, ms: uint32, co: nat) returns (id: nat)
      requires Valid() && checked <= now
      modifies this, mgr
      ensures Valid() && checked == old(checked) && waitMs == if old(waitMs) > ms then ms else old(waitMs)
      ensures id == old(mgr.nextId) && mgr.hint == old(mgr.hint)
      ensures mgr.timer == InsertAt(old(mgr.timer), UpperBound(old(mgr.timer), now + ms), Timer(id, now + ms, co))
    {
      hide InsertAt, Sorted, DistinctIds, IdsBelow;
      if waitMs > ms {
        waitMs := ms;
      }
      InsertNoneBefore(mgr.timer, UpperBound(mgr.timer, now + ms), Timer(mgr.nextId, now + ms, co), checked + waitMs);
      id := mgr.AddTimer(now, ms, co);
    }

    method AddIoTimer(now: int, ms: uint32, co: nat) returns (id: nat)
      requires Valid() && checked <= now
      modifies this, mgr
      ensures Valid() && checked == old(checked) && waitMs == if old(waitMs) > ms then ms else old(waitMs)
      ensures id == old(mgr.nextId) && mgr.hint == Some(id)
      ensures mgr.timer == InsertAt(old(mgr.timer), HintPosition(old(mgr.timer), old(mgr.hint), now + ms), Timer(id, now + ms, co))
    {
      hide InsertAt, Sorted, DistinctIds, IdsBelow;
      if waitMs > ms {
        waitMs := ms;
      }
      InsertNoneBefore(mgr.timer, HintPosition(mgr.timer, mgr.hint, now + ms), Timer(mgr.nextId, now + ms, co), checked + waitMs);
      id := mgr.AddIoTimer(now, ms, co);
    }

    method DelTimer(id: nat)
      requires Valid() && HasId(mgr.timer, id)
      modifies this, mgr
      ensures Valid() && checked == old(checked) && waitMs == old(waitMs)
      ensures mgr.timer == RemoveAt(old(mgr.timer), Position(old(mgr.timer), id))
    {
      hide Sorted, DistinctIds, IdsBelow;
      mgr.DelTimer(id);
    }

    /** The part of the loop that checks the timers. */
    method Check(now: int, state: array<CoState>) returns (res: seq<nat>)
      requires Valid()
      requires forall i :: 0 <= i < |mgr.timer| ==> mgr.timer[i].co < state.Length
      modifies this, mgr, state
      ensures Valid() && checked == now
      ensures var k := UpperBound(old(mgr.timer), now);
              && mgr.timer == old(mgr.timer)[k..]
              && res == TimedOut(old(mgr.timer)[..k], old(state[..]))
              && state[..] == Swept(old(mgr.timer)[..k], old(state[..]))
              && waitMs == Remaining(mgr.timer, now)
    {
      hide DistinctIds, IdsBelow, TimedOut, Swept;
      var before := mgr.timer;
      res, waitMs := mgr.CheckTimeout(now, state);
      checked := now;
      BoundsMeet(before, now);
      RemainingIsSafe(mgr.timer, now);
    }
  }

  /** epoll_wait takes an int: a negative timeout blocks for ever. */
  function EpollTimeout(w: uint32): int {
    if w >= TWO_POW_31 then w - TWO_POW_32 else w
  }

  predicate WakesBy(now: int, w: uint32, deadline: int) {
    EpollTimeout(w) >= 0 && now + EpollTimeout(w) <= deadline
  }

  /** Counted from the last check, the loop wakes in time for every timer exactly if the sleeping time fits
      an int, whether a check or a timer added after it has set it; with 2^31 ms or more it sleeps until
      something else wakes it. */
  lemma WakesInTimeIff(s: SchedulerTimers)
    requires s.Valid() && s.mgr.timer != []
    ensures (forall i :: 0 <= i < |s.mgr.timer| ==> WakesBy(s.checked, s.waitMs, s.mgr.timer[i].when)) <==>
            s.waitMs < TWO_POW_31
  {
    if s.waitMs >= TWO_POW_31 {
      assert !WakesBy(s.checked, s.waitMs, s.mgr.timer[0].when);
    }
  }

  /** Without any timer the loop sleeps until somebody wakes it. */
  lemma SleepsWithoutTimers(now: int)
    ensures EpollTimeout(Remaining([], now)) == -1
  {
  }

  /** One timer of 2^31 ms on a scheduler without any: the loop does not wake for it. */
  method Oversleep(now: int, co: nat) returns (s: SchedulerTimers)
    ensures fresh(s) && s.Valid() && s.checked == now && s.waitMs == TWO_POW_31
    ensures s.mgr.timer == [Timer(0, now + TWO_POW_31, co)] && !WakesBy(now, s.waitMs, now + TWO_POW_31)
  {
    s := new SchedulerTimers(now);
    var id := s.AddTimer(now, TWO_POW_31, co);
  }
}
