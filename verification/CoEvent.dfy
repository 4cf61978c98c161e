/**
 * co::Event as an object (src/co/impl/co.cc:33-103), each method run on its own: what a wait leaves
 * in the table, and what one signal does to the states and to the task queues of the schedulers
 * (src/co/impl/scheduler.h:119-127). How the methods of several threads interleave is the subject
 * of module EventRace.
 */
module CoEvent {
  import opened Common
  import R = EventRace

  type CoState = R.CoState

  /** Ready tasks and ready timer tasks of one scheduler; the map keeps the entry it already has. */
  datatype Queue = Queue(tasks: multiset<nat>, timers: map<nat, nat>)

  function AddReady(q: Queue, co: nat): Queue {
    q.(tasks := q.tasks + multiset{co})
  }

  function AddReadyTimer(q: Queue, co: nat, id: nat): Queue {
    if co in q.timers then q else q.(timers := q.timers[co := id])
  }

  /** The coroutines of a table that a signal wakes on scheduler d, those with a null timer id. */
  function Plain(wait: map<nat, Option<nat>>, state: seq<CoState>, home: seq<nat>, d: nat): set<nat> {
    set c | c in wait && c < |state| && c < |home| && state[c] == R.S_wait && home[c] == d && wait[c].None?
  }

  /** and those with a timer. */
  function WithTimer(wait: map<nat, Option<nat>>, state: seq<CoState>, home: seq<nat>, d: nat): map<nat, nat> {
    map c | c in wait && c < |state| && c < |home| && state[c] == R.S_wait && home[c] == d && wait[c].Some? :: wait[c].value
  }

  /** The queue of scheduler d after a signal. */
  function Woken(q: Queue, wait: map<nat, Option<nat>>, state: seq<CoState>, home: seq<nat>, d: nat): Queue {
    Queue(q.tasks + multiset(Plain(wait, state, home, d)), WithTimer(wait, state, home, d) + q.timers)
  }

  function StatesAfter(state: seq<CoState>, wait: map<nat, Option<nat>>): seq<CoState> {
    seq(|state|, (c: nat) requires c < |state| => if c in wait && state[c] == R.S_wait then R.S_ready else state[c])
  }

  class EventImpl {
    var coWait: map<nat, Option<nat>>

    constructor ()
      ensures coWait == map[]
    {
      coWait := map[];
    }

    /** Up to the yield; id is None for an untimed wait. */
    method Enter(co: nat, id: Option<nat>, state: array<CoState>)
      requires co < state.Length
      modifies this, state
      ensures state[..] == old(state[..])[co := R.S_wait]
      ensures coWait == if co in old(coWait) then old(coWait) else old(coWait)[co := id]
    {
      state[co] := R.S_wait;
      if co !in coWait {
        coWait := coWait[co := id];
      }
    }

    /** After the yield of a timed wait: a coroutine that timed out takes itself off the table. */
    method Leave(co: nat, timeout: bool, state: array<CoState>) returns (signaled: bool)
      requires co < state.Length
      modifies this, state
      ensures state[..] == old(state[..])[co := R.S_init]
      ensures coWait == if timeout then old(coWait) - {co} else old(coWait)
      ensures signaled == !timeout
    {
      if timeout {
        coWait := coWait - {co};
      }
      state[co] := R.S_init;
      signaled := !timeout;
    }

    /** Everybody in the table whose state is still S_wait becomes S_ready and gets exactly one entry in
        the right queue of its own scheduler; nobody else is touched, and the table is empty. */
    method Signal(state: array<CoState>, home: seq<nat>, queues: array<Queue>)
      requires forall c :: c in coWait ==> c < state.Length && c < |home| && home[c] < queues.Length
      modifies this, state, queues
      ensures coWait == map[]
      ensures state[..] == StatesAfter(old(state[..]), old(coWait))
      ensures forall d :: 0 <= d < queues.Length ==>
                queues[d] == Woken(old(queues[d]), old(coWait), old(state[..]), home, d)
    {
      hide SoFar, StatesAfter, Woken;
      var taken := coWait;
      coWait := map[];
      var todo := taken;
      assert taken - todo.Keys == map[];
      NothingSoFar(state[..], queues[..], home);
      while todo != map[]
        invariant todo.Keys <= taken.Keys && coWait == map[]
        invariant forall c :: c in todo ==> todo[c] == taken[c]
        invariant SoFar(state[..], queues[..], old(state[..]), old(queues[..]), home, taken - todo.Keys)
        decreases todo.Keys
      {
        var c :| c in todo;
        Visit(c, todo[c], state, home, queues, old(state[..]), old(queues[..]), taken - todo.Keys);
        assert (taken - todo.Keys)[c := todo[c]] == taken - (todo - {c}).Keys;
        todo := todo - {c};
      }
      assert taken - todo.Keys == taken;
      SoFarMeans(state[..], queues[..], old(state[..]), old(queues[..]), home, taken);
    }

    /** One visit: the compare-and-swap and the entry it earns. */
    method Visit(c: nat, id: Option<nat>, state: array<CoState>, home: seq<nat>, queues: array<Queue>,
                 ghost state0: seq<CoState>, ghost queues0: seq<Queue>, ghost done: map<nat, Option<nat>>)
      requires c < state.Length && c < |home| && home[c] < queues.Length && c !in done
      requires SoFar(state[..], queues[..], state0, queues0, home, done)
      modifies state, queues
      ensures SoFar(state[..], queues[..], state0, queues0, home, done[c := id])
    {
      hide Woken, AddReady, AddReadyTimer, StatesAfter;
      StatesStep(state0, done, c, id);
      forall d | 0 <= d < queues.Length
        ensures Woken(queues0[d], done[c := id], state0, home, d) == AfterVisit(queues[d], c, id, state0[c] == R.S_wait && home[c] == d)
      {
        assert queues[d] == queues[..][d];
        WokenStep(queues0[d], done, state0, home, d, c, id);
      }
      var d := home[c];
      if state[c] == R.S_wait {
        state[c] := R.S_ready;
        queues[d] := if id.Some? then AddReadyTimer(queues[d], c, id.value) else AddReady(queues[d], c);
      }
    }
  }

  /** The states and queues after the visits of the entries in done. */
  ghost predicate SoFar(state: seq<CoState>, queues: seq<Queue>, state0: seq<CoState>, queues0: seq<Queue>,
                        home: seq<nat>, done: map<nat, Option<nat>>) {
    && |state| == |state0| && state == StatesAfter(state0, done)
    && |queues| == |queues0| && forall d :: 0 <= d < |queues| ==> queues[d] == Woken(queues0[d], done, state0, home, d)
  }

  lemma NothingSoFar(state: seq<CoState>, queues: seq<Queue>, home: seq<nat>)
    ensures SoFar(state, queues, state, queues, home, map[])
  {
    NobodyWoken(state, home);
  }

  lemma SoFarMeans(state: seq<CoState>, queues: seq<Queue>, state0: seq<CoState>, queues0: seq<Queue>,
                   home: seq<nat>, done: map<nat, Option<nat>>)
    requires SoFar(state, queues, state0, queues0, home, done)
    ensures state == StatesAfter(state0, done) && |queues| == |queues0|
    ensures forall d :: 0 <= d < |queues| ==> queues[d] == Woken(queues0[d], done, state0, home, d)
  {
  }

  lemma StatesStep(state: seq<CoState>, done: map<nat, Option<nat>>, c: nat, id: Option<nat>)
    requires c < |state| && c !in done
    ensures var s := StatesAfter(state, done);
            && |s| == |state| && s[c] == state[c]
            && StatesAfter(state, done[c := id]) == if state[c] == R.S_wait then s[c := R.S_ready] else s
  {
  }

  function AfterVisit(q: Queue, c: nat, id: Option<nat>, wakes: bool): Queue {
    if !wakes then q else if id.Some? then AddReadyTimer(q, c, id.value) else AddReady(q, c)
  }

  lemma PlainStep(done: map<nat, Option<nat>>, state: seq<CoState>, home: seq<nat>, d: nat, c: nat, id: Option<nat>)
    requires c < |state| && c < |home| && c !in done
    ensures multiset(Plain(done[c := id], state, home, d)) ==
            multiset(Plain(done, state, home, d)) + if state[c] == R.S_wait && home[c] == d && id.None? then multiset{c} else multiset{}
  {
    var p, wakes := Plain(done, state, home, d), state[c] == R.S_wait && home[c] == d && id.None?;
    assert c !in p;
    assert Plain(done[c := id], state, home, d) == if wakes then p + {c} else p;
  }

  lemma TimerStep(done: map<nat, Option<nat>>, state: seq<CoState>, home: seq<nat>, d: nat, c: nat, id: Option<nat>)
    requires c < |state| && c < |home| && c !in done
    ensures c !in WithTimer(done, state, home, d)
    ensures WithTimer(done[c := id], state, home, d) ==
            if state[c] == R.S_wait && home[c] == d && id.Some? then WithTimer(done, state, home, d)[c := id.value]
            else WithTimer(done, state, home, d)
  {
  }

  lemma AddedTimer(m: map<nat, nat>, q: map<nat, nat>, c: nat, id: nat)
    requires c !in m
    ensures m[c := id] + q == if c in q then m + q else (m + q)[c := id]
  {
  }

  lemma WokenStep(q: Queue, done: map<nat, Option<nat>>, state: seq<CoState>, home: seq<nat>, d: nat, c: nat, id: Option<nat>)
    requires c < |state| && c < |home| && c !in done
    ensures Woken(q, done[c := id], state, home, d) == AfterVisit(Woken(q, done, state, home, d), c, id, state[c] == R.S_wait && home[c] == d)
  {
    hide Plain, WithTimer;
    PlainStep(done, state, home, d, c, id);
    TimerStep(done, state, home, d, c, id);
    var p := multiset(Plain(done, state, home, d));
    assert q.tasks + (p + multiset{c}) == q.tasks + p + multiset{c} && p + multiset{} == p;
    if id.Some? {
      AddedTimer(WithTimer(done, state, home, d), q.timers, c, id.value);
    }
  }

  /** The coroutine c is in the table, still waits, and belongs to scheduler d. */
  predicate Wakes(wait: map<nat, Option<nat>>, state: seq<CoState>, home: seq<nat>, c: nat, d: nat) {
    c in wait && c < |state| && c < |home| && state[c] == R.S_wait && home[c] == d
  }

  /** Coroutine by coroutine: those woken become S_ready, the others stay as they are; one without a timer
      gets one more entry among the tasks of its scheduler, one with a timer is among the timer tasks with
      its timer id, unless it was there before; nobody else comes or goes. */
  lemma SignalWakes(q: Queue, wait: map<nat, Option<nat>>, state: seq<CoState>, home: seq<nat>, d: nat)
    ensures |StatesAfter(state, wait)| == |state|
    ensures forall c :: 0 <= c < |state| ==>
              StatesAfter(state, wait)[c] == if c in wait && state[c] == R.S_wait then R.S_ready else state[c]
    ensures var r := Woken(q, wait, state, home, d);
            forall c: nat :: r.tasks[c] == q.tasks[c] + if Wakes(wait, state, home, c, d) && wait[c].None? then 1 else 0
    ensures var r := Woken(q, wait, state, home, d);
            forall c: nat :: (c in r.timers <==> c in q.timers || (Wakes(wait, state, home, c, d) && wait[c].Some?)) &&
              (c in r.timers ==> r.timers[c] == if c in q.timers then q.timers[c] else wait[c].value)
  {
    var p := Plain(wait, state, home, d);
    var m: multiset<nat> := multiset(p);
    forall c: nat ensures m[c] == if Wakes(wait, state, home, c, d) && wait[c].None? then 1 else 0 {
      assert c in p <==> Wakes(wait, state, home, c, d) && wait[c].None?;
    }
  }

  lemma NobodyWoken(state: seq<CoState>, home: seq<nat>)
    ensures forall q, d :: Woken(q, map[], state, home, d) == q
    ensures StatesAfter(state, map[]) == state
  {
    forall q, d ensures Woken(q, map[], state, home, d) == q {
      assert Plain(map[], state, home, d) == {};
      assert WithTimer(map[], state, home, d) == map[];
      assert map[] + q.timers == q.timers;
    }
  }
}
