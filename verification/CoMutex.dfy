/**
 * co::Mutex (src/co/impl/co.cc:125-173): unlock hands the lock over to the longest waiting
 * coroutine, first popping it inside the critical section, then making it ready outside.
 */
module CoMutex {
  import opened Common

  // ----- the object -----

  /** What the critical sections see: _lock and _co_wait. */
  datatype Core = Core(lock: bool, waiters: seq<nat>)

  function Locked(m: Core, co: nat): Core {
    if !m.lock then m.(lock := true) else m.(waiters := m.waiters + [co])
  }

  /** The coroutine that gets the lock, None if it becomes free. */
  function Heir(m: Core): Option<nat> {
    if m.waiters == [] then None else Some(m.waiters[0])
  }

  function Unlocked(m: Core): Core {
    if m.waiters == [] then m.(lock := false) else m.(waiters := m.waiters[1..])
  }

  class MutexImpl {
    var lock: bool
    var waiters: seq<nat>

    constructor ()
      ensures State() == Core(false, [])
    {
      lock, waiters := false, [];
    }

    ghost function State(): Core
      reads this
    {
      Core(lock, waiters)
    }

    method TryLock() returns (ok: bool)
      modifies this
      ensures ok == !old(lock)
      ensures State() == old(State()).(lock := true)
    {
      if lock {
        ok := false;
      } else {
        lock := true;
        ok := true;
      }
    }

    /** The caller has to yield if it was put into the queue. */
    method Lock(co: nat) returns (waits: bool)
      modifies this
      ensures State() == Locked(old(State()), co)
      ensures waits == old(lock)
    {
      if !lock {
        lock := true;
        waits := false;
      } else {
        waiters := waiters + [co];
        waits := true;
      }
    }

    /** The coroutine to make ready, if any. */
    method Unlock() returns (next: Option<nat>)
      modifies this
      ensures State() == Unlocked(old(State()))
      ensures next == Heir(old(State()))
    {
      if waiters == [] {
        lock := false;
        next := None;
      } else {
        next := Some(waiters[0]);
        waiters := waiters[1..];
      }
    }
  }

  // ----- all coroutines and schedulers around one mutex -----

  /** Pushed: in the queue or already handed the lock, but not yet suspended. Handing: past the
      critical section of unlock, with the popped coroutine still to be made ready. */
  datatype Phase = Outside | Owning | Pushed | Parked | Handing(heir: nat)

  datatype Coroutine = Coroutine(sched: nat, phase: Phase)

  /** How the lock travels to an owner that does not know yet: held by the coroutine that
      unlocked, or queued in the ready tasks of a scheduler. */
  datatype Flight = Landed | HeldBy(co: nat) | ReadyAt(sched: nat)

  /** `owner` and `flight` follow the ownership. */
  datatype World = World(m: Core, cos: seq<Coroutine>, running: seq<Option<nat>>, ready: seq<seq<nat>>,
                         owner: Option<nat>, flight: Flight, fault: bool)

  datatype Action =
    | Lock(co: nat)
    | TryLock(co: nat)
    | Yield(co: nat)
    | Unlock(co: nat)
    | AddReady(co: nat)
    | RunReady(sched: nat)
    | Run(co: nat)
    | Leave(co: nat)

  predicate Running(s: World, c: nat) {
    c < |s.cos| && s.cos[c].sched < |s.running| && s.running[s.cos[c].sched] == Some(c)
  }

  predicate RunningIn(s: World, c: nat, p: Phase) {
    Running(s, c) && s.cos[c].phase == p
  }

  /** Only the owner unlocks: this is what the class asks of its users. */
  predicate Enabled(s: World, a: Action) {
    match a
    case Lock(c) => RunningIn(s, c, Outside)
    case TryLock(c) => RunningIn(s, c, Outside)
    case Yield(c) => RunningIn(s, c, Pushed)
    case Unlock(c) => RunningIn(s, c, Owning)
    case AddReady(c) => Running(s, c) && s.cos[c].phase.Handing? && s.cos[c].phase.heir < |s.cos| &&
                        s.cos[s.cos[c].phase.heir].sched < |s.ready|
    case RunReady(d) => d < |s.running| && s.running[d] == None && d < |s.ready| && s.ready[d] != []
    case Run(c) => c < |s.cos| && s.cos[c].phase in {Outside, Owning} && s.cos[c].sched < |s.running| &&
                   s.running[s.cos[c].sched] == None
    case Leave(c) => Running(s, c) && s.cos[c].phase in {Outside, Owning}
  }

  function SetPhase(s: World, c: nat, p: Phase): World
    requires c < |s.cos|
  {
    s.(cos := s.cos[c := s.cos[c].(phase := p)])
  }

  function DoLock(s: World, c: nat): World
    requires Enabled(s, Lock(c))
  {
    var t := s.(m := Locked(s.m, c));
    if s.m.lock then SetPhase(t, c, Pushed)
    else SetPhase(t, c, Owning).(owner := Some(c), flight := Landed)
  }

  function DoUnlock(s: World, c: nat): World
    requires Enabled(s, Unlock(c))
  {
    var t := s.(m := Unlocked(s.m), owner := Heir(s.m));
    match Heir(s.m)
    case None => SetPhase(t, c, Outside)
    case Some(h) => SetPhase(t, c, Handing(h)).(flight := HeldBy(c))
  }

  /** The first ready task; resuming a coroutine that is not suspended would be a fault. */
  function DoRunReady(s: World, d: nat): World
    requires Enabled(s, RunReady(d))
  {
    var c := s.ready[d][0];
    var t := s.(ready := s.ready[d := s.ready[d][1..]]);
    if c < |s.cos| && s.cos[c].phase == Parked && s.cos[c].sched == d then
      SetPhase(t, c, Owning).(running := s.running[d := Some(c)], flight := Landed)
    else t.(fault := true)
  }

  function Apply(s: World, a: Action): World
    requires Enabled(s, a)
  {
    match a
    case Lock(c) => DoLock(s, c)
    case TryLock(c) => if s.m.lock then s else DoLock(s, c)
    case Yield(c) => SetPhase(s, c, Parked).(running := s.running[s.cos[c].sched := None])
    case Unlock(c) => DoUnlock(s, c)
    case AddReady(c) =>
      var h := s.cos[c].phase.heir;
      var d := s.cos[h].sched;
      SetPhase(s, c, Outside).(ready := s.ready[d := s.ready[d] + [h]], flight := ReadyAt(d))
    case RunReady(d) => DoRunReady(s, d)
    case Run(c) => s.(running := s.running[s.cos[c].sched := Some(c)])
    case Leave(c) => s.(running := s.running[s.cos[c].sched := None])
  }

  predicate IsStart(s: World) {
    && s.m == Core(false, []) && s.owner == None && s.flight == Landed && !s.fault
    && |s.running| == |s.ready|
    && (forall d :: 0 <= d < |s.ready| ==> s.ready[d] == [] && s.running[d] == None)
    && (forall c :: 0 <= c < |s.cos| ==> s.cos[c].phase == Outside && s.cos[c].sched < |s.running|)
  }

  predicate IsRun(s: World, run: seq<Action>)
    decreases |run|
  {
    run == [] || (Enabled(s, run[0]) && IsRun(Apply(s, run[0]), run[1..]))
  }

  function After(s: World, run: seq<Action>): World
    requires IsRun(s, run)
    decreases |run|
  {
    if run == [] then s else After(Apply(s, run[0]), run[1..])
  }

  /** Whom an action makes wait for the lock, and whom it resumes with the lock. */
  function Arrival(s: World, a: Action): seq<nat> {
    if a.Lock? && s.m.lock then [a.co] else []
  }

  function Grant(s: World, a: Action): seq<nat>
    requires Enabled(s, a)
  {
    if a.RunReady? then [s.ready[a.sched][0]] else []
  }

  function Arrivals(s: World, run: seq<Action>): seq<nat>
    requires IsRun(s, run)
    decreases |run|
  {
    if run == [] then [] else Arrival(s, run[0]) + Arrivals(Apply(s, run[0]), run[1..])
  }

  function Grants(s: World, run: seq<Action>): seq<nat>
    requires IsRun(s, run)
    decreases |run|
  {
    if run == [] then [] else Grant(s, run[0]) + Grants(Apply(s, run[0]), run[1..])
  }

  // ----- the invariant -----

  predicate Blocked(p: Phase) {
    p == Pushed || p == Parked
  }

  predicate Busy(p: Phase) {
    p == Pushed || p.Handing?
  }

  /** What is true of one coroutine: it owns the lock, waits for it once, or has nothing to do with it. */
  predicate CoOk(s: World, c: nat)
    requires c < |s.cos|
  {
    var p := s.cos[c].phase;
    && s.cos[c].sched < |s.running|
    && (Busy(p) ==> Running(s, c))
    && (p == Parked ==> !Running(s, c))
    && (p == Owning <==> s.owner == Some(c) && s.flight == Landed)
    && (Blocked(p) <==> c in s.m.waiters || (s.owner == Some(c) && s.flight != Landed))
    && (p.Handing? <==> s.flight == HeldBy(c))
    && (p.Handing? ==> s.owner == Some(p.heir))
  }

  predicate Distinct(q: seq<nat>) {
    forall i, j :: 0 <= i < j < |q| ==> q[i] != q[j]
  }

  predicate LockOk(s: World) {
    && (s.m.lock <==> s.owner.Some?)
    && (!s.m.lock ==> s.m.waiters == [] && s.flight == Landed)
    && Distinct(s.m.waiters)
    && (s.owner.Some? ==> s.owner.value !in s.m.waiters && s.owner.value < |s.cos|)
    && (forall i :: 0 <= i < |s.m.waiters| ==> s.m.waiters[i] < |s.cos|)
    && (s.flight.HeldBy? ==> s.flight.co < |s.cos| && s.flight.co != s.owner.value)
    && (s.flight.ReadyAt? ==> s.flight.sched == s.cos[s.owner.value].sched)
  }

  /** Only the owner that does not know yet is among the ready tasks, once, on its own scheduler. */
  predicate ReadyOk(s: World) {
    && |s.ready| == |s.running|
    && forall d :: 0 <= d < |s.ready| ==>
         s.ready[d] == if s.flight == ReadyAt(d) && s.owner.Some? then [s.owner.value] else []
  }

  predicate SchedOk(s: World, d: nat)
    requires d < |s.running|
  {
    s.running[d].Some? ==> s.running[d].value < |s.cos| && s.cos[s.running[d].value].sched == d
  }

  /** Those who wait for the lock: the one it is being handed to, then the queue. */
  function Line(s: World): seq<nat> {
    (if s.flight != Landed && s.owner.Some? then [s.owner.value] else []) + s.m.waiters
  }

  predicate Inv(s: World) {
    && !s.fault && LockOk(s) && ReadyOk(s)
    && (forall d :: 0 <= d < |s.running| ==> SchedOk(s, d))
    && (forall c :: 0 <= c < |s.cos| ==> CoOk(s, c))
  }

  lemma StartInv(s: World)
    requires IsStart(s)
    ensures Inv(s)
  {
  }

  lemma LockKeeps(s: World, c: nat)
    requires Inv(s) && Enabled(s, Lock(c))
    ensures Inv(Apply(s, Lock(c)))
  {
    LockKeepsCoroutines(s, c);
    hide CoOk;
    var t := DoLock(s, c);
    assert CoOk(s, c);
    LockKeepsLock(s, c);
    forall d | 0 <= d < |t.running| ensures SchedOk(t, d) {
      assert SchedOk(s, d);
    }
  }

  lemma LockKeepsCoroutines(s: World, c: nat)
    requires Inv(s) && Enabled(s, Lock(c))
    ensures forall e :: 0 <= e < |s.cos| ==> CoOk(DoLock(s, c), e)
  {
    forall e | 0 <= e < |s.cos| ensures CoOk(DoLock(s, c), e) {
      assert CoOk(s, c) && CoOk(s, e);
    }
  }

  lemma LockKeepsLock(s: World, c: nat)
    requires Inv(s) && Enabled(s, Lock(c))
    ensures var t := DoLock(s, c); !t.fault && LockOk(t) && ReadyOk(t)
  {
    assert CoOk(s, c);
  }

  lemma YieldKeeps(s: World, c: nat)
    requires Inv(s) && Enabled(s, Yield(c))
    ensures Inv(Apply(s, Yield(c)))
  {
    var t := Apply(s, Yield(c));
    forall e | 0 <= e < |t.cos| ensures CoOk(t, e) {
      assert CoOk(s, e);
    }
    forall d | 0 <= d < |t.running| ensures SchedOk(t, d) {
      assert SchedOk(s, d);
    }
  }

  lemma UnlockKeeps(s: World, c: nat)
    requires Inv(s) && Enabled(s, Unlock(c))
    ensures Inv(Apply(s, Unlock(c)))
  {
    UnlockKeepsCoroutines(s, c);
    UnlockKeepsLock(s, c);
    hide CoOk, LockOk, ReadyOk;
    var t := DoUnlock(s, c);
    forall d | 0 <= d < |t.running| ensures SchedOk(t, d) {
      assert SchedOk(s, d);
    }
  }

  lemma UnlockKeepsCoroutines(s: World, c: nat)
    requires Inv(s) && Enabled(s, Unlock(c))
    ensures forall e :: 0 <= e < |s.cos| ==> CoOk(DoUnlock(s, c), e)
  {
    var t := DoUnlock(s, c);
    if s.m.waiters != [] {
      var h := s.m.waiters[0];
      assert s.m.waiters == [h] + s.m.waiters[1..];
      assert forall e :: e in t.m.waiters <==> e in s.m.waiters && e != h;
    }
    forall e | 0 <= e < |s.cos| ensures CoOk(t, e) {
      assert CoOk(s, c) && CoOk(s, e);
    }
  }

  lemma UnlockKeepsLock(s: World, c: nat)
    requires Inv(s) && Enabled(s, Unlock(c))
    ensures var t := DoUnlock(s, c); !t.fault && LockOk(t) && ReadyOk(t)
  {
    var t := DoUnlock(s, c);
    assert CoOk(s, c);
    if s.m.waiters != [] {
      var h := s.m.waiters[0];
      assert s.m.waiters == [h] + s.m.waiters[1..];
      assert CoOk(s, h);
    }
  }

  lemma AddReadyKeeps(s: World, c: nat)
    requires Inv(s) && Enabled(s, AddReady(c))
    ensures Inv(Apply(s, AddReady(c)))
  {
    var t := Apply(s, AddReady(c));
    assert CoOk(s, c);
    forall e | 0 <= e < |t.cos| ensures CoOk(t, e) {
      assert CoOk(s, e);
    }
    forall d | 0 <= d < |t.running| ensures SchedOk(t, d) {
      assert SchedOk(s, d);
    }
  }

  /** The owner found in the ready tasks is suspended: one not yet suspended would occupy its scheduler. */
  lemma RunReadyKeeps(s: World, d: nat)
    requires Inv(s) && Enabled(s, RunReady(d))
    ensures Inv(Apply(s, RunReady(d)))
  {
    var t := DoRunReady(s, d);
    var c := s.ready[d][0];
    assert s.ready[d] == [c];
    assert CoOk(s, c);
    forall e | 0 <= e < |t.cos| ensures CoOk(t, e) {
      assert CoOk(s, e);
    }
    forall e | 0 <= e < |t.running| ensures SchedOk(t, e) {
      assert SchedOk(s, e);
    }
  }

  lemma OtherKeeps(s: World, a: Action)
    requires Inv(s) && Enabled(s, a) && (a.Run? || a.Leave?)
    ensures Inv(Apply(s, a))
  {
    var t := Apply(s, a);
    forall e | 0 <= e < |t.cos| ensures CoOk(t, e) {
      assert CoOk(s, e);
    }
    forall d | 0 <= d < |t.running| ensures SchedOk(t, d) {
      assert SchedOk(s, d);
    }
  }

  lemma StepKeeps(s: World, a: Action)
    requires Inv(s) && Enabled(s, a)
    ensures Inv(Apply(s, a))
  {
    hide Inv, DoLock, DoUnlock, DoRunReady;
    match a
    case Lock(c) => LockKeeps(s, c);
    case TryLock(c) => LockKeeps(s, c);
    case Yield(c) => YieldKeeps(s, c);
    case Unlock(c) => UnlockKeeps(s, c);
    case AddReady(c) => AddReadyKeeps(s, c);
    case RunReady(d) => RunReadyKeeps(s, d);
    case Run(c) => OtherKeeps(s, a);
    case Leave(c) => OtherKeeps(s, a);
  }

  lemma {:induction false} RunKeeps(s: World, run: seq<Action>)
    requires Inv(s) && IsRun(s, run)
    ensures Inv(After(s, run))
    decreases |run|
  {
    hide Inv, Enabled, Apply;
    if run != [] {
      StepKeeps(s, run[0]);
      RunKeeps(Apply(s, run[0]), run[1..]);
    }
  }

  /** Whoever comes stands at the end of the line, and whoever gets the lock stood at its head. */
  lemma LineStep(s: World, a: Action)
    requires Inv(s) && Enabled(s, a)
    ensures Line(s) + Arrival(s, a) == Grant(s, a) + Line(Apply(s, a))
  {
    if a.AddReady? {
      assert CoOk(s, a.co);
    } else if a.RunReady? {
      RunReadyKeeps(s, a.sched);
    } else if a.Unlock? {
      assert CoOk(s, a.co);
    }
  }

  lemma {:induction false} LineRun(s: World, run: seq<Action>)
    requires Inv(s) && IsRun(s, run)
    ensures Line(s) + Arrivals(s, run) == Grants(s, run) + Line(After(s, run))
    decreases |run|
  {
    hide Inv, Enabled, Apply, Line, Arrival, Grant;
    if run != [] {
      StepKeeps(s, run[0]);
      LineStep(s, run[0]);
      var t := Apply(s, run[0]);
      LineRun(t, run[1..]);
      var a, g := Arrival(s, run[0]), Grant(s, run[0]);
      assert Line(s) + (a + Arrivals(t, run[1..])) == (Line(s) + a) + Arrivals(t, run[1..]);
      assert (g + Line(t)) + Arrivals(t, run[1..]) == g + (Line(t) + Arrivals(t, run[1..]));
      assert g + (Grants(t, run[1..]) + Line(After(s, run))) == (g + Grants(t, run[1..])) + Line(After(s, run));
    }
  }

  // ----- what every run has -----

  /** At most one coroutine believes to own the lock; a free lock has nobody waiting. */
  lemma MutualExclusion(s: World, run: seq<Action>)
    requires IsStart(s) && IsRun(s, run)
    ensures var t := After(s, run);
            && !t.fault
            && (forall c, e :: 0 <= c < |t.cos| && 0 <= e < |t.cos| && t.cos[c].phase == Owning && t.cos[e].phase == Owning ==> c == e)
            && (!t.m.lock ==> t.m.waiters == [] && forall c :: 0 <= c < |t.cos| ==> t.cos[c].phase != Owning && !Blocked(t.cos[c].phase))
  {
    StartInv(s);
    RunKeeps(s, run);
    var t := After(s, run);
    forall c | 0 <= c < |t.cos| ensures t.cos[c].phase == Owning ==> t.owner == Some(c) {
      assert CoOk(t, c);
    }
    if !t.m.lock {
      forall c | 0 <= c < |t.cos| ensures t.cos[c].phase != Owning && !Blocked(t.cos[c].phase) {
        assert CoOk(t, c);
      }
    }
  }

  /** Those who had to wait get the lock in the order of their arrival, each once for each arrival. */
  lemma FirstComeFirstServed(s: World, run: seq<Action>)
    requires IsStart(s) && IsRun(s, run)
    ensures var t := After(s, run);
            && Grants(s, run) <= Arrivals(s, run)
            && (t.flight != Landed ==> t.owner.Some?)
            && Arrivals(s, run)[|Grants(s, run)|..] == (if t.flight == Landed then [] else [t.owner.value]) + t.m.waiters
  {
    hide Inv, Apply, Enabled, Line, Arrivals, Grants;
    StartInv(s);
    RunKeeps(s, run);
    LineRun(s, run);
    StartLine(s);
    LineIs(After(s, run));
    assert [] + Arrivals(s, run) == Arrivals(s, run);
    Front(Grants(s, run), Line(After(s, run)), Arrivals(s, run));
  }

  lemma StartLine(s: World)
    requires IsStart(s)
    ensures Line(s) == []
  {
  }

  lemma LineIs(s: World)
    requires Inv(s)
    ensures s.flight != Landed ==> s.owner.Some?
    ensures Line(s) == (if s.flight == Landed then [] else [s.owner.value]) + s.m.waiters
  {
  }

  lemma Front(a: seq<nat>, b: seq<nat>, c: seq<nat>)
    requires c == a + b
    ensures a <= c && c[|a|..] == b
  {
  }

  /** A coroutine that called lock and has not got it is either in the queue, exactly once, while
      somebody owns the lock, or the owner itself with its wakeup under way: held by exactly one
      unlocking coroutine that runs, or once among the ready tasks of its own scheduler. */
  lemma NobodyIsForgotten(s: World, run: seq<Action>, c: nat)
    requires IsStart(s) && IsRun(s, run) && c < |After(s, run).cos| && Blocked(After(s, run).cos[c].phase)
    ensures var t := After(s, run);
            && t.m.lock && t.owner.Some? && t.owner.value < |t.cos| && t.cos[c].sched < |t.ready|
            && (c in t.m.waiters <==> t.owner != Some(c))
            && Distinct(t.m.waiters)
            && (t.owner == Some(c) ==>
                  (exists u :: 0 <= u < |t.cos| && t.cos[u].phase == Handing(c) && Running(t, u)) || t.ready[t.cos[c].sched] == [c])
  {
    StartInv(s);
    RunKeeps(s, run);
    var t := After(s, run);
    assert CoOk(t, c);
    if t.owner == Some(c) && t.flight.HeldBy? {
      var u := t.flight.co;
      assert CoOk(t, u);
    }
  }

  /** Whoever calls lock or try_lock while the lock is free owns it at once; while it is taken, lock joins the
      end of the line and try_lock does nothing. */
  lemma CallsAnswered(s: World, c: nat)
    requires Inv(s) && RunningIn(s, c, Outside)
    ensures !s.m.lock ==> Apply(s, Lock(c)).cos[c].phase == Owning && Apply(s, TryLock(c)).cos[c].phase == Owning
    ensures s.m.lock ==> Line(Apply(s, Lock(c))) == Line(s) + [c] && Apply(s, TryLock(c)) == s
  {
    if s.m.lock {
      LineStep(s, Lock(c));
    }
  }

  // ----- the lock comes to everybody who waits -----

  /** Neither lock nor try_lock is called. */
  predicate NoNewcomer(run: seq<Action>) {
    forall i :: 0 <= i < |run| ==> !run[i].Lock? && !run[i].TryLock?
  }

  /** How the coroutine that runs on a scheduler leaves it. */
  function GiveWay(s: World, e: nat): Action
    requires e < |s.cos|
  {
    if s.cos[e].phase == Pushed then Yield(e) else Leave(e)
  }

  /** What brings the lock on: its wakeup, or the owner's unlock. */
  function BringOn(s: World): Action {
    match s.flight
    case HeldBy(u) => AddReady(u)
    case ReadyAt(d) =>
      if d < |s.running| && s.running[d].Some? && s.running[d].value < |s.cos| then GiveWay(s, s.running[d].value) else RunReady(d)
    case Landed =>
      if s.owner.None? || s.owner.value >= |s.cos| || s.cos[s.owner.value].sched >= |s.running| then Run(0)
      else
        var h := s.owner.value;
        match s.running[s.cos[h].sched]
        case None => Run(h)
        case Some(e) => if e == h then Unlock(h) else if e < |s.cos| then GiveWay(s, e) else Run(h)
  }

  function Stage(s: World): nat {
    match s.flight
    case HeldBy(_) => 3
    case ReadyAt(d) => if d < |s.running| && s.running[d].Some? then 2 else 1
    case Landed =>
      if s.owner.None? || s.owner.value >= |s.cos| || s.cos[s.owner.value].sched >= |s.running| then 0
      else
        match s.running[s.cos[s.owner.value].sched]
        case None => 5
        case Some(e) => if e == s.owner.value then 4 else 6
  }

  lemma BringsOn(s: World)
    requires Inv(s) && Line(s) != []
    ensures var a := BringOn(s);
            && Enabled(s, a) && !a.Lock? && !a.TryLock?
            && (!a.RunReady? ==> Line(Apply(s, a)) == Line(s) && Stage(Apply(s, a)) < Stage(s))
            && (a.RunReady? ==> s.ready[a.sched] == [Line(s)[0]])
  {
    var a, h := BringOn(s), s.owner.value;
    assert CoOk(s, h);
    match s.flight
    case HeldBy(u) =>
      assert CoOk(s, u);
    case ReadyAt(d) =>
      assert SchedOk(s, d);
      if s.running[d].Some? {
        assert CoOk(s, s.running[d].value);
      }
    case Landed =>
      var d := s.cos[h].sched;
      assert SchedOk(s, d);
      if s.running[d].Some? {
        assert CoOk(s, s.running[d].value);
      }
  }

  lemma GrantOwns(s: World, d: nat)
    requires Inv(s) && Enabled(s, RunReady(d))
    ensures var c, t := s.ready[d][0], Apply(s, RunReady(d)); c < |t.cos| && t.cos[c].phase == Owning
  {
    RunReadyKeeps(s, d);
    assert s.owner.Some? && CoOk(s, s.owner.value);
  }

  lemma Prepend(s: World, a: Action, rest: seq<Action>)
    requires Enabled(s, a) && !a.Lock? && !a.TryLock? && IsRun(Apply(s, a), rest) && NoNewcomer(rest)
    ensures IsRun(s, [a] + rest) && After(s, [a] + rest) == After(Apply(s, a), rest) && NoNewcomer([a] + rest)
  {
    hide Enabled, Apply;
    assert ([a] + rest)[1..] == rest;
  }

  /** The i-th in line gets the lock when those before it have had it. */
  lemma {:induction false} LockComes(s: World, i: nat) returns (run: seq<Action>)
    requires Inv(s) && i < |Line(s)|
    ensures IsRun(s, run) && NoNewcomer(run) && Inv(After(s, run)) && Line(After(s, run)) == Line(s)[i + 1..]
    ensures Line(s)[i] < |After(s, run).cos| && After(s, run).cos[Line(s)[i]].phase == Owning
    decreases i, Stage(s)
  {
    hide Inv, Enabled, Apply, Line, Stage, BringOn;
    BringsOn(s);
    var a := BringOn(s);
    StepKeeps(s, a);
    var t := Apply(s, a);
    if !a.RunReady? {
      run := LockComes(t, i);
    } else {
      LineStep(s, a);
      GrantOwns(s, a.sched);
      NobodyComes(s, a);
      assert Line(s) == [Line(s)[0]] + Line(t);
      assert Line(t) == Line(s)[1..];
      if i == 0 {
        run := [];
        assert After(t, run) == t;
      } else {
        run := LockComes(t, i - 1);
        assert Line(t)[i - 1] == Line(s)[i] && Line(t)[i..] == Line(s)[i + 1..];
      }
    }
    Prepend(s, a, run);
    run := [a] + run;
  }

  lemma NobodyComes(s: World, a: Action)
    requires Enabled(s, a) && a.RunReady?
    ensures Line(s) + Arrival(s, a) == Line(s) && Grant(s, a) == [s.ready[a.sched][0]]
  {
    hide Line;
  }

  /** Whoever waits for the lock can get it: if nobody else comes, the owners before it unlock, and so does
      everybody in line after them, it is resumed as the owner. */
  lemma EverybodyGetsIt(s: World, run: seq<Action>, c: nat) returns (more: seq<Action>)
    requires IsStart(s) && IsRun(s, run) && c < |After(s, run).cos| && Blocked(After(s, run).cos[c].phase)
    ensures var t := After(s, run);
            && IsRun(t, more) && NoNewcomer(more) && c < |After(t, more).cos| && After(t, more).cos[c].phase == Owning
  {
    hide Inv, Enabled, Apply, Line;
    StartInv(s);
    RunKeeps(s, run);
    var t := After(s, run);
    var i := PlaceInLine(t, c);
    more := LockComes(t, i);
  }

  lemma PlaceInLine(s: World, c: nat) returns (i: nat)
    requires Inv(s) && c < |s.cos| && Blocked(s.cos[c].phase)
    ensures i < |Line(s)| && Line(s)[i] == c
  {
    assert CoOk(s, c);
    assert c in Line(s);
    i :| i < |Line(s)| && Line(s)[i] == c;
  }
}
