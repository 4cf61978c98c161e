/**
 * The race between co::Event::signal and the timer checker
 * (src/co/impl/co.cc:33-103, src/co/impl/scheduler.cc:135-158 and 167-187).
 *
 * A machine over any number of schedulers, coroutines, events and signalling threads. One step
 * is one access to data another thread can see, or a stretch of scheduler-local work. What
 * travels through the containers is the entry (co, timer id) of one wait, so the state keeps
 * for every wait where its entry is and where its timer is; a timer id is the number of its wait.
 */
module EventRace {
  import opened Common

  /** _CoState. */
  datatype CoState = S_init | S_wait | S_ready

  datatype Kind = Event(ev: nat, timed: bool) | Sleep

  /** Where the entry of a wait is. Detached: in the local map of a signal that has not visited it yet. */
  datatype Entry = Outside | Waiting | Detached | Claimed | Queued | Drained | Gone

  /** Where the timer is: in the multimap, in the list of timed-out coroutines, or removed and done with. */
  datatype Timer = NoTimer | Armed | Due | Spent

  datatype Winner = Nobody | Signaller | Checker

  datatype Wait = Wait(co: nat, kind: Kind, entry: Entry, timer: Timer, winner: Winner,
                       resumes: nat, removals: nat, result: Option<bool>)

  datatype Phase = Idle | Entered | Inserted | Parked | Back(timeout: bool) | Erased

  /** `wait` is the latest wait of the coroutine, -1 before the first. */
  datatype Coroutine = Coroutine(sched: nat, state: CoState, phase: Phase, wait: int)

  /** The part of Scheduler::loop the scheduler is in; _timeout is set exactly in Timeouts. */
  datatype Mode = Polling | Tasks | Checking | Timeouts

  datatype Sched = Sched(running: Option<nat>, mode: Mode)

  /** `fault`: a dead timer was erased or a coroutine resumed that is not suspended;
      `misdelivered`: a signal changed the state of a coroutine on behalf of an earlier wait. */
  datatype World = World(cos: seq<Coroutine>, waits: seq<Wait>, scheds: seq<Sched>,
                         fault: bool, misdelivered: bool)

  predicate Timed(k: Kind) {
    k.Sleep? || k.timed
  }

  datatype Action =
    | Begin(co: nat, kind: Kind)
    | Insert(co: nat)
    | Yield(co: nat)
    | Swap(ev: nat)
    | Visit(w: nat)
    | Enqueue(w: nat)
    | GetTasks(sd: nat)
    | RunReady(w: nat)
    | StartCheck(sd: nat)
    | CheckTimer(w: nat)
    | EndCheck(sd: nat)
    | RunTimedOut(w: nat)
    | EndLoop(sd: nat)
    | EraseSelf(co: nat)
    | Return(co: nat)
    | RunOther(co: nat)
    | LeaveOther(co: nat)

  // ----- guards -----

  predicate Running(s: World, c: nat)
    requires c < |s.cos|
  {
    var sd := s.cos[c].sched;
    sd < |s.scheds| && s.scheds[sd].running == Some(c)
  }

  /** The scheduler runs its own loop, in mode m. */
  predicate InLoop(s: World, sd: nat, m: Mode) {
    sd < |s.scheds| && s.scheds[sd] == Sched(None, m)
  }

  predicate OwnerInLoop(s: World, w: nat, m: Mode) {
    w < |s.waits| && s.waits[w].co < |s.cos| && InLoop(s, s.cos[s.waits[w].co].sched, m)
  }

  predicate BelongsTo(s: World, w: nat, sd: nat)
    requires w < |s.waits|
  {
    s.waits[w].co < |s.cos| && s.cos[s.waits[w].co].sched == sd
  }

  predicate CurrentIs(s: World, c: nat, p: Phase) {
    c < |s.cos| && s.cos[c].phase == p && Running(s, c) && (p != Idle ==> 0 <= s.cos[c].wait < |s.waits|)
  }

  predicate MayReturn(s: World, c: nat)
    requires c < |s.cos| && 0 <= s.cos[c].wait < |s.waits|
  {
    match s.cos[c].phase
    case Back(t) => s.waits[s.cos[c].wait].kind.Sleep? || !t || !s.waits[s.cos[c].wait].kind.timed
    case Erased => true
    case _ => false
  }

  predicate Enabled(s: World, a: Action) {
    match a
    case Begin(c, _) => CurrentIs(s, c, Idle)
    case Insert(c) => CurrentIs(s, c, Entered)
    case Yield(c) => CurrentIs(s, c, Inserted)
    case Swap(ev) => true
    case Visit(w) => w < |s.waits| && s.waits[w].co < |s.cos| && s.waits[w].entry == Detached
    case Enqueue(w) => w < |s.waits| && s.waits[w].entry == Claimed
    case GetTasks(sd) => InLoop(s, sd, Polling)
    case RunReady(w) => OwnerInLoop(s, w, Tasks) && s.waits[w].entry == Drained
    case StartCheck(sd) => InLoop(s, sd, Tasks) &&
      forall w :: 0 <= w < |s.waits| && BelongsTo(s, w, sd) ==> s.waits[w].entry != Drained
    case CheckTimer(w) => OwnerInLoop(s, w, Checking) && s.waits[w].timer == Armed
    case EndCheck(sd) => InLoop(s, sd, Checking)
    case RunTimedOut(w) => OwnerInLoop(s, w, Timeouts) && s.waits[w].timer == Due
    case EndLoop(sd) => InLoop(s, sd, Timeouts) &&
      forall w :: 0 <= w < |s.waits| && BelongsTo(s, w, sd) ==> s.waits[w].timer != Due
    case EraseSelf(c) => CurrentIs(s, c, Back(true)) && s.waits[s.cos[c].wait].kind.Event? && s.waits[s.cos[c].wait].kind.timed
    case Return(c) => c < |s.cos| && Running(s, c) && 0 <= s.cos[c].wait < |s.waits| && MayReturn(s, c)
    case RunOther(c) => c < |s.cos| && s.cos[c].phase == Idle && s.cos[c].sched < |s.scheds| &&
      s.scheds[s.cos[c].sched].running.None?
    case LeaveOther(c) => CurrentIs(s, c, Idle)
  }

  // ----- effects -----

  function SetCo(s: World, c: nat, x: Coroutine): World
    requires c < |s.cos|
  {
    s.(cos := s.cos[c := x])
  }

  function SetWait(s: World, w: nat, x: Wait): World
    requires w < |s.waits|
  {
    s.(waits := s.waits[w := x])
  }

  function SetRunning(s: World, sd: nat, r: Option<nat>): World
    requires sd < |s.scheds|
  {
    s.(scheds := s.scheds[sd := s.scheds[sd].(running := r)])
  }

  function SetMode(s: World, sd: nat, m: Mode): World
    requires sd < |s.scheds|
  {
    s.(scheds := s.scheds[sd := s.scheds[sd].(mode := m)])
  }

  /** Scheduler::resume as the waits see it: the suspended wait goes on. */
  function Resume(s: World, c: nat): World
    requires c < |s.cos| && s.cos[c].sched < |s.scheds|
  {
    var x := s.cos[c];
    if x.phase == Parked && 0 <= x.wait < |s.waits| then
      var v := s.waits[x.wait];
      SetRunning(SetWait(SetCo(s, c, x.(phase := Back(s.scheds[x.sched].mode == Timeouts))),
                         x.wait, v.(resumes := v.resumes + 1)), x.sched, Some(c))
    else
      s.(fault := true)
  }

  /** state = S_wait, then add_timer. A sleeping coroutine keeps its state and goes on to yield. */
  function DoBegin(s: World, c: nat, k: Kind): World
    requires Enabled(s, Begin(c, k))
  {
    var v := Wait(c, k, Outside, if Timed(k) then Armed else NoTimer, Nobody, 0, 0, None);
    var x := s.cos[c];
    var y := if k.Sleep? then x.(phase := Inserted, wait := |s.waits|)
             else x.(state := S_wait, phase := Entered, wait := |s.waits|);
    SetCo(s, c, y).(waits := s.waits + [v])
  }

  function DoSwap(s: World, ev: nat): World {
    s.(waits := seq(|s.waits|, (i: nat) requires i < |s.waits| =>
      if s.waits[i].entry == Waiting && s.waits[i].kind.Event? && s.waits[i].kind.ev == ev
      then s.waits[i].(entry := Detached) else s.waits[i]))
  }

  /** The compare-and-swap S_wait -> S_ready. */
  function DoVisit(s: World, w: nat): World
    requires Enabled(s, Visit(w))
  {
    var c := s.waits[w].co;
    if s.cos[c].state == S_wait then
      SetCo(SetWait(s, w, s.waits[w].(entry := Claimed, winner := Signaller)), c, s.cos[c].(state := S_ready))
        .(misdelivered := s.misdelivered || s.cos[c].wait != w)
    else
      SetWait(s, w, s.waits[w].(entry := Gone))
  }

  /** The map of ready timer tasks takes one entry per coroutine; a second insertion does nothing. */
  predicate AlreadyQueued(s: World, w: nat)
    requires w < |s.waits|
  {
    Timed(s.waits[w].kind) &&
    exists u :: 0 <= u < |s.waits| && u != w && s.waits[u].entry == Queued && Timed(s.waits[u].kind) && s.waits[u].co == s.waits[w].co
  }

  function DoGetTasks(s: World, sd: nat): World
    requires Enabled(s, GetTasks(sd))
  {
    SetMode(s, sd, Tasks).(waits := seq(|s.waits|, (i: nat) requires i < |s.waits| =>
      if s.waits[i].entry == Queued && BelongsTo(s, i, sd) then s.waits[i].(entry := Drained) else s.waits[i]))
  }

  /** Delete the timer if the state is still S_ready, then resume. */
  function DoRunReady(s: World, w: nat): World
    requires Enabled(s, RunReady(w))
  {
    var v := s.waits[w].(entry := Gone);
    var c := v.co;
    if Timed(v.kind) && s.cos[c].state == S_ready then
      if v.timer == Armed then
        Resume(SetWait(s, w, v.(timer := Spent, removals := v.removals + 1)), c)
      else
        SetWait(s, w, v).(fault := true)
    else
      Resume(SetWait(s, w, v), c)
  }

  /** One round of the loop of check_timeout, with the erase of this timer. */
  function DoCheckTimer(s: World, w: nat): World
    requires Enabled(s, CheckTimer(w))
  {
    var v := s.waits[w].(removals := s.waits[w].removals + 1);
    var c := v.co;
    match s.cos[c].state
    case S_init => SetWait(s, w, v.(timer := Due))
    case S_wait => SetCo(SetWait(s, w, v.(timer := Due, winner := Checker)), c, s.cos[c].(state := S_init))
    case S_ready => SetCo(SetWait(s, w, v.(timer := Spent)), c, s.cos[c].(state := S_init))
  }

  function DoReturn(s: World, c: nat): World
    requires Enabled(s, Return(c))
  {
    var x := s.cos[c];
    var v := s.waits[x.wait];
    if v.kind.Sleep? then SetCo(s, c, x.(phase := Idle))
    else SetCo(SetWait(s, x.wait, v.(result := Some(!x.phase.Erased?))), c, x.(phase := Idle, state := S_init))
  }

  function Apply(s: World, a: Action): World
    requires Enabled(s, a)
  {
    match a
    case Begin(c, k) => DoBegin(s, c, k)
    case Insert(c) =>
      var w := s.cos[c].wait;
      SetCo(SetWait(s, w, s.waits[w].(entry := Waiting)), c, s.cos[c].(phase := Inserted))
    case Yield(c) => SetRunning(SetCo(s, c, s.cos[c].(phase := Parked)), s.cos[c].sched, None)
    case Swap(ev) => DoSwap(s, ev)
    case Visit(w) => DoVisit(s, w)
    case Enqueue(w) => SetWait(s, w, s.waits[w].(entry := if AlreadyQueued(s, w) then Gone else Queued))
    case GetTasks(sd) => DoGetTasks(s, sd)
    case RunReady(w) => DoRunReady(s, w)
    case StartCheck(sd) => SetMode(s, sd, Checking)
    case CheckTimer(w) => DoCheckTimer(s, w)
    case EndCheck(sd) => SetMode(s, sd, Timeouts)
    case RunTimedOut(w) => Resume(SetWait(s, w, s.waits[w].(timer := Spent)), s.waits[w].co)
    case EndLoop(sd) => SetMode(s, sd, Polling)
    case EraseSelf(c) =>
      var w := s.cos[c].wait;
      var v := s.waits[w];
      SetCo(SetWait(s, w, if v.entry == Waiting then v.(entry := Gone) else v), c, s.cos[c].(phase := Erased))
    case Return(c) => DoReturn(s, c)
    case RunOther(c) => SetRunning(s, s.cos[c].sched, Some(c))
    case LeaveOther(c) => SetRunning(s, s.cos[c].sched, None)
  }

  // ----- runs -----

  /** No wait on an event starts while a signal still holds an unvisited entry of the coroutine. */
  predicate Disciplined(s: World, a: Action) {
    a.Begin? && a.kind.Event? ==>
      forall w :: 0 <= w < |s.waits| && s.waits[w].co == a.co ==> s.waits[w].entry != Detached
  }

  predicate IsStart(s: World) {
    && s.waits == [] && !s.fault && !s.misdelivered
    && (forall c :: 0 <= c < |s.cos| ==> s.cos[c].sched < |s.scheds| && s.cos[c] == Coroutine(s.cos[c].sched, S_init, Idle, -1))
    && (forall d :: 0 <= d < |s.scheds| ==> s.scheds[d] == Sched(None, Polling))
  }

  /** A run: each action is enabled and keeps the discipline. */
  predicate IsRun(s: World, run: seq<Action>)
    decreases |run|
  {
    run == [] || (Enabled(s, run[0]) && Disciplined(s, run[0]) && IsRun(Apply(s, run[0]), run[1..]))
  }

  function After(s: World, run: seq<Action>): World
    requires IsRun(s, run)
    decreases |run|
  {
    if run == [] then s else After(Apply(s, run[0]), run[1..])
  }

  // ----- the invariant, wait by wait -----

  /** Nothing has happened to the wait yet. */
  predicate Fresh(v: Wait) {
    && v.resumes == 0 && v.removals == 0 && v.result == None && v.winner == Nobody
    && v.timer == (if Timed(v.kind) then Armed else NoTimer)
  }

  /** The latest wait of a coroutine, suspended or about to be. */
  predicate PendingOk(x: Coroutine, v: Wait) {
    && v.resumes == 0 && v.result == None
    && match v.kind
       case Sleep => x.state == S_init && v.entry == Outside && v.winner == Nobody &&
                     ((v.timer == Armed && v.removals == 0) || (v.timer == Due && v.removals == 1 && x.phase == Parked))
       case Event(_, timed) =>
         || (v.entry in {Waiting, Detached} && x.state == S_wait && Fresh(v))
         || (v.entry in {Claimed, Queued, Drained} && v.winner == Signaller && x.state == S_ready && v.removals == 0 &&
             v.timer == (if timed then Armed else NoTimer))
         || (v.entry in {Claimed, Queued, Drained} && v.winner == Signaller && x.state == S_init && v.removals == 1 &&
             timed && v.timer == Spent && x.phase == Parked)
         || (v.entry in {Waiting, Detached, Gone} && v.winner == Checker && x.state == S_init && v.removals == 1 &&
             timed && v.timer == Due && x.phase == Parked)
  }

  /** Resumed once, its timer removed once, the answer decided by the winner. */
  predicate ResumedOk(v: Wait) {
    && v.resumes == 1
    && v.removals == (if Timed(v.kind) then 1 else 0)
    && v.timer == (if Timed(v.kind) then Spent else NoTimer)
    && match v.kind
       case Sleep => v.entry == Outside && v.winner == Nobody
       case Event(_, timed) => (v.winner == Signaller && v.entry == Gone) ||
                               (v.winner == Checker && timed && v.entry in {Waiting, Detached, Gone})
  }

  predicate DoneOk(v: Wait) {
    && ResumedOk(v) && v.entry != Waiting
    && v.result == (if v.kind.Sleep? then None else Some(v.winner == Signaller))
  }

  /** The latest wait v of x. */
  predicate LatestOk(x: Coroutine, v: Wait) {
    match x.phase
    case Idle => DoneOk(v) && x.state == S_init
    case Entered => v.kind.Event? && v.entry == Outside && x.state == S_wait && Fresh(v)
    case Inserted => PendingOk(x, v)
    case Parked => PendingOk(x, v)
    case Back(t) => ResumedOk(v) && v.result == None && (t <==> v.kind.Sleep? || v.winner == Checker) &&
                    (t ==> x.state == S_init)
    case Erased => ResumedOk(v) && v.result == None && v.winner == Checker && v.entry != Waiting && x.state == S_init
  }

  /** An earlier wait than the latest wait u of x. */
  predicate EarlierOk(x: Coroutine, v: Wait, u: Wait) {
    DoneOk(v) && (v.entry == Detached ==> x.state == S_init && u.kind.Sleep?)
  }

  predicate WaitOk(s: World, w: nat)
    requires w < |s.waits|
  {
    var v := s.waits[w];
    && v.co < |s.cos|
    && w <= s.cos[v.co].wait < |s.waits|
    && (if s.cos[v.co].wait == w then LatestOk(s.cos[v.co], v) else EarlierOk(s.cos[v.co], v, s.waits[s.cos[v.co].wait]))
  }

  /** A coroutine between entering and yielding, or back from it, occupies its scheduler. */
  predicate CoOk(s: World, c: nat)
    requires c < |s.cos|
  {
    var x := s.cos[c];
    && x.sched < |s.scheds| && -1 <= x.wait < |s.waits|
    && (x.wait >= 0 ==> s.waits[x.wait].co == c)
    && (x.wait < 0 ==> x.phase == Idle && x.state == S_init)
    && (x.phase !in {Idle, Parked} ==> Running(s, c))
    && (x.phase == Parked ==> !Running(s, c))
  }

  /** The running coroutine belongs to the scheduler. */
  predicate SchedOk(s: World, d: nat)
    requires d < |s.scheds|
  {
    s.scheds[d].running.Some? ==> s.scheds[d].running.value < |s.cos| && s.cos[s.scheds[d].running.value].sched == d
  }

  ghost predicate Inv(s: World) {
    && !s.fault && !s.misdelivered
    && (forall c :: 0 <= c < |s.cos| ==> CoOk(s, c))
    && (forall d :: 0 <= d < |s.scheds| ==> SchedOk(s, d))
    && (forall w :: 0 <= w < |s.waits| ==> WaitOk(s, w))
  }

  lemma StartInv(s: World)
    requires IsStart(s)
    ensures Inv(s)
  {
  }

  // ----- every step keeps the invariant -----

  /** A step that changes one coroutine, its latest wait and who runs on its scheduler. */
  predicate Local(s: World, t: World, c: nat) {
    && c < |s.cos| && 0 <= s.cos[c].wait < |s.waits| && s.cos[c].sched < |s.scheds|
    && |t.cos| == |s.cos| && |t.scheds| == |s.scheds| && |t.waits| == |s.waits|
    && t.cos[c].sched == s.cos[c].sched && t.cos[c].wait == s.cos[c].wait
    && !t.fault && !t.misdelivered
    && (forall e :: 0 <= e < |s.cos| && e != c ==> t.cos[e] == s.cos[e])
    && (forall w :: 0 <= w < |s.waits| && w != s.cos[c].wait ==> t.waits[w] == s.waits[w])
    && (forall d :: 0 <= d < |s.scheds| && d != s.cos[c].sched ==> t.scheds[d] == s.scheds[d])
  }

  lemma LocalStep(s: World, t: World, c: nat)
    requires Inv(s) && Local(s, t, c)
    requires t.waits[s.cos[c].wait].co == c && LatestOk(t.cos[c], t.waits[s.cos[c].wait])
    requires t.waits[s.cos[c].wait].kind == s.waits[s.cos[c].wait].kind
    requires t.cos[c].state == S_init || s.cos[c].state != S_init
    requires var r0, r := s.scheds[s.cos[c].sched].running, t.scheds[s.cos[c].sched].running;
             && (t.cos[c].phase !in {Idle, Parked} ==> r == Some(c)) && (t.cos[c].phase == Parked ==> r != Some(c))
             && (r == r0 || (r == Some(c) && r0 == None) || (r == None && r0 == Some(c)))
    ensures Inv(t)
  {
    hide LatestOk, DoneOk;
    forall w | 0 <= w < |t.waits| ensures WaitOk(t, w) {
      assert WaitOk(s, w);
    }
    assert CoOk(s, c);
    forall e | 0 <= e < |t.cos| ensures CoOk(t, e) {
      assert CoOk(s, e);
      if e != c && s.cos[e].sched == s.cos[c].sched {
        assert Running(s, e) ==> Running(t, e);
      }
      if e != c && s.cos[e].wait >= 0 {
        assert s.cos[e].wait != s.cos[c].wait;
      }
    }
    forall d | 0 <= d < |t.scheds| ensures SchedOk(t, d) {
      assert SchedOk(s, d);
    }
  }

  /** A wait in use is the latest one of its coroutine. */
  lemma InUseIsLatest(s: World, w: nat)
    requires Inv(s) && w < |s.waits|
    requires s.waits[w].entry in {Waiting, Claimed, Queued, Drained} || s.waits[w].timer in {Armed, Due}
    ensures s.waits[w].co < |s.cos| && s.cos[s.waits[w].co].wait == w
    ensures CoOk(s, s.waits[w].co) && LatestOk(s.cos[s.waits[w].co], s.waits[w])
  {
    assert WaitOk(s, w);
    assert CoOk(s, s.waits[w].co);
  }

  /** In its own loop a scheduler finds a coroutine in use suspended. */
  lemma InUseIsParked(s: World, w: nat, m: Mode)
    requires Inv(s) && OwnerInLoop(s, w, m)
    requires s.waits[w].entry in {Claimed, Queued, Drained} || s.waits[w].timer in {Armed, Due}
    ensures s.cos[s.waits[w].co].wait == w && s.cos[s.waits[w].co].phase == Parked
    ensures CoOk(s, s.waits[w].co) && PendingOk(s.cos[s.waits[w].co], s.waits[w])
  {
    InUseIsLatest(s, w);
  }

  lemma InsertKeeps(s: World, c: nat)
    requires Inv(s) && Enabled(s, Insert(c))
    ensures Inv(Apply(s, Insert(c)))
  {
    assert CoOk(s, c) && WaitOk(s, s.cos[c].wait);
    LocalStep(s, Apply(s, Insert(c)), c);
  }

  lemma YieldKeeps(s: World, c: nat)
    requires Inv(s) && Enabled(s, Yield(c))
    ensures Inv(Apply(s, Yield(c)))
  {
    assert CoOk(s, c) && WaitOk(s, s.cos[c].wait);
    LocalStep(s, Apply(s, Yield(c)), c);
  }

  lemma EraseSelfKeeps(s: World, c: nat)
    requires Inv(s) && Enabled(s, EraseSelf(c))
    ensures Inv(Apply(s, EraseSelf(c)))
  {
    assert CoOk(s, c) && WaitOk(s, s.cos[c].wait);
    LocalStep(s, Apply(s, EraseSelf(c)), c);
  }

  lemma ReturnKeeps(s: World, c: nat)
    requires Inv(s) && Enabled(s, Return(c))
    ensures Inv(Apply(s, Return(c)))
  {
    assert CoOk(s, c) && WaitOk(s, s.cos[c].wait);
    LocalStep(s, Apply(s, Return(c)), c);
  }

  lemma EnqueueKeeps(s: World, w: nat)
    requires Inv(s) && Enabled(s, Enqueue(w))
    ensures Inv(Apply(s, Enqueue(w)))
  {
    InUseIsLatest(s, w);
    forall u | 0 <= u < |s.waits| && u != w && s.waits[u].entry == Queued ensures s.waits[u].co != s.waits[w].co {
      InUseIsLatest(s, u);
    }
    assert !AlreadyQueued(s, w);
    LocalStep(s, Apply(s, Enqueue(w)), s.waits[w].co);
  }

  lemma RunReadyKeeps(s: World, w: nat)
    requires Inv(s) && Enabled(s, RunReady(w))
    ensures Inv(Apply(s, RunReady(w)))
  {
    InUseIsParked(s, w, Tasks);
    LocalStep(s, Apply(s, RunReady(w)), s.waits[w].co);
  }

  lemma CheckTimerKeeps(s: World, w: nat)
    requires Inv(s) && Enabled(s, CheckTimer(w))
    ensures Inv(Apply(s, CheckTimer(w)))
  {
    InUseIsParked(s, w, Checking);
    LocalStep(s, Apply(s, CheckTimer(w)), s.waits[w].co);
  }

  lemma RunTimedOutKeeps(s: World, w: nat)
    requires Inv(s) && Enabled(s, RunTimedOut(w))
    ensures Inv(Apply(s, RunTimedOut(w)))
  {
    InUseIsParked(s, w, Timeouts);
    LocalStep(s, Apply(s, RunTimedOut(w)), s.waits[w].co);
  }

  /** A visit that finds S_wait finds the very wait whose entry was detached. */
  lemma VisitKeeps(s: World, w: nat)
    requires Inv(s) && Enabled(s, Visit(w))
    ensures Inv(Apply(s, Visit(w)))
  {
    var c := s.waits[w].co;
    assert WaitOk(s, w) && CoOk(s, c);
    if s.cos[c].wait == w {
      LocalStep(s, Apply(s, Visit(w)), c);
    } else {
      WaitsStep(s, Apply(s, Visit(w)));
    }
  }

  /** A step that only moves entries of waits whose coroutines do not change. */
  lemma WaitsStep(s: World, t: World)
    requires Inv(s) && t == s.(waits := t.waits, scheds := t.scheds)
    requires |t.waits| == |s.waits| && |t.scheds| == |s.scheds|
    requires forall d :: 0 <= d < |s.scheds| ==> t.scheds[d].running == s.scheds[d].running
    requires forall w :: 0 <= w < |s.waits| ==> t.waits[w] == s.waits[w].(entry := t.waits[w].entry)
    requires forall w :: 0 <= w < |s.waits| && t.waits[w].entry != s.waits[w].entry ==>
               (s.waits[w].entry, t.waits[w].entry) in {(Waiting, Detached), (Queued, Drained)} ||
               (t.waits[w].entry == Gone && s.waits[w].entry == Detached && s.waits[w].co < |s.cos| && s.cos[s.waits[w].co].wait != w)
    ensures Inv(t)
  {
    forall w | 0 <= w < |t.waits| ensures WaitOk(t, w) {
      assert WaitOk(s, w);
    }
    forall e | 0 <= e < |t.cos| ensures CoOk(t, e) {
      assert CoOk(s, e);
    }
    forall d | 0 <= d < |t.scheds| ensures SchedOk(t, d) {
      assert SchedOk(s, d);
    }
  }

  lemma SwapKeeps(s: World, ev: nat)
    requires Inv(s)
    ensures Inv(Apply(s, Swap(ev)))
  {
    WaitsStep(s, DoSwap(s, ev));
  }

  lemma GetTasksKeeps(s: World, sd: nat)
    requires Inv(s) && Enabled(s, GetTasks(sd))
    ensures Inv(Apply(s, GetTasks(sd)))
  {
    WaitsStep(s, DoGetTasks(s, sd));
  }

  lemma ModeKeeps(s: World, sd: nat, m: Mode)
    requires Inv(s) && sd < |s.scheds|
    ensures Inv(SetMode(s, sd, m))
  {
    WaitsStep(s, SetMode(s, sd, m));
  }

  lemma OtherKeeps(s: World, c: nat)
    requires Inv(s) && c < |s.cos| && s.cos[c].phase == Idle && s.cos[c].sched < |s.scheds|
    ensures s.scheds[s.cos[c].sched].running == None ==> Inv(SetRunning(s, s.cos[c].sched, Some(c)))
    ensures s.scheds[s.cos[c].sched].running == Some(c) ==> Inv(SetRunning(s, s.cos[c].sched, None))
  {
    assert CoOk(s, c);
    var sd, r := s.cos[c].sched, s.scheds[s.cos[c].sched].running;
    if r == None || r == Some(c) {
      var t := SetRunning(s, sd, if r == None then Some(c) else None);
      forall w | 0 <= w < |t.waits| ensures WaitOk(t, w) {
        assert WaitOk(s, w);
      }
      forall e | 0 <= e < |t.cos| ensures CoOk(t, e) {
        assert CoOk(s, e);
        assert e != c && Running(s, e) ==> s.cos[e].sched != sd;
      }
      forall d | 0 <= d < |t.scheds| ensures SchedOk(t, d) {
        assert SchedOk(s, d);
      }
    }
  }

  lemma BeginKeeps(s: World, c: nat, k: Kind)
    requires Inv(s) && Enabled(s, Begin(c, k)) && Disciplined(s, Begin(c, k))
    ensures Inv(Apply(s, Begin(c, k)))
  {
    var t := DoBegin(s, c, k);
    assert CoOk(s, c) && (s.cos[c].wait >= 0 ==> WaitOk(s, s.cos[c].wait));
    forall w | 0 <= w < |t.waits| ensures WaitOk(t, w) {
      if w < |s.waits| {
        assert WaitOk(s, w);
      }
    }
    forall e | 0 <= e < |t.cos| ensures CoOk(t, e) {
      assert CoOk(s, e);
    }
    forall d | 0 <= d < |t.scheds| ensures SchedOk(t, d) {
      assert SchedOk(s, d);
    }
  }

  lemma StepKeeps(s: World, a: Action)
    requires Inv(s) && Enabled(s, a) && Disciplined(s, a)
    ensures Inv(Apply(s, a))
  {
    hide Inv, Disciplined, DoBegin, DoSwap, DoVisit, DoGetTasks, DoRunReady, DoCheckTimer, DoReturn, Resume, AlreadyQueued;
    match a
    case Begin(c, k) => BeginKeeps(s, c, k);
    case Insert(c) => InsertKeeps(s, c);
    case Yield(c) => YieldKeeps(s, c);
    case Swap(ev) => SwapKeeps(s, ev);
    case Visit(w) => VisitKeeps(s, w);
    case Enqueue(w) => EnqueueKeeps(s, w);
    case GetTasks(sd) => GetTasksKeeps(s, sd);
    case RunReady(w) => RunReadyKeeps(s, w);
    case StartCheck(sd) => ModeKeeps(s, sd, Checking);
    case CheckTimer(w) => CheckTimerKeeps(s, w);
    case EndCheck(sd) => ModeKeeps(s, sd, Timeouts);
    case RunTimedOut(w) => RunTimedOutKeeps(s, w);
    case EndLoop(sd) => ModeKeeps(s, sd, Polling);
    case EraseSelf(c) => EraseSelfKeeps(s, c);
    case Return(c) => ReturnKeeps(s, c);
    case RunOther(c) => OtherKeeps(s, c);
    case LeaveOther(c) => OtherKeeps(s, c);
  }

  lemma {:induction false} RunKeeps(s: World, run: seq<Action>)
    requires Inv(s) && IsRun(s, run)
    ensures Inv(After(s, run))
    decreases |run|
  {
    hide Inv, Enabled, Disciplined, Apply;
    if run != [] {
      StepKeeps(s, run[0]);
      RunKeeps(Apply(s, run[0]), run[1..]);
    }
  }

  // ----- what every disciplined run has -----

  /** No dead timer is erased, only suspended coroutines are resumed, no wakeup goes to a later wait. */
  lemma RunsAreSafe(s: World, run: seq<Action>)
    requires IsStart(s) && IsRun(s, run)
    ensures !After(s, run).fault && !After(s, run).misdelivered
  {
    StartInv(s);
    RunKeeps(s, run);
  }

  /** A wait that has returned was resumed exactly once, its timer left the multimap exactly once,
      and it answered false exactly when the timer checker won the change of state. */
  lemma ReturnedWait(s: World, run: seq<Action>, w: nat)
    requires IsStart(s) && IsRun(s, run) && w < |After(s, run).waits|
    requires After(s, run).waits[w].result.Some?
    ensures var v := After(s, run).waits[w];
            && v.resumes == 1 && v.removals == (if Timed(v.kind) then 1 else 0)
            && v.timer == (if Timed(v.kind) then Spent else NoTimer)
            && v.winner != Nobody && (v.winner == Checker ==> Timed(v.kind))
            && (v.result == Some(false) <==> v.winner == Checker)
  {
    StartInv(s);
    RunKeeps(s, run);
    assert WaitOk(After(s, run), w);
  }

  /** At any moment of a run: a wait is resumed at most once and its timer removed at most once. */
  lemma AtMostOnce(s: World, run: seq<Action>, w: nat)
    requires IsStart(s) && IsRun(s, run) && w < |After(s, run).waits|
    ensures var v := After(s, run).waits[w];
            && v.resumes <= 1 && v.removals <= 1
            && (Timed(v.kind) ==> (v.removals == 1 <==> v.timer in {Due, Spent}))
            && (v.winner == Checker ==> Timed(v.kind))
  {
    StartInv(s);
    RunKeeps(s, run);
    assert WaitOk(After(s, run), w);
  }

  /** Exactly one resumption is under way for a suspended wait that somebody won; a suspended
      wait that nobody won still has its entry where a signal finds it and, if timed, its timer. */
  lemma NeverLost(s: World, run: seq<Action>, c: nat)
    requires IsStart(s) && IsRun(s, run) && c < |After(s, run).cos| && After(s, run).cos[c].phase == Parked
    ensures var t := After(s, run); 0 <= t.cos[c].wait < |t.waits|
    ensures var t := After(s, run);
            var v := t.waits[t.cos[c].wait];
            && v.co == c && v.resumes == 0
            && (v.winner == Signaller ==> v.entry in {Claimed, Queued, Drained} && v.timer != Due)
            && (v.winner == Checker ==> v.timer == Due && v.entry !in {Claimed, Queued, Drained})
            && (v.winner == Nobody && v.kind.Event? ==> v.entry in {Waiting, Detached} && t.cos[c].state == S_wait)
            && (v.winner == Nobody && Timed(v.kind) ==> v.timer == Armed || (v.kind.Sleep? && v.timer == Due))
  {
    StartInv(s);
    RunKeeps(s, run);
    var t := After(s, run);
    assert CoOk(t, c) && WaitOk(t, t.cos[c].wait);
  }

  /** Outside of waits the state is S_init: what the pool asserts of a coroutine it reuses. */
  lemma IdleIsInit(s: World, run: seq<Action>, c: nat)
    requires IsStart(s) && IsRun(s, run) && c < |After(s, run).cos| && After(s, run).cos[c].phase == Idle
    ensures After(s, run).cos[c].state == S_init
  {
    StartInv(s);
    RunKeeps(s, run);
    var t := After(s, run);
    assert CoOk(t, c);
    if t.cos[c].wait >= 0 {
      assert WaitOk(t, t.cos[c].wait);
    }
  }

  // ----- the discipline is exactly what is needed -----

  /** A wait on an event can be started safely if and only if no signal holds an unvisited entry
      of the coroutine: otherwise the next visit of that entry takes the new wait for the old one. */
  lemma DisciplineIsExact(s: World, a: Action)
    requires Inv(s) && a.Begin? && a.kind.Event? && Enabled(s, a)
    ensures Disciplined(s, a) <==>
            forall w: nat :: Enabled(Apply(s, a), Visit(w)) ==> !Apply(Apply(s, a), Visit(w)).misdelivered
  {
    var t := Apply(s, a);
    if Disciplined(s, a) {
      StepKeeps(s, a);
      forall w: nat | Enabled(t, Visit(w)) ensures !Apply(t, Visit(w)).misdelivered {
        VisitKeeps(t, w);
      }
    } else {
      var w :| 0 <= w < |s.waits| && s.waits[w].co == a.co && s.waits[w].entry == Detached;
      assert t.waits[w] == s.waits[w] && t.cos[a.co].state == S_wait && t.cos[a.co].wait == |s.waits|;
      assert Enabled(t, Visit(w)) && Apply(t, Visit(w)).misdelivered;
    }
  }

  /** A schedule of enabled actions, disciplined or not; None if one is not enabled. */
  function Execute(s: World, run: seq<Action>): Option<World>
    decreases |run|
  {
    if run == [] then Some(s)
    else if Enabled(s, run[0]) then Execute(Apply(s, run[0]), run[1..])
    else None
  }

  lemma Four(s: World, a: Action, b: Action, c: Action, d: Action, t1: World, t2: World, t3: World, t: World)
    requires Enabled(s, a) && Apply(s, a) == t1
    requires Enabled(t1, b) && Apply(t1, b) == t2
    requires Enabled(t2, c) && Apply(t2, c) == t3
    requires Enabled(t3, d) && Apply(t3, d) == t
    ensures Execute(s, [a, b, c, d]) == Some(t)
  {
    hide Enabled, Apply;
    assert [a, b, c, d][1..] == [b, c, d] && [b, c, d][1..] == [c, d] && [c, d][1..] == [d] && [d][1..] == [];
    assert Execute(t, []) == Some(t) && Execute(t3, [d]) == Some(t) && Execute(t2, [c, d]) == Some(t);
    assert Execute(t1, [b, c, d]) == Some(t);
  }

  lemma {:induction false} ExecuteTwo(s: World, r1: seq<Action>, r2: seq<Action>)
    requires Execute(s, r1).Some?
    ensures Execute(s, r1 + r2) == Execute(Execute(s, r1).value, r2)
    decreases |r1|
  {
    hide Enabled, Apply;
    if r1 == [] {
      assert r1 + r2 == r2;
    } else {
      assert (r1 + r2)[1..] == r1[1..] + r2;
      ExecuteTwo(Apply(s, r1[0]), r1[1..], r2);
    }
  }

  /** One coroutine on one scheduler, at its latest wait. */
  function Single(state: CoState, phase: Phase, waits: seq<Wait>, d: Sched): World {
    World([Coroutine(0, state, phase, |waits| - 1)], waits, [d], false, false)
  }

  const RACE: Kind := Event(0, true)
  const BEGUN := Wait(0, RACE, Outside, Armed, Nobody, 0, 0, None)
  const TIMED_OUT := Wait(0, RACE, Detached, Due, Checker, 0, 1, None)
  const RETURNED := Wait(0, RACE, Detached, Spent, Checker, 1, 1, Some(false))

  /** A timed wait is suspended, */
  lemma RaceBegins()
    ensures Execute(Single(S_init, Idle, [], Sched(None, Polling)), [RunOther(0), Begin(0, RACE), Insert(0), Yield(0)])
            == Some(Single(S_wait, Parked, [BEGUN.(entry := Waiting)], Sched(None, Polling)))
  {
    var busy := Sched(Some(0), Polling);
    Four(Single(S_init, Idle, [], Sched(None, Polling)), RunOther(0), Begin(0, RACE), Insert(0), Yield(0),
         Single(S_init, Idle, [], busy), Single(S_wait, Entered, [BEGUN], busy),
         Single(S_wait, Inserted, [BEGUN.(entry := Waiting)], busy),
         Single(S_wait, Parked, [BEGUN.(entry := Waiting)], Sched(None, Polling)));
  }

  lemma OneIsDetached(s: World, v: Wait, ev: nat)
    requires s.waits == [v] && v.entry == Waiting && v.kind.Event? && v.kind.ev == ev
    ensures DoSwap(s, ev) == s.(waits := [v.(entry := Detached)])
  {
    assert DoSwap(s, ev).waits == [v.(entry := Detached)];
  }

  lemma NothingToTake(s: World, v: Wait)
    requires s.waits == [v] && v.entry != Queued && s.scheds == [Sched(None, Polling)]
    ensures Enabled(s, GetTasks(0)) && DoGetTasks(s, 0) == s.(scheds := [Sched(None, Tasks)])
  {
    assert DoGetTasks(s, 0).waits == [v];
  }

  lemma OneIsTaken(s: World, v: Wait, u: Wait)
    requires s.waits == [v, u] && v.entry == Queued && u.entry != Queued && s.scheds == [Sched(None, Polling)]
    requires v.co == 0 && |s.cos| == 1 && s.cos[0].sched == 0
    ensures Enabled(s, GetTasks(0))
    ensures DoGetTasks(s, 0) == s.(scheds := [Sched(None, Tasks)], waits := [v.(entry := Drained), u])
  {
    assert DoGetTasks(s, 0).waits == [v.(entry := Drained), u];
  }

  /** a signal takes its entry, but the timer checker comes first, */
  lemma RaceIsWon()
    ensures Execute(Single(S_wait, Parked, [BEGUN.(entry := Waiting)], Sched(None, Polling)),
                    [Swap(0), GetTasks(0), StartCheck(0), CheckTimer(0)])
            == Some(Single(S_init, Parked, [TIMED_OUT], Sched(None, Checking)))
  {
    var s := Single(S_wait, Parked, [BEGUN.(entry := Waiting)], Sched(None, Polling));
    var v := [BEGUN.(entry := Detached)];
    var t1, t2 := Single(S_wait, Parked, v, Sched(None, Polling)), Single(S_wait, Parked, v, Sched(None, Tasks));
    OneIsDetached(s, BEGUN.(entry := Waiting), 0);
    NothingToTake(t1, v[0]);
    hide DoSwap, DoGetTasks;
    Four(s, Swap(0), GetTasks(0), StartCheck(0), CheckTimer(0), t1, t2, Single(S_wait, Parked, v, Sched(None, Checking)),
         Single(S_init, Parked, [TIMED_OUT], Sched(None, Checking)));
  }

  /** the wait returns false, */
  lemma RaceReturns()
    ensures Execute(Single(S_init, Parked, [TIMED_OUT], Sched(None, Checking)),
                    [EndCheck(0), RunTimedOut(0), EraseSelf(0), Return(0)])
            == Some(Single(S_init, Idle, [RETURNED], Sched(Some(0), Timeouts)))
  {
    var v := [RETURNED.(result := None)];
    Four(Single(S_init, Parked, [TIMED_OUT], Sched(None, Checking)), EndCheck(0), RunTimedOut(0), EraseSelf(0), Return(0),
         Single(S_init, Parked, [TIMED_OUT], Sched(None, Timeouts)), Single(S_init, Back(true), v, Sched(Some(0), Timeouts)),
         Single(S_init, Erased, v, Sched(Some(0), Timeouts)), Single(S_init, Idle, [RETURNED], Sched(Some(0), Timeouts)));
  }

  /** the coroutine waits for another event, and now the signal visits the old entry, */
  lemma RaceIsMisdelivered()
    ensures var t := Single(S_ready, Parked, [RETURNED.(entry := Claimed, winner := Signaller),
                                              BEGUN.(kind := Event(1, true), entry := Waiting)], Sched(None, Timeouts));
            Execute(Single(S_init, Idle, [RETURNED], Sched(Some(0), Timeouts)),
                    [Begin(0, Event(1, true)), Insert(0), Yield(0), Visit(0)]) == Some(t.(misdelivered := true))
  {
    var d := Sched(Some(0), Timeouts);
    var v := BEGUN.(kind := Event(1, true));
    var t := Single(S_ready, Parked, [RETURNED.(entry := Claimed, winner := Signaller), v.(entry := Waiting)], Sched(None, Timeouts));
    Four(Single(S_init, Idle, [RETURNED], d), Begin(0, Event(1, true)), Insert(0), Yield(0), Visit(0),
         Single(S_wait, Entered, [RETURNED, v], d), Single(S_wait, Inserted, [RETURNED, v.(entry := Waiting)], d),
         Single(S_wait, Parked, [RETURNED, v.(entry := Waiting)], Sched(None, Timeouts)), t.(misdelivered := true));
  }

  /** so the scheduler erases a timer that is long gone. */
  lemma RaceFaults(s: World)
    requires s == Single(S_ready, Parked, [RETURNED.(entry := Claimed, winner := Signaller),
                                           BEGUN.(kind := Event(1, true), entry := Waiting)], Sched(None, Timeouts)).(misdelivered := true)
    ensures var t := Execute(s, [Enqueue(0), EndLoop(0), GetTasks(0), RunReady(0)]); t.Some? && t.value.fault
  {
    var v, u := RETURNED.(winner := Signaller), s.waits[1];
    var t1 := s.(waits := [v.(entry := Queued), u]);
    var t2 := t1.(scheds := [Sched(None, Polling)]);
    var t3 := t2.(scheds := [Sched(None, Tasks)], waits := [v.(entry := Drained), u]);
    assert !AlreadyQueued(s, 0);
    OneIsTaken(t2, v.(entry := Queued), u);
    hide DoGetTasks, AlreadyQueued;
    Four(s, Enqueue(0), EndLoop(0), GetTasks(0), RunReady(0), t1, t2, t3, t3.(waits := [v.(entry := Gone), u], fault := true));
  }

  /** Without the discipline the safety of RunsAreSafe fails: this schedule ends in a fault. */
  lemma UndisciplinedFaults()
    ensures var s := Single(S_init, Idle, [], Sched(None, Polling));
            IsStart(s) && exists run: seq<Action> :: Execute(s, run).Some? && Execute(s, run).value.fault
  {
    hide Execute, Single;
    RaceBegins();
    RaceIsWon();
    RaceReturns();
    RaceIsMisdelivered();
    var r1, r2 := [RunOther(0), Begin(0, RACE), Insert(0), Yield(0)], [Swap(0), GetTasks(0), StartCheck(0), CheckTimer(0)];
    var r3 := [EndCheck(0), RunTimedOut(0), EraseSelf(0), Return(0)];
    var r4 := [Begin(0, Event(1, true)), Insert(0), Yield(0), Visit(0)];
    var r5 := [Enqueue(0), EndLoop(0), GetTasks(0), RunReady(0)];
    var s := Single(S_init, Idle, [], Sched(None, Polling));
    assert IsStart(s) by { SingleStarts(); }
    ExecuteTwo(s, r1, r2);
    ExecuteTwo(s, r1 + r2, r3);
    ExecuteTwo(s, r1 + r2 + r3, r4);
    ExecuteTwo(s, r1 + r2 + r3 + r4, r5);
    RaceFaults(Execute(s, r1 + r2 + r3 + r4).value);
    var run := r1 + r2 + r3 + r4 + r5;
    assert Execute(s, run).Some? && Execute(s, run).value.fault;
  }

  lemma SingleStarts()
    ensures IsStart(Single(S_init, Idle, [], Sched(None, Polling)))
  {
  }
}
