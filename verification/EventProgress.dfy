/**
 * Suspended coroutines can always be woken (src/co/impl/co.cc:85-103, src/co/impl/scheduler.cc:82-187):
 * from every state of a disciplined run there is a way on, by a signal or by the timer, in which no new
 * wait begins, to the resumption of a given wait.
 */
module EventProgress {
  import opened Common
  import opened EventRace

  /** A swap takes every waiter of the event, and nothing else changes. */
  lemma SwapTakesAll(s: World, ev: nat)
    ensures var t := Apply(s, Swap(ev));
            && |t.waits| == |s.waits| && t == s.(waits := t.waits)
            && (forall w :: 0 <= w < |t.waits| ==> !(t.waits[w].entry == Waiting && t.waits[w].kind.Event? && t.waits[w].kind.ev == ev))
            && (forall w :: 0 <= w < |s.waits| && s.waits[w].entry == Waiting && s.waits[w].kind.Event? && s.waits[w].kind.ev == ev ==>
                  t.waits[w] == s.waits[w].(entry := Detached))
            && (forall w :: 0 <= w < |s.waits| && !(s.waits[w].entry == Waiting && s.waits[w].kind.Event? && s.waits[w].kind.ev == ev) ==>
                  t.waits[w] == s.waits[w])
  {
  }

  // ----- runs that only finish what is under way -----

  predicate Plain(a: Action) {
    !a.Begin? && !a.Swap? && !a.Visit? && !a.CheckTimer?
  }

  predicate AllPlain(run: seq<Action>) {
    forall i :: 0 <= i < |run| ==> Plain(run[i])
  }

  lemma Prepend(s: World, a: Action, rest: seq<Action>)
    requires Enabled(s, a) && Disciplined(s, a) && IsRun(Apply(s, a), rest)
    ensures IsRun(s, [a] + rest) && After(s, [a] + rest) == After(Apply(s, a), rest)
  {
    hide Enabled, Disciplined, Apply;
    assert ([a] + rest)[1..] == rest;
  }

  lemma {:induction false} Concat(s: World, a: seq<Action>, b: seq<Action>)
    requires IsRun(s, a) && IsRun(After(s, a), b)
    ensures IsRun(s, a + b) && After(s, a + b) == After(After(s, a), b)
    decreases |a|
  {
    hide Enabled, Disciplined, Apply;
    if a == [] {
      assert a + b == b;
    } else {
      assert (a + b)[1..] == a[1..] + b;
      Concat(Apply(s, a[0]), a[1..], b);
    }
  }

  lemma One(s: World, a: Action)
    requires Enabled(s, a) && Disciplined(s, a)
    ensures IsRun(s, [a]) && After(s, [a]) == Apply(s, a)
  {
    hide Enabled, Disciplined, Apply;
    assert [a][1..] == [] && IsRun(Apply(s, a), []);
  }

  // ----- the running coroutine gives way -----

  /** c is suspended in the wait w, on the scheduler sd. */
  predicate Suspended(s: World, c: nat, w: nat, sd: nat) {
    && c < |s.cos| && s.cos[c].phase == Parked && s.cos[c].wait == w && s.cos[c].sched == sd
    && w < |s.waits| && s.waits[w].co == c && sd < |s.scheds|
  }

  /** Nothing has happened to c, nor to the work the scheduler sd has taken. */
  predicate Undisturbed(s: World, t: World, c: nat, w: nat, sd: nat)
    requires Suspended(s, c, w, sd)
  {
    && |t.cos| == |s.cos| && |t.waits| == |s.waits| && |t.scheds| == |s.scheds|
    && t.cos[c] == s.cos[c] && t.waits[w] == s.waits[w] && t.scheds[sd].mode == s.scheds[sd].mode
    && (forall e :: 0 <= e < |s.cos| ==> t.cos[e].sched == s.cos[e].sched)
    && (forall i :: 0 <= i < |s.waits| ==> t.waits[i].co == s.waits[i].co && t.waits[i].timer == s.waits[i].timer)
    && (forall i :: 0 <= i < |s.waits| ==> (t.waits[i].entry == Drained <==> s.waits[i].entry == Drained))
  }

  function Steps(p: Phase): nat {
    match p case Entered => 5 case Inserted => 4 case Back(_) => 4 case Erased => 3 case Idle => 2 case Parked => 0
  }

  function StepsLeft(s: World, sd: nat): nat
    requires sd < |s.scheds|
  {
    match s.scheds[sd].running case None => 0 case Some(d) => if d < |s.cos| then 1 + Steps(s.cos[d].phase) else 1
  }

  /** What the running coroutine d does to give way. */
  function GiveWay(s: World, d: nat): Action
    requires d < |s.cos|
  {
    match s.cos[d].phase
    case Entered => Insert(d)
    case Inserted => Yield(d)
    case Back(_) => if 0 <= s.cos[d].wait < |s.waits| && MayReturn(s, d) then Return(d) else EraseSelf(d)
    case Erased => Return(d)
    case _ => LeaveOther(d)
  }

  lemma GiveWayStep(s: World, c: nat, w: nat, sd: nat) returns (a: Action)
    requires Inv(s) && Suspended(s, c, w, sd) && s.scheds[sd].running.Some?
    ensures Enabled(s, a) && Plain(a) && Disciplined(s, a) && Inv(Apply(s, a))
    ensures Undisturbed(s, Apply(s, a), c, w, sd) && StepsLeft(Apply(s, a), sd) < StepsLeft(s, sd)
  {
    var d := CanGiveWay(s, c, w, sd);
    a := GiveWay(s, d);
    GiveWayEffect(s, d, c, w, sd);
    hide Inv, Enabled, Disciplined, Apply, Undisturbed, StepsLeft;
    StepKeeps(s, a);
  }

  lemma CanGiveWay(s: World, c: nat, w: nat, sd: nat) returns (d: nat)
    requires Inv(s) && Suspended(s, c, w, sd) && s.scheds[sd].running.Some?
    ensures d < |s.cos| && d != c && s.cos[d].wait != w && s.cos[d].sched == sd && s.scheds[sd].running == Some(d)
    ensures var a := GiveWay(s, d); Enabled(s, a) && Plain(a) && Disciplined(s, a)
    ensures s.cos[d].phase == Entered ==> s.waits[s.cos[d].wait].entry == Outside
  {
    d := s.scheds[sd].running.value;
    assert SchedOk(s, sd) && CoOk(s, d) && CoOk(s, c);
    assert Running(s, d) && d != c;
    if s.cos[d].wait >= 0 {
      assert WaitOk(s, s.cos[d].wait);
    }
  }

  lemma GiveWayEffect(s: World, d: nat, c: nat, w: nat, sd: nat)
    requires Suspended(s, c, w, sd) && d < |s.cos| && d != c && s.cos[d].wait != w && s.cos[d].sched == sd
    requires s.scheds[sd].running == Some(d) && Enabled(s, GiveWay(s, d))
    requires s.cos[d].phase == Entered ==> s.waits[s.cos[d].wait].entry == Outside
    ensures Undisturbed(s, Apply(s, GiveWay(s, d)), c, w, sd)
    ensures StepsLeft(Apply(s, GiveWay(s, d)), sd) < StepsLeft(s, sd)
  {
    hide DoBegin, DoSwap, DoVisit, DoGetTasks, DoRunReady, DoCheckTimer, Resume, AlreadyQueued, Undisturbed, StepsLeft;
    var t := Apply(s, GiveWay(s, d));
    GiveWayShortens(s, d, sd);
    hide DoReturn;
    GiveWayTouches(s, d);
    Touches(s, t, c, w, sd, d, s.cos[d].wait);
  }

  lemma GiveWayShortens(s: World, d: nat, sd: nat)
    requires d < |s.cos| && s.cos[d].sched == sd && sd < |s.scheds| && s.scheds[sd].running == Some(d) && Enabled(s, GiveWay(s, d))
    ensures var t := Apply(s, GiveWay(s, d));
            |t.scheds| == |s.scheds| && t.scheds[sd].mode == s.scheds[sd].mode && StepsLeft(t, sd) < StepsLeft(s, sd)
  {
    hide DoBegin, DoSwap, DoVisit, DoGetTasks, DoRunReady, DoCheckTimer, Resume, AlreadyQueued;
  }

  lemma GiveWayTouches(s: World, d: nat)
    requires d < |s.cos| && Enabled(s, GiveWay(s, d))
    requires s.cos[d].phase == Entered ==> s.waits[s.cos[d].wait].entry == Outside
    ensures var t, u := Apply(s, GiveWay(s, d)), s.cos[d].wait;
            && |t.cos| == |s.cos| && |t.waits| == |s.waits|
            && (forall e :: 0 <= e < |s.cos| ==> t.cos[e].sched == s.cos[e].sched && (e != d ==> t.cos[e] == s.cos[e]))
            && (forall i :: 0 <= i < |s.waits| && i != u ==> t.waits[i] == s.waits[i])
            && (0 <= u < |s.waits| ==>
                  && t.waits[u].co == s.waits[u].co && t.waits[u].timer == s.waits[u].timer
                  && (t.waits[u].entry == Drained <==> s.waits[u].entry == Drained))
  {
    hide DoBegin, DoSwap, DoVisit, DoGetTasks, DoRunReady, DoCheckTimer, Resume, AlreadyQueued;
  }

  /** A step of another coroutine in another wait that leaves what the scheduler has taken. */
  lemma Touches(s: World, t: World, c: nat, w: nat, sd: nat, d: nat, u: int)
    requires Suspended(s, c, w, sd) && d != c && u != w
    requires |t.cos| == |s.cos| && |t.waits| == |s.waits| && |t.scheds| == |s.scheds| && t.scheds[sd].mode == s.scheds[sd].mode
    requires forall e :: 0 <= e < |s.cos| ==> t.cos[e].sched == s.cos[e].sched && (e != d ==> t.cos[e] == s.cos[e])
    requires forall i :: 0 <= i < |s.waits| && i != u ==> t.waits[i] == s.waits[i]
    requires 0 <= u < |s.waits| ==>
               && t.waits[u].co == s.waits[u].co && t.waits[u].timer == s.waits[u].timer
               && (t.waits[u].entry == Drained <==> s.waits[u].entry == Drained)
    ensures Undisturbed(s, t, c, w, sd)
  {
  }

  lemma Chained(s: World, t: World, u: World, c: nat, w: nat, sd: nat)
    requires Suspended(s, c, w, sd) && Undisturbed(s, t, c, w, sd)
    ensures Suspended(t, c, w, sd) && (Undisturbed(t, u, c, w, sd) ==> Undisturbed(s, u, c, w, sd))
  {
  }

  /** The scheduler gets back into its loop. */
  lemma {:induction false} GivesWay(s: World, c: nat, w: nat, sd: nat) returns (run: seq<Action>)
    requires Inv(s) && Suspended(s, c, w, sd)
    ensures IsRun(s, run) && AllPlain(run) && Inv(After(s, run))
    ensures Undisturbed(s, After(s, run), c, w, sd) && After(s, run).scheds[sd].running == None
    decreases StepsLeft(s, sd)
  {
    hide Inv, Enabled, Disciplined, Apply, Undisturbed, StepsLeft;
    if s.scheds[sd].running == None {
      run := [];
      assert Undisturbed(s, s, c, w, sd) by { SameIsUndisturbed(s, c, w, sd); }
    } else {
      var a := GiveWayStep(s, c, w, sd);
      var t := Apply(s, a);
      Chained(s, t, t, c, w, sd);
      var rest := GivesWay(t, c, w, sd);
      Chained(s, t, After(t, rest), c, w, sd);
      Prepend(s, a, rest);
      run := [a] + rest;
    }
  }

  lemma SameIsUndisturbed(s: World, c: nat, w: nat, sd: nat)
    requires Suspended(s, c, w, sd)
    ensures Undisturbed(s, s, c, w, sd)
  {
  }

  // ----- the loop goes on to a given part -----

  /** What the scheduler still has to run in this part of its loop. */
  predicate ToRun(s: World, sd: nat, i: int)
    requires sd < |s.scheds|
  {
    && 0 <= i < |s.waits| && BelongsTo(s, i, sd)
    && ((s.scheds[sd].mode == Tasks && s.waits[i].entry == Drained) || (s.scheds[sd].mode == Timeouts && s.waits[i].timer == Due))
  }

  ghost function Pending(s: World, sd: nat): set<int>
    requires sd < |s.scheds|
  {
    set i | 0 <= i < |s.waits| && ToRun(s, sd, i)
  }

  function Index(m: Mode): nat {
    match m case Polling => 0 case Tasks => 1 case Checking => 2 case Timeouts => 3
  }

  /** How many parts of the loop lie before this one. */
  function Distance(m: Mode, target: Mode): nat {
    (Index(target) - Index(m)) % 4
  }

  /** Runs the task or the timed-out coroutine i. */
  function RunIt(s: World, sd: nat, i: nat): Action
    requires sd < |s.scheds|
  {
    if s.scheds[sd].mode == Tasks then RunReady(i) else RunTimedOut(i)
  }

  /** c itself is resumed. */
  lemma RunThis(s: World, c: nat, w: nat, sd: nat)
    requires Inv(s) && Suspended(s, c, w, sd) && s.scheds[sd].running == None && ToRun(s, sd, w)
    ensures var a := RunIt(s, sd, w);
            && Enabled(s, a) && Plain(a) && Disciplined(s, a) && Inv(Apply(s, a))
            && Resumed(s, Apply(s, a), w)
  {
    var a := RunIt(s, sd, w);
    StepKeeps(s, a);
    InUseIsParked(s, w, s.scheds[sd].mode);
  }

  /** The wait w was resumed, for the first time, with the same winner. */
  predicate Resumed(s: World, t: World, w: nat) {
    && w < |s.waits| && w < |t.waits| && t.waits[w].resumes == 1
    && t.waits[w].kind == s.waits[w].kind && t.waits[w].winner == s.waits[w].winner
  }

  /** Another coroutine is resumed. */
  lemma RunOtherOne(s: World, c: nat, w: nat, sd: nat, i: nat)
    requires Inv(s) && Suspended(s, c, w, sd) && s.scheds[sd].running == None && i != w && ToRun(s, sd, i)
    ensures var a := RunIt(s, sd, i);
            && Enabled(s, a) && Plain(a) && Disciplined(s, a) && Inv(Apply(s, a))
            && Suspended(Apply(s, a), c, w, sd)
            && Apply(s, a).waits[w] == s.waits[w] && Apply(s, a).cos[c] == s.cos[c]
            && Apply(s, a).scheds[sd].mode == s.scheds[sd].mode
            && Pending(Apply(s, a), sd) == Pending(s, sd) - {i}
  {
    var a := RunIt(s, sd, i);
    OtherIsParked(s, c, w, sd, i);
    RunOtherEffect(s, c, w, sd, i);
    hide Inv, Enabled, Disciplined, Apply, Pending;
    StepKeeps(s, a);
  }

  lemma OtherIsParked(s: World, c: nat, w: nat, sd: nat, i: nat)
    requires Inv(s) && Suspended(s, c, w, sd) && s.scheds[sd].running == None && i != w && ToRun(s, sd, i)
    ensures var a, d := RunIt(s, sd, i), s.waits[i].co;
            && Enabled(s, a) && Plain(a) && Disciplined(s, a)
            && d != c && s.cos[d].phase == Parked && s.cos[d].wait == i
            && (a.RunReady? && Timed(s.waits[i].kind) && s.cos[d].state == S_ready ==> s.waits[i].timer == Armed)
  {
    InUseIsParked(s, i, s.scheds[sd].mode);
  }

  /** Only the coroutine d and its wait i have changed, and i is not to be run any more. */
  predicate Ran(s: World, t: World, sd: nat, d: nat, i: nat)
    requires sd < |s.scheds|
  {
    && |t.cos| == |s.cos| && |t.waits| == |s.waits| && |t.scheds| == |s.scheds| && t.scheds[sd].mode == s.scheds[sd].mode
    && (forall e :: 0 <= e < |s.cos| ==> t.cos[e].sched == s.cos[e].sched && (e != d ==> t.cos[e] == s.cos[e]))
    && (forall j :: 0 <= j < |s.waits| && j != i ==> t.waits[j] == s.waits[j])
    && !ToRun(t, sd, i)
  }

  lemma TaskRan(s: World, sd: nat, i: nat)
    requires sd < |s.scheds| && Enabled(s, RunReady(i)) && s.scheds[sd].mode == Tasks
    requires var d := s.waits[i].co;
             && s.cos[d].phase == Parked && s.cos[d].wait == i && s.cos[d].sched == sd
             && (Timed(s.waits[i].kind) && s.cos[d].state == S_ready ==> s.waits[i].timer == Armed)
    ensures Ran(s, DoRunReady(s, i), sd, s.waits[i].co, i)
  {
  }

  lemma TimedOutRan(s: World, sd: nat, i: nat)
    requires sd < |s.scheds| && i < |s.waits| && s.waits[i].co < |s.cos| && s.scheds[sd].mode == Timeouts
    requires var d := s.waits[i].co; s.cos[d].phase == Parked && s.cos[d].wait == i && s.cos[d].sched == sd
    ensures Ran(s, Resume(SetWait(s, i, s.waits[i].(timer := Spent)), s.waits[i].co), sd, s.waits[i].co, i)
  {
  }

  lemma RunOtherEffect(s: World, c: nat, w: nat, sd: nat, i: nat)
    requires Suspended(s, c, w, sd) && s.scheds[sd].running == None && i != w && ToRun(s, sd, i)
    requires var a, d := RunIt(s, sd, i), s.waits[i].co;
             && Enabled(s, a) && d != c && s.cos[d].phase == Parked && s.cos[d].wait == i
             && (a.RunReady? && Timed(s.waits[i].kind) && s.cos[d].state == S_ready ==> s.waits[i].timer == Armed)
    ensures var t := Apply(s, RunIt(s, sd, i));
            && Suspended(t, c, w, sd) && t.waits[w] == s.waits[w] && t.cos[c] == s.cos[c]
            && t.scheds[sd].mode == s.scheds[sd].mode && Pending(t, sd) == Pending(s, sd) - {i}
  {
    hide DoBegin, DoSwap, DoVisit, DoGetTasks, DoReturn, DoRunReady, Resume, DoCheckTimer, AlreadyQueued, Ran, Pending;
    if s.scheds[sd].mode == Tasks {
      TaskRan(s, sd, i);
    } else {
      TimedOutRan(s, sd, i);
    }
    hide ToRun;
    OneLess(s, Apply(s, RunIt(s, sd, i)), c, w, sd, s.waits[i].co, i);
  }

  lemma OneLess(s: World, t: World, c: nat, w: nat, sd: nat, d: nat, i: nat)
    requires Suspended(s, c, w, sd) && d != c && i != w && Ran(s, t, sd, d, i)
    ensures Suspended(t, c, w, sd) && t.waits[w] == s.waits[w] && t.cos[c] == s.cos[c]
    ensures t.scheds[sd].mode == s.scheds[sd].mode && Pending(t, sd) == Pending(s, sd) - {i}
  {
    forall j ensures j in Pending(t, sd) <==> j in Pending(s, sd) && j != i {
    }
  }

  lemma FewerPending(s: World, sd: nat, i: nat)
    requires sd < |s.scheds| && ToRun(s, sd, i)
    ensures |Pending(s, sd) - {i}| < |Pending(s, sd)|
  {
    assert i in Pending(s, sd);
  }

  /** On to the next part of the loop. */
  function NextPart(sd: nat, m: Mode): Action {
    match m case Polling => GetTasks(sd) case Tasks => StartCheck(sd) case Checking => EndCheck(sd) case Timeouts => EndLoop(sd)
  }

  lemma GoOn(s: World, c: nat, w: nat, sd: nat, target: Mode)
    requires Inv(s) && Suspended(s, c, w, sd) && s.scheds[sd].running == None && Pending(s, sd) == {}
    requires s.scheds[sd].mode != target && (s.waits[w].entry == Queued ==> target == Polling)
    ensures var a := NextPart(sd, s.scheds[sd].mode);
            && Enabled(s, a) && Plain(a) && Disciplined(s, a) && Inv(Apply(s, a))
            && Suspended(Apply(s, a), c, w, sd)
            && Apply(s, a).waits[w] == s.waits[w] && Apply(s, a).cos[c] == s.cos[c]
            && Distance(Apply(s, a).scheds[sd].mode, target) < Distance(s.scheds[sd].mode, target)
  {
    NextPartEffect(s, c, w, sd, target);
    hide Inv, Enabled, Disciplined, Apply, Pending, Distance;
    StepKeeps(s, NextPart(sd, s.scheds[sd].mode));
  }

  lemma NextPartEffect(s: World, c: nat, w: nat, sd: nat, target: Mode)
    requires Suspended(s, c, w, sd) && s.scheds[sd].running == None && Pending(s, sd) == {}
    requires s.scheds[sd].mode != target && (s.waits[w].entry == Queued ==> target == Polling)
    ensures var a := NextPart(sd, s.scheds[sd].mode);
            && Enabled(s, a) && Plain(a) && Disciplined(s, a)
            && Suspended(Apply(s, a), c, w, sd)
            && Apply(s, a).waits[w] == s.waits[w] && Apply(s, a).cos[c] == s.cos[c]
            && Distance(Apply(s, a).scheds[sd].mode, target) < Distance(s.scheds[sd].mode, target)
  {
    NextPartEnabled(s, sd);
    hide Pending, Enabled, Distance, DoBegin, DoSwap, DoVisit, DoRunReady, DoReturn, DoCheckTimer, Resume, AlreadyQueued;
    var m := s.scheds[sd].mode;
    Freely(s, NextPart(sd, m));
    Closer(m, target);
    if m == Polling {
      TakeEffect(s, sd, w);
    }
  }

  lemma NextPartEnabled(s: World, sd: nat)
    requires sd < |s.scheds| && s.scheds[sd].running == None && Pending(s, sd) == {}
    ensures Enabled(s, NextPart(sd, s.scheds[sd].mode))
  {
    forall i | 0 <= i < |s.waits| && BelongsTo(s, i, sd) ensures !ToRun(s, sd, i) {
      assert i !in Pending(s, sd);
    }
  }

  function Following(m: Mode): Mode {
    match m case Polling => Tasks case Tasks => Checking case Checking => Timeouts case Timeouts => Polling
  }

  lemma Closer(m: Mode, target: Mode)
    requires m != target
    ensures Distance(Following(m), target) < Distance(m, target)
  {
  }

  /** Taking the tasks leaves a wait that is not queued as it is. */
  lemma TakeEffect(s: World, sd: nat, w: nat)
    requires Enabled(s, GetTasks(sd)) && w < |s.waits| && s.waits[w].entry != Queued
    ensures var t := DoGetTasks(s, sd);
            t.cos == s.cos && |t.waits| == |s.waits| && t.waits[w] == s.waits[w] && t.scheds == s.scheds[sd := s.scheds[sd].(mode := Tasks)]
  {
  }

  lemma SamePending(s: World, t: World, c: nat, w: nat, sd: nat)
    requires Suspended(s, c, w, sd) && Undisturbed(s, t, c, w, sd)
    ensures Pending(t, sd) == Pending(s, sd) && Suspended(t, c, w, sd)
  {
    forall i ensures i in Pending(t, sd) <==> i in Pending(s, sd) {
    }
  }

  /** The loop has got to the target, with c still suspended as it was. */
  predicate Arrived(s: World, t: World, c: nat, w: nat, sd: nat, target: Mode)
    requires c < |s.cos| && w < |s.waits|
  {
    InLoop(t, sd, target) && Suspended(t, c, w, sd) && t.waits[w] == s.waits[w] && t.cos[c] == s.cos[c]
  }

  /** The scheduler runs its loop on to the target, if c is not resumed on the way. */
  lemma {:induction false} Drive(s: World, c: nat, w: nat, sd: nat, target: Mode) returns (run: seq<Action>)
    requires Inv(s) && Suspended(s, c, w, sd) && (s.waits[w].entry == Queued ==> target == Polling)
    ensures IsRun(s, run) && AllPlain(run) && Inv(After(s, run))
    ensures Resumed(s, After(s, run), w) || Arrived(s, After(s, run), c, w, sd, target)
    decreases Distance(s.scheds[sd].mode, target), |Pending(s, sd)|
  {
    hide Inv, Enabled, Disciplined, Apply, Undisturbed, Pending, ToRun, Distance;
    var first := GivesWay(s, c, w, sd);
    var t := After(s, first);
    SamePending(s, t, c, w, sd);
    Still(s, t, c, w, sd);
    if t.scheds[sd].mode == target {
      run := first;
    } else {
      var a, rest := DriveOn(t, c, w, sd, target);
      Prepend(t, a, rest);
      Concat(s, first, [a] + rest);
      run := first + ([a] + rest);
    }
  }

  lemma Still(s: World, t: World, c: nat, w: nat, sd: nat)
    requires Suspended(s, c, w, sd) && Undisturbed(s, t, c, w, sd)
    ensures t.waits[w] == s.waits[w] && t.cos[c] == s.cos[c] && t.scheds[sd].mode == s.scheds[sd].mode
  {
  }

  /** One step of the loop, and what follows. */
  lemma {:induction false} DriveOn(s: World, c: nat, w: nat, sd: nat, target: Mode) returns (a: Action, rest: seq<Action>)
    requires Inv(s) && Suspended(s, c, w, sd) && (s.waits[w].entry == Queued ==> target == Polling)
    requires s.scheds[sd].running == None && s.scheds[sd].mode != target
    ensures Enabled(s, a) && Plain(a) && Disciplined(s, a) && IsRun(Apply(s, a), rest) && AllPlain(rest)
    ensures Inv(After(Apply(s, a), rest))
    ensures Resumed(s, After(Apply(s, a), rest), w) || Arrived(s, After(Apply(s, a), rest), c, w, sd, target)
    decreases Distance(s.scheds[sd].mode, target), |Pending(s, sd)|, 0
  {
    hide Inv, Enabled, Disciplined, Apply, Undisturbed, ToRun, Distance;
    if ToRun(s, sd, w) {
      RunThis(s, c, w, sd);
      a, rest := RunIt(s, sd, w), [];
    } else if Pending(s, sd) == {} {
      GoOn(s, c, w, sd, target);
      a := NextPart(sd, s.scheds[sd].mode);
      rest := Drive(Apply(s, a), c, w, sd, target);
    } else {
      var i: nat :| i in Pending(s, sd);
      RunOtherOne(s, c, w, sd, i);
      FewerPending(s, sd, i);
      a := RunIt(s, sd, i);
      rest := Drive(Apply(s, a), c, w, sd, target);
    }
  }

  // ----- from the signal or the timer to the resumption -----

  lemma VisitClaims(s: World, c: nat, w: nat, sd: nat)
    requires Inv(s) && Suspended(s, c, w, sd) && s.waits[w].entry == Detached && s.waits[w].winner == Nobody
    ensures Enabled(s, Visit(w)) && Inv(Apply(s, Visit(w))) && Suspended(Apply(s, Visit(w)), c, w, sd)
    ensures var v := Apply(s, Visit(w)).waits[w]; v.entry == Claimed && v.winner == Signaller
  {
    VisitKeeps(s, w);
    assert WaitOk(s, w);
  }

  lemma EnqueueQueues(s: World, c: nat, w: nat, sd: nat)
    requires Inv(s) && Suspended(s, c, w, sd) && s.waits[w].entry == Claimed
    ensures Enabled(s, Enqueue(w)) && Inv(Apply(s, Enqueue(w))) && Suspended(Apply(s, Enqueue(w)), c, w, sd)
    ensures Apply(s, Enqueue(w)).waits[w] == s.waits[w].(entry := Queued)
  {
    EnqueueKeeps(s, w);
    forall u | 0 <= u < |s.waits| && u != w && s.waits[u].entry == Queued ensures s.waits[u].co != s.waits[w].co {
      InUseIsLatest(s, u);
    }
  }

  lemma TasksAreDrained(s: World, c: nat, w: nat, sd: nat)
    requires Inv(s) && Suspended(s, c, w, sd) && s.waits[w].entry == Queued && InLoop(s, sd, Polling)
    ensures Enabled(s, GetTasks(sd)) && Inv(Apply(s, GetTasks(sd))) && Suspended(Apply(s, GetTasks(sd)), c, w, sd)
    ensures Apply(s, GetTasks(sd)).waits[w] == s.waits[w].(entry := Drained)
  {
    GetTasksKeeps(s, sd);
  }

  function Stage(e: Entry): nat {
    match e case Claimed => 2 case Queued => 1 case _ => 0
  }

  /** A resumption that is under way arrives. */
  lemma {:induction false} Finish(s: World, c: nat, w: nat, sd: nat) returns (run: seq<Action>)
    requires Inv(s) && Suspended(s, c, w, sd)
    requires s.waits[w].entry in {Claimed, Queued, Drained} || s.waits[w].timer == Due
    ensures IsRun(s, run) && AllPlain(run) && Resumed(s, After(s, run), w)
    decreases Stage(s.waits[w].entry)
  {
    hide Inv, Enabled, Disciplined, Apply;
    match s.waits[w].entry
    case Claimed =>
      EnqueueQueues(s, c, w, sd);
      run := Finish(Apply(s, Enqueue(w)), c, w, sd);
      Freely(s, Enqueue(w));
      Prepend(s, Enqueue(w), run);
      run := [Enqueue(w)] + run;
    case Queued =>
      var first := Drive(s, c, w, sd, Polling);
      var t := After(s, first);
      if Resumed(s, t, w) {
        run := first;
      } else {
        TasksAreDrained(t, c, w, sd);
        var rest := Finish(Apply(t, GetTasks(sd)), c, w, sd);
        Freely(t, GetTasks(sd));
        Prepend(t, GetTasks(sd), rest);
        Concat(s, first, [GetTasks(sd)] + rest);
        run := first + ([GetTasks(sd)] + rest);
      }
    case _ =>
      run := LastStretch(s, c, w, sd, if s.waits[w].entry == Drained then Tasks else Timeouts);
  }

  lemma Freely(s: World, a: Action)
    requires !a.Begin?
    ensures Disciplined(s, a)
  {
  }

  lemma LastStretch(s: World, c: nat, w: nat, sd: nat, target: Mode) returns (run: seq<Action>)
    requires Inv(s) && Suspended(s, c, w, sd) && s.waits[w].entry != Queued
    requires (target == Tasks && s.waits[w].entry == Drained) || (target == Timeouts && s.waits[w].timer == Due)
    ensures IsRun(s, run) && AllPlain(run) && Resumed(s, After(s, run), w)
  {
    hide Inv, Enabled, Disciplined, Apply;
    var first := Drive(s, c, w, sd, target);
    var t := After(s, first);
    if Resumed(s, t, w) {
      run := first;
    } else {
      RunThis(t, c, w, sd);
      One(t, RunIt(t, sd, w));
      Concat(s, first, [RunIt(t, sd, w)]);
      run := first + [RunIt(t, sd, w)];
    }
  }

  /** What the signal still has to do for the wait w of an event: swap the table and visit the entry, only
      visit it, or nothing because somebody has won already. */
  function SignalSteps(v: Wait, w: nat): seq<Action>
    requires v.kind.Event?
  {
    if v.winner != Nobody then [] else if v.entry == Waiting then [Swap(v.kind.ev), Visit(w)] else [Visit(w)]
  }

  lemma SwapDetaches(s: World, c: nat, w: nat, sd: nat)
    requires Inv(s) && Suspended(s, c, w, sd) && s.waits[w].kind.Event? && s.waits[w].entry == Waiting
    ensures var t := Apply(s, Swap(s.waits[w].kind.ev));
            Inv(t) && Suspended(t, c, w, sd) && t.waits[w] == s.waits[w].(entry := Detached)
  {
    SwapTakesAll(s, s.waits[w].kind.ev);
    SwapKeeps(s, s.waits[w].kind.ev);
  }

  lemma ByVisit(s: World, c: nat, w: nat, sd: nat) returns (rest: seq<Action>)
    requires Inv(s) && Suspended(s, c, w, sd) && s.waits[w].entry == Detached && s.waits[w].winner == Nobody
    ensures IsRun(s, [Visit(w)] + rest) && AllPlain(rest)
    ensures var v := After(s, [Visit(w)] + rest).waits; w < |v| && v[w].resumes == 1 && v[w].winner == Signaller
  {
    hide Inv, Enabled, Disciplined, Apply;
    VisitClaims(s, c, w, sd);
    rest := Finish(Apply(s, Visit(w)), c, w, sd);
    Freely(s, Visit(w));
    Prepend(s, Visit(w), rest);
  }

  lemma SuspendedWait(s: World, c: nat) returns (w: nat)
    requires Inv(s) && c < |s.cos| && s.cos[c].phase == Parked
    ensures w == s.cos[c].wait && Suspended(s, c, w, s.cos[c].sched)
    ensures var v := s.waits[w];
            && (v.kind.Event? && v.winner == Nobody ==> v.entry in {Waiting, Detached})
            && (v.winner == Nobody && v.timer == Due ==> v.kind.Sleep?)
            && (v.winner != Nobody ==> v.kind.Event? && (v.entry in {Claimed, Queued, Drained} || v.timer == Due))
            && (v.winner == Nobody && Timed(v.kind) ==> v.timer in {Armed, Due} && v.entry !in {Claimed, Queued, Drained})
  {
    assert CoOk(s, c);
    w := s.cos[c].wait;
    assert WaitOk(s, w);
  }

  /** Every coroutine suspended in a wait on an event can be woken by one signal: after the swap and the
      visit of its entry, as far as they are still to come, nothing but the steps of those already under
      way is needed. */
  lemma SignalWakes(s: World, run: seq<Action>, c: nat) returns (rest: seq<Action>)
    requires IsStart(s) && IsRun(s, run) && c < |After(s, run).cos| && After(s, run).cos[c].phase == Parked
    requires var t := After(s, run); 0 <= t.cos[c].wait < |t.waits| && t.waits[t.cos[c].wait].kind.Event?
    ensures var t := After(s, run); var w := t.cos[c].wait; var more := SignalSteps(t.waits[w], w) + rest;
            && IsRun(t, more) && AllPlain(rest) && w < |After(t, more).waits|
            && var v := After(t, more).waits[w];
               v.resumes == 1 && v.winner == if t.waits[w].winner == Nobody then Signaller else t.waits[w].winner
  {
    hide Inv, Enabled, Disciplined, Apply;
    StartInv(s);
    RunKeeps(s, run);
    var t := After(s, run);
    var w := SuspendedWait(t, c);
    var sd, v := t.cos[c].sched, t.waits[w];
    if v.winner != Nobody {
      rest := Finish(t, c, w, sd);
      assert [] + rest == rest;
    } else if v.entry == Waiting {
      SwapDetaches(t, c, w, sd);
      SwapIsFree(t, v.kind.ev);
      var u := Apply(t, Swap(v.kind.ev));
      rest := ByVisit(u, c, w, sd);
      Prepend(t, Swap(v.kind.ev), [Visit(w)] + rest);
      assert [Swap(v.kind.ev), Visit(w)] + rest == [Swap(v.kind.ev)] + ([Visit(w)] + rest);
    } else {
      rest := ByVisit(t, c, w, sd);
    }
  }

  lemma SwapIsFree(s: World, ev: nat)
    ensures Enabled(s, Swap(ev)) && Disciplined(s, Swap(ev))
  {
  }

  // ----- without a signal -----

  lemma CheckTimes(s: World, c: nat, w: nat, sd: nat)
    requires Inv(s) && Suspended(s, c, w, sd) && InLoop(s, sd, Checking) && s.waits[w].timer == Armed && s.waits[w].winner == Nobody
    ensures Enabled(s, CheckTimer(w)) && Inv(Apply(s, CheckTimer(w))) && Suspended(Apply(s, CheckTimer(w)), c, w, sd)
    ensures var v := Apply(s, CheckTimer(w)).waits[w];
            v.timer == Due && v.kind == s.waits[w].kind && (v.winner == if s.waits[w].kind.Event? then Checker else Nobody)
  {
    CheckTimerKeeps(s, w);
    assert WaitOk(s, w);
  }

  /** Only the timer of w is checked. */
  predicate ChecksOnly(run: seq<Action>, w: nat) {
    forall i :: 0 <= i < |run| ==> Plain(run[i]) || run[i] == CheckTimer(w)
  }

  lemma NotYet(s: World, t: World, c: nat, w: nat, sd: nat)
    requires Inv(t) && Resumed(s, t, w) && s.waits[w].winner == Nobody
    ensures t.waits[w].kind.Sleep?
  {
    assert WaitOk(t, w);
  }

  lemma ByTimer(s: World, c: nat, w: nat, sd: nat) returns (more: seq<Action>)
    requires Inv(s) && Suspended(s, c, w, sd) && s.waits[w].winner == Nobody && s.waits[w].timer == Armed
    requires s.waits[w].entry !in {Claimed, Queued, Drained}
    ensures IsRun(s, more) && ChecksOnly(more, w) && w < |After(s, more).waits|
    ensures var v := After(s, more).waits[w]; v.resumes == 1 && v.winner == if v.kind.Sleep? then Nobody else Checker
  {
    hide Inv, Enabled, Disciplined, Apply;
    var first := Drive(s, c, w, sd, Checking);
    var t := After(s, first);
    if Resumed(s, t, w) {
      NotYet(s, t, c, w, sd);
      more := first;
    } else {
      CheckTimes(t, c, w, sd);
      var rest := Finish(Apply(t, CheckTimer(w)), c, w, sd);
      Freely(t, CheckTimer(w));
      Prepend(t, CheckTimer(w), rest);
      Concat(s, first, [CheckTimer(w)] + rest);
      more := first + ([CheckTimer(w)] + rest);
    }
  }

  /** Every coroutine suspended in a wait with a timer is resumed without any signal, after one visit of its
      timer at most. */
  lemma TimerWakes(s: World, run: seq<Action>, c: nat) returns (more: seq<Action>)
    requires IsStart(s) && IsRun(s, run) && c < |After(s, run).cos| && After(s, run).cos[c].phase == Parked
    requires var t := After(s, run); 0 <= t.cos[c].wait < |t.waits| && Timed(t.waits[t.cos[c].wait].kind)
    ensures var t := After(s, run); var w := t.cos[c].wait;
            && IsRun(t, more) && ChecksOnly(more, w) && w < |After(t, more).waits|
            && var v := After(t, more).waits[w];
               v.resumes == 1 && (v.kind.Event? ==> v.winner == if t.waits[w].winner == Nobody then Checker else t.waits[w].winner)
  {
    hide Inv, Enabled, Disciplined, Apply;
    StartInv(s);
    RunKeeps(s, run);
    var t := After(s, run);
    var w := SuspendedWait(t, c);
    var sd, v := t.cos[c].sched, t.waits[w];
    if v.winner == Nobody && v.timer == Armed {
      more := ByTimer(t, c, w, sd);
    } else {
      more := Finish(t, c, w, sd);
    }
  }
}
