/**
 * Waking a scheduler that sleeps in epoll_wait (src/co/impl/epoll.h:82-90, src/co/impl/epoll.cc:8-24,
 * src/co/impl/scheduler.h:230-248, src/co/impl/scheduler.cc:82-117): any thread puts a task into the
 * queue, then sets an atomic flag and, if it was the one to set it, writes one byte into a pipe the
 * loop watches edge-triggered. The loop reads the pipe empty, resets the flag and takes the queue.
 */
module Wakeup {

  /** A producer thread: before add_*_task, between push and compare-and-swap, between that and write. */
  datatype Producer = Away | Pushed | Won

  /** Blocked: in epoll_wait. Events: it returned, with or without the event of the pipe. Reading: in
      the read loop of handle_ev_pipe. Resetting: between the loop and the reset of _signaled.
      Taking: before get_all_tasks. Checking: the rest of the iteration, with the timers. */
  datatype Loop = Blocked | Events(pipe: bool) | Reading | Resetting | Taking | Checking

  /** `edge`: epoll will report the pipe. `taken`: all the tasks the loop has got. */
  datatype State = State(queue: seq<nat>, signaled: bool, bytes: nat, edge: bool, producers: seq<Producer>,
                         loop: Loop, taken: seq<nat>)

  datatype Action =
    | Push(p: nat, task: nat)
    | CompareAndSwap(p: nat)
    | Write(p: nat)
    | WriteFails(p: nat)
    | WaitReturns(pipe: bool)
    | EnterHandler
    | SkipHandler
    | Read
    | ReadInterrupted
    | Reset
    | TakeTasks
    | EndIteration

  predicate ProducerIs(s: State, p: nat, x: Producer) {
    p < |s.producers| && s.producers[p] == x
  }

  predicate Enabled(s: State, a: Action) {
    match a
    case Push(p, _) => ProducerIs(s, p, Away)
    case CompareAndSwap(p) => ProducerIs(s, p, Pushed)
    case Write(p) => ProducerIs(s, p, Won)
    case WriteFails(p) => ProducerIs(s, p, Won)
    case WaitReturns(pipe) => s.loop == Blocked && (pipe ==> s.edge)
    case EnterHandler => s.loop == Events(true)
    case SkipHandler => s.loop == Events(false)
    case Read => s.loop == Reading
    case ReadInterrupted => s.loop == Reading
    case Reset => s.loop == Resetting
    case TakeTasks => s.loop == Taking
    case EndIteration => s.loop == Checking
  }

  function Min(a: nat, b: nat): nat {
    if a < b then a else b
  }

  function Apply(s: State, a: Action): State
    requires Enabled(s, a)
  {
    match a
    case Push(p, task) => s.(queue := s.queue + [task], producers := s.producers[p := Pushed])
    case CompareAndSwap(p) => s.(signaled := true, producers := s.producers[p := if s.signaled then Away else Won])
    case Write(p) => s.(bytes := s.bytes + 1, edge := true, producers := s.producers[p := Away])
    case WriteFails(p) => s.(producers := s.producers[p := Away])
    case WaitReturns(pipe) => s.(loop := Events(pipe), edge := s.edge && !pipe)
    case EnterHandler => s.(loop := Reading)
    case SkipHandler => s.(loop := Taking)
    case Read =>
      // up to four bytes; fewer than four, or EAGAIN on an empty pipe, end the loop
      var r := Min(s.bytes, 4);
      s.(bytes := s.bytes - r, loop := if r < 4 then Resetting else Reading)
    case ReadInterrupted => s
    case Reset => s.(signaled := false, loop := Taking)
    case TakeTasks => s.(queue := [], taken := s.taken + s.queue, loop := Checking)
    case EndIteration => s.(loop := Blocked)
  }

  predicate IsStart(s: State) {
    && s.queue == [] && s.taken == [] && !s.signaled && s.bytes == 0 && !s.edge && s.loop == Blocked
    && forall p :: 0 <= p < |s.producers| ==> s.producers[p] == Away
  }

  predicate IsRun(s: State, run: seq<Action>)
    decreases |run|
  {
    run == [] || (Enabled(s, run[0]) && IsRun(Apply(s, run[0]), run[1..]))
  }

  function After(s: State, run: seq<Action>): State
    requires IsRun(s, run)
    decreases |run|
  {
    if run == [] then s else After(Apply(s, run[0]), run[1..])
  }

  /** The tasks of a run in the order in which they are pushed. */
  function Tasks(run: seq<Action>): seq<nat>
    decreases |run|
  {
    if run == [] then [] else (if run[0].Push? then [run[0].task] else []) + Tasks(run[1..])
  }

  predicate WritesSucceed(run: seq<Action>) {
    forall i :: 0 <= i < |run| ==> !run[i].WriteFails?
  }

  // ----- the invariant -----

  ghost predicate SomeProducer(s: State, x: Producer) {
    exists p :: ProducerIs(s, p, x)
  }

  /** The flag is up exactly while one of three holds it: the byte in the pipe, a writer, the loop. */
  ghost predicate FlagExplained(s: State) {
    && s.bytes <= 1
    && (s.signaled <==> s.bytes == 1 || SomeProducer(s, Won) || s.loop == Resetting)
    && !(s.bytes == 1 && SomeProducer(s, Won)) && !(s.bytes == 1 && s.loop == Resetting)
    && !(SomeProducer(s, Won) && s.loop == Resetting)
    && (forall p, q :: ProducerIs(s, p, Won) && ProducerIs(s, q, Won) ==> p == q)
  }

  /** The byte is announced until the loop is on its way to it. */
  predicate EdgeOk(s: State) {
    s.bytes == 1 <==> s.edge || s.loop in {Events(true), Reading}
  }

  predicate EdgeOnce(s: State) {
    s.edge ==> s.loop !in {Events(true), Reading}
  }

  /** A loop past get_all_tasks has either nothing to do or somebody about to wake it. */
  ghost predicate TasksSeen(s: State) {
    s.queue != [] && s.loop in {Checking, Blocked} ==> s.signaled || SomeProducer(s, Pushed)
  }

  ghost predicate Inv(s: State) {
    FlagExplained(s) && EdgeOk(s) && EdgeOnce(s) && TasksSeen(s)
  }

  /** Whoever sleeps with work to do will be woken. */
  ghost predicate NoLostWakeup(s: State) {
    s.loop == Blocked && s.queue != [] ==>
      (s.bytes == 1 && s.edge) || SomeProducer(s, Pushed) || SomeProducer(s, Won)
  }

  lemma StartInv(s: State)
    requires IsStart(s)
    ensures Inv(s)
  {
  }

  /** Among the other producers nothing changes. */
  lemma Others(s: State, t: State, p: nat)
    requires p < |s.producers| == |t.producers| && t.producers == s.producers[p := t.producers[p]]
    ensures forall q: nat, x :: q != p ==> ProducerIs(s, q, x) == ProducerIs(t, q, x)
    ensures forall x :: SomeProducer(t, x) && t.producers[p] != x ==> SomeProducer(s, x)
    ensures forall x :: SomeProducer(s, x) && s.producers[p] != x ==> SomeProducer(t, x)
  {
    forall x | SomeProducer(t, x) && t.producers[p] != x ensures SomeProducer(s, x) {
      var q :| ProducerIs(t, q, x);
      assert ProducerIs(s, q, x);
    }
    forall x | SomeProducer(s, x) && s.producers[p] != x ensures SomeProducer(t, x) {
      var q :| ProducerIs(s, q, x);
      assert ProducerIs(t, q, x);
    }
  }

  lemma PushKeeps(s: State, p: nat, task: nat)
    requires Inv(s) && Enabled(s, Push(p, task))
    ensures Inv(Apply(s, Push(p, task)))
  {
    var t := Apply(s, Push(p, task));
    hide SomeProducer;
    Others(s, t, p);
    assert ProducerIs(t, p, Pushed) && SomeProducer(t, Pushed) by { IsSome(t, p, Pushed); }
    assert SomeProducer(s, Won) == SomeProducer(t, Won);
  }

  lemma IsSome(s: State, p: nat, x: Producer)
    requires ProducerIs(s, p, x)
    ensures SomeProducer(s, x)
  {
  }

  lemma CompareAndSwapKeeps(s: State, p: nat)
    requires Inv(s) && Enabled(s, CompareAndSwap(p))
    ensures Inv(Apply(s, CompareAndSwap(p)))
  {
    var t := Apply(s, CompareAndSwap(p));
    Others(s, t, p);
    if s.signaled {
      assert SomeProducer(s, Won) == SomeProducer(t, Won);
    } else {
      assert ProducerIs(t, p, Won);
      assert forall q :: ProducerIs(t, q, Won) ==> q == p || ProducerIs(s, q, Won);
    }
  }

  lemma WriteKeeps(s: State, p: nat)
    requires Inv(s) && Enabled(s, Write(p))
    ensures Inv(Apply(s, Write(p)))
  {
    var t := Apply(s, Write(p));
    Others(s, t, p);
    assert forall q :: ProducerIs(t, q, Won) ==> ProducerIs(s, q, Won) && q != p;
    assert !SomeProducer(t, Won);
  }

  lemma LoopKeeps(s: State, a: Action)
    requires Inv(s) && Enabled(s, a) && !a.Push? && !a.CompareAndSwap? && !a.Write? && !a.WriteFails?
    ensures Inv(Apply(s, a))
  {
    var t := Apply(s, a);
    assert forall x, q :: ProducerIs(t, q, x) == ProducerIs(s, q, x);
    assert forall x :: SomeProducer(t, x) == SomeProducer(s, x);
  }

  lemma StepKeeps(s: State, a: Action)
    requires Inv(s) && Enabled(s, a) && !a.WriteFails?
    ensures Inv(Apply(s, a))
  {
    hide Inv;
    match a
    case Push(p, task) => PushKeeps(s, p, task);
    case CompareAndSwap(p) => CompareAndSwapKeeps(s, p);
    case Write(p) => WriteKeeps(s, p);
    case _ => LoopKeeps(s, a);
  }

  lemma StepConserves(s: State, a: Action)
    requires Enabled(s, a)
    ensures Apply(s, a).taken + Apply(s, a).queue == s.taken + s.queue + if a.Push? then [a.task] else []
  {
  }

  lemma {:induction false} RunKeeps(s: State, run: seq<Action>)
    requires Inv(s) && IsRun(s, run) && WritesSucceed(run)
    ensures Inv(After(s, run))
    decreases |run|
  {
    hide Inv, Enabled, Apply;
    if run != [] {
      StepKeeps(s, run[0]);
      RunKeeps(Apply(s, run[0]), run[1..]);
    }
  }

  lemma {:induction false} RunConserves(s: State, run: seq<Action>)
    requires IsRun(s, run)
    ensures After(s, run).taken + After(s, run).queue == s.taken + s.queue + Tasks(run)
    decreases |run|
  {
    hide Enabled, Apply;
    if run != [] {
      StepConserves(s, run[0]);
      RunConserves(Apply(s, run[0]), run[1..]);
      assert s.taken + s.queue + ((if run[0].Push? then [run[0].task] else []) + Tasks(run[1..]))
          == s.taken + s.queue + (if run[0].Push? then [run[0].task] else []) + Tasks(run[1..]);
    }
  }

  /** Tasks leave the queue in the order in which they came, each once, in every run. */
  lemma TasksTakenInOrder(s: State, run: seq<Action>)
    requires IsStart(s) && IsRun(s, run)
    ensures After(s, run).taken + After(s, run).queue == Tasks(run)
  {
    RunConserves(s, run);
  }

  /** In every run whose writes succeed the flag is explained and no wakeup is lost. */
  lemma NoWakeupIsLost(s: State, run: seq<Action>)
    requires IsStart(s) && IsRun(s, run) && WritesSucceed(run)
    ensures FlagExplained(After(s, run)) && NoLostWakeup(After(s, run))
  {
    StartInv(s);
    RunKeeps(s, run);
  }

  // ----- all tasks are taken in the end -----

  /** A step of somebody who is under way: nobody comes with a new task, no time runs out in epoll_wait,
      nothing fails or is interrupted. */
  predicate IsProgress(a: Action) {
    !a.Push? && !a.WriteFails? && !a.ReadInterrupted? && a != WaitReturns(false)
  }

  predicate AllProgress(run: seq<Action>) {
    forall i :: 0 <= i < |run| ==> IsProgress(run[i])
  }

  function Left(ps: seq<Producer>): nat {
    if ps == [] then 0 else Left(ps[..|ps| - 1]) + match ps[|ps| - 1] case Away => 0 case Pushed => 8 case Won => 7
  }

  /** A bound on what is still to be done. */
  function Rank(s: State): nat {
    Left(s.producers) + (if s.edge then 6 else 0) +
    match s.loop case Blocked => 0 case Checking => 1 case Taking => 2 case Resetting => 3 case Reading => 4
                 case Events(pipe) => if pipe then 5 else 3
  }

  lemma {:induction false} LeftUpdate(ps: seq<Producer>, p: nat, x: Producer)
    requires p < |ps|
    ensures Left(ps[p := x]) + Left([ps[p]]) == Left(ps) + Left([x])
    decreases |ps|
  {
    var n := |ps| - 1;
    assert [ps[p]][..0] == [] && [x][..0] == [];
    if p == n {
      assert ps[p := x][..n] == ps[..n];
    } else {
      assert ps[p := x][..n] == ps[..n][p := x];
      LeftUpdate(ps[..n], p, x);
    }
  }

  lemma ProgressLowersRank(s: State, a: Action)
    requires Inv(s) && Enabled(s, a) && IsProgress(a)
    ensures Rank(Apply(s, a)) < Rank(s)
  {
    assert Left([Away]) == 0 && Left([Pushed]) == 8 && Left([Won]) == 7;
    if a.CompareAndSwap? || a.Write? {
      LeftUpdate(s.producers, a.p, Apply(s, a).producers[a.p]);
    }
  }

  lemma QuietIsDone(s: State)
    requires Inv(s) && forall a :: Enabled(s, a) ==> !IsProgress(a)
    ensures s.queue == [] && s.loop == Blocked && !s.signaled
  {
    assert !Enabled(s, WaitReturns(true)) && !Enabled(s, EnterHandler) && !Enabled(s, SkipHandler) && !Enabled(s, Read);
    assert !Enabled(s, Reset) && !Enabled(s, TakeTasks) && !Enabled(s, EndIteration);
    forall p: nat ensures !ProducerIs(s, p, Pushed) && !ProducerIs(s, p, Won) {
      assert !Enabled(s, CompareAndSwap(p)) && !Enabled(s, Write(p));
    }
  }

  lemma {:induction false} ProgressEnds(s: State, run: seq<Action>)
    requires Inv(s) && IsRun(s, run) && AllProgress(run)
    ensures Inv(After(s, run)) && |run| + Rank(After(s, run)) <= Rank(s) && Tasks(run) == []
    decreases |run|
  {
    hide Inv, Enabled, Apply, Rank;
    if run != [] {
      assert IsProgress(run[0]);
      StepKeeps(s, run[0]);
      ProgressLowersRank(s, run[0]);
      ProgressEnds(Apply(s, run[0]), run[1..]);
    }
  }

  /** Whatever has happened, the steps of those under way come to an end, in whatever order they are taken,
      and then every task that was ever pushed has been taken and the loop sleeps with the flag down. */
  lemma TasksAreTaken(s: State, run: seq<Action>, more: seq<Action>)
    requires IsStart(s) && IsRun(s, run) && WritesSucceed(run)
    requires IsRun(After(s, run), more) && AllProgress(more)
    ensures |more| <= Rank(After(s, run))
    ensures var t := After(After(s, run), more);
            (forall a :: Enabled(t, a) ==> !IsProgress(a)) ==> t.taken == Tasks(run) && t.loop == Blocked && !t.signaled
  {
    hide Inv, Enabled, Apply, Rank, IsProgress;
    StartInv(s);
    RunKeeps(s, run);
    TasksTakenInOrder(s, run);
    var t := After(s, run);
    ProgressEnds(t, more);
    RunConserves(t, more);
    var u := After(t, more);
    if forall a :: Enabled(u, a) ==> !IsProgress(a) {
      QuietIsDone(u);
      assert u.taken + [] == u.taken;
    }
  }

  // ----- a failed write -----

  /** The flag is up with nobody left to take it down. */
  ghost predicate Wedged(s: State) {
    && s.signaled && s.bytes == 0 && !s.edge && !SomeProducer(s, Won)
    && s.loop !in {Events(true), Reading, Resetting}
  }

  lemma FailedWriteWedges(s: State, p: nat)
    requires Inv(s) && Enabled(s, WriteFails(p))
    ensures Wedged(Apply(s, WriteFails(p)))
  {
    var t := Apply(s, WriteFails(p));
    assert SomeProducer(s, Won);
    assert forall q :: ProducerIs(t, q, Won) ==> ProducerIs(s, q, Won) && q != p;
  }

  lemma WedgedStays(s: State, a: Action)
    requires Wedged(s) && Enabled(s, a)
    ensures Wedged(Apply(s, a)) && !a.WriteFails?
  {
    var t := Apply(s, a);
    assert forall q :: !ProducerIs(s, q, Won);
    assert forall q :: ProducerIs(t, q, Won) ==> ProducerIs(s, q, Won) || (a == CompareAndSwap(q) && !s.signaled);
  }

  lemma {:induction false} WedgedForever(s: State, run: seq<Action>)
    requires Wedged(s) && IsRun(s, run)
    ensures Wedged(After(s, run))
    decreases |run|
  {
    hide Wedged, Enabled, Apply;
    if run != [] {
      WedgedStays(s, run[0]);
      WedgedForever(Apply(s, run[0]), run[1..]);
    }
  }

  lemma {:induction false} FailureWedges(s: State, run: seq<Action>)
    requires Inv(s) && IsRun(s, run) && !WritesSucceed(run)
    ensures Wedged(After(s, run))
    decreases |run|
  {
    hide Inv, Wedged, Enabled, Apply;
    if run[0].WriteFails? {
      FailedWriteWedges(s, run[0].p);
      WedgedForever(Apply(s, run[0]), run[1..]);
    } else {
      StepKeeps(s, run[0]);
      var i :| 0 <= i < |run| && run[i].WriteFails?;
      assert run[1..][i - 1] == run[i];
      FailureWedges(Apply(s, run[0]), run[1..]);
    }
  }

  predicate AwayFrom(s: State, i: nat) {
    i <= |s.producers| && forall p :: i <= p < |s.producers| ==> s.producers[p] == Away
  }

  function Distance(l: Loop): nat {
    match l case Blocked => 0 case Checking => 1 case Taking => 2 case Events(_) => 3 case _ => 4
  }

  lemma Prepend(s: State, a: Action, rest: seq<Action>)
    requires Enabled(s, a) && IsRun(Apply(s, a), rest) && !a.WriteFails? && WritesSucceed(rest)
    ensures IsRun(s, [a] + rest) && After(s, [a] + rest) == After(Apply(s, a), rest) && WritesSucceed([a] + rest)
  {
    hide Enabled, Apply;
    assert ([a] + rest)[1..] == rest;
  }

  /** Let the producers finish, let the loop go to sleep, then push one more task. */
  lemma {:induction false} LosingRun(s: State, i: nat) returns (run: seq<Action>)
    requires Wedged(s) && |s.producers| > 0 && AwayFrom(s, i)
    ensures IsRun(s, run) && WritesSucceed(run) && !NoLostWakeup(After(s, run))
    decreases i, Distance(s.loop)
  {
    hide IsRun, After, NoLostWakeup, WritesSucceed;
    if i > 0 && s.producers[i - 1] == Away {
      run := LosingRun(s, i - 1);
    } else if i > 0 {
      assert !ProducerIs(s, i - 1, Won);
      WedgedStays(s, CompareAndSwap(i - 1));
      run := LosingRun(Apply(s, CompareAndSwap(i - 1)), i - 1);
      Prepend(s, CompareAndSwap(i - 1), run);
      run := [CompareAndSwap(i - 1)] + run;
    } else if s.loop != Blocked {
      var a := match s.loop case Checking => EndIteration case Taking => TakeTasks case _ => SkipHandler;
      WedgedStays(s, a);
      run := LosingRun(Apply(s, a), 0);
      Prepend(s, a, run);
      run := [a] + run;
    } else {
      run := LastPush(s);
    }
  }

  lemma LastPush(s: State) returns (run: seq<Action>)
    requires Wedged(s) && |s.producers| > 0 && AwayFrom(s, 0) && s.loop == Blocked
    ensures IsRun(s, run) && WritesSucceed(run) && !NoLostWakeup(After(s, run))
  {
    var t := Apply(s, Push(0, 0));
    var u := Apply(t, CompareAndSwap(0));
    assert u.producers == s.producers;
    assert forall p, x :: ProducerIs(u, p, x) ==> x == Away;
    assert IsRun(u, []) && After(u, []) == u;
    Prepend(t, CompareAndSwap(0), []);
    Prepend(s, Push(0, 0), [CompareAndSwap(0)] + []);
    run := [Push(0, 0)] + ([CompareAndSwap(0)] + []);
  }

  /** From here on no wakeup is lost if and only if no write of the pipe has failed so far. */
  lemma WakeupsSafeIffWritesSucceed(s: State, run: seq<Action>)
    requires IsStart(s) && IsRun(s, run) && |s.producers| > 0
    ensures WritesSucceed(run) <==>
            forall more :: IsRun(After(s, run), more) && WritesSucceed(more) ==> NoLostWakeup(After(After(s, run), more))
  {
    hide IsRun, After, Inv, Wedged, NoLostWakeup;
    StartInv(s);
    var t := After(s, run);
    if WritesSucceed(run) {
      RunKeeps(s, run);
      forall more | IsRun(t, more) && WritesSucceed(more) ensures NoLostWakeup(After(t, more)) {
        RunKeeps(t, more);
        InvIsSafe(After(t, more));
      }
    } else {
      FailureWedges(s, run);
      SameProducers(s, run);
      var more := LosingRun(t, |t.producers|);
    }
  }

  lemma InvIsSafe(s: State)
    requires Inv(s)
    ensures NoLostWakeup(s)
  {
  }

  lemma {:induction false} SameProducers(s: State, run: seq<Action>)
    requires IsRun(s, run)
    ensures |After(s, run).producers| == |s.producers|
    decreases |run|
  {
    if run != [] {
      SameProducers(Apply(s, run[0]), run[1..]);
    }
  }
}
