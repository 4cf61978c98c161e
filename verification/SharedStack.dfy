/**
 * All coroutines of a scheduler run on one stack (src/co/impl/scheduler.cc:12-16 and 31-74,
 * src/co/impl/scheduler.h:51-109 and 307-317): resume copies the saved bytes back, yield copies
 * them out. The scheduler is proved against a machine in which every coroutine has a stack of
 * its own that nobody else touches.
 */
module SharedStack {
  import opened Common

  type Closure = nat
  type Input = nat

  /** What one stretch of a coroutine leaves: the bytes between its stack pointer and the stack
      top if it yields, and anything at all below them. */
  datatype Outcome = Yields(frame: seq<byte>, below: nat -> byte) | Finishes(below: nat -> byte)

  /** The code of the coroutines: where a stretch ends depends on the closure at the start, later on
      the bytes it finds on its stack, and on what it reads from elsewhere. */
  datatype Program = Program(start: (Closure, Input) -> Outcome, proceed: (seq<byte>, Input) -> Outcome)

  ghost predicate FitsIn(o: Outcome, size: nat) {
    o.Yields? ==> |o.frame| <= size
  }

  /** No stack overflow. */
  ghost predicate Fits(p: Program, size: nat) {
    && (forall c, i :: FitsIn(p.start(c, i), size))
    && (forall f, i :: FitsIn(p.proceed(f, i), size))
  }

  // ----- private stacks -----

  /** The suspended coroutines, by serial number, with the bytes of their own stacks. */
  datatype Machine = Machine(next: nat, frames: map<nat, seq<byte>>)

  datatype Action = Start(cb: Closure, input: Input) | Resume(serial: nat, input: Input)

  predicate Enabled(m: Machine, a: Action) {
    a.Resume? ==> a.serial in m.frames
  }

  function Left(m: Machine, serial: nat, o: Outcome): Machine {
    m.(frames := match o case Yields(f, _) => m.frames[serial := f] case Finishes(_) => m.frames - {serial})
  }

  function Step(p: Program, m: Machine, a: Action): Machine
    requires Enabled(m, a)
  {
    match a
    case Start(cb, i) => Left(m.(next := m.next + 1), m.next, p.start(cb, i))
    case Resume(s, i) => Left(m, s, p.proceed(m.frames[s], i))
  }

  predicate IsSchedule(p: Program, m: Machine, run: seq<Action>)
    decreases |run|
  {
    run == [] || (Enabled(m, run[0]) && IsSchedule(p, Step(p, m, run[0]), run[1..]))
  }

  function Steps(p: Program, m: Machine, run: seq<Action>): Machine
    requires IsSchedule(p, m, run)
    decreases |run|
  {
    if run == [] then m else Steps(p, Step(p, m, run[0]), run[1..])
  }

  /** The inputs a coroutine gets in its own stretches after the machine is at m. */
  function InputsOf(run: seq<Action>, serial: nat): seq<Input>
    decreases |run|
  {
    if run == [] then []
    else (if run[0].Resume? && run[0].serial == serial then [run[0].input] else []) + InputsOf(run[1..], serial)
  }

  /** A coroutine all by itself: its bytes after these stretches, None once it has finished. */
  function Alone(p: Program, frame: Option<seq<byte>>, inputs: seq<Input>): Option<seq<byte>>
    decreases |inputs|
  {
    if inputs == [] || frame.None? then frame
    else Alone(p, match p.proceed(frame.value, inputs[0]) case Yields(f, _) => Some(f) case Finishes(_) => None, inputs[1..])
  }

  function FrameOf(m: Machine, serial: nat): Option<seq<byte>> {
    if serial in m.frames then Some(m.frames[serial]) else None
  }

  /** Isolation: whatever the others do in between, a coroutine ends where it would have ended alone. */
  lemma {:induction false} OthersDoNotMatter(p: Program, m: Machine, run: seq<Action>, serial: nat)
    requires IsSchedule(p, m, run) && serial in m.frames && forall s :: s in m.frames ==> s < m.next
    ensures FrameOf(Steps(p, m, run), serial) == Alone(p, Some(m.frames[serial]), InputsOf(run, serial))
    decreases |run|
  {
    if run != [] {
      var t := Step(p, m, run[0]);
      var mine := run[0].Resume? && run[0].serial == serial;
      var rest := InputsOf(run[1..], serial);
      assert InputsOf(run, serial) == if mine then [run[0].input] + rest else rest;
      assert mine ==> ([run[0].input] + rest)[1..] == rest;
      if serial in t.frames {
        OthersDoNotMatter(p, t, run[1..], serial);
      } else {
        FinishedStays(p, t, run[1..], serial);
      }
    }
  }

  lemma {:induction false} FinishedStays(p: Program, m: Machine, run: seq<Action>, serial: nat)
    requires IsSchedule(p, m, run) && serial !in m.frames && serial < m.next
    ensures serial !in Steps(p, m, run).frames && InputsOf(run, serial) == []
    decreases |run|
  {
    if run != [] {
      FinishedStays(p, Step(p, m, run[0]), run[1..], serial);
    }
  }

  // ----- the pool of coroutines -----

  class Coroutine {
    const id: nat
    /** The stack pointer, None for a null context. */
    var ctx: Option<nat>
    /** The saved bytes. */
    var stack: seq<byte>
    var cb: Closure

    constructor (i: nat)
      ensures id == i && ctx == None && stack == []
    {
      id, ctx, stack, cb := i, None, [], 0;
    }
  }

  class Copool {
    var pool: seq<Coroutine>
    /** Ids of available coroutines in the pool. */
    var ids: seq<nat>

    ghost predicate Valid()
      reads this
    {
      && (forall i :: 0 <= i < |pool| ==> pool[i].id == i)
      && (forall i :: 0 <= i < |ids| ==> ids[i] < |pool|)
      && (forall i, j :: 0 <= i < j < |ids| ==> ids[i] != ids[j])
    }

    ghost predicate InUse(id: nat)
      reads this
    {
      id < |pool| && id !in ids
    }

    constructor ()
      ensures Valid() && pool == [] && ids == []
    {
      pool, ids := [], [];
    }

    /** A coroutine nobody uses, cleared; everybody else keeps theirs. */
    method Pop() returns (co: Coroutine)
      requires Valid()
      modifies this, pool
      ensures Valid() && (pool == old(pool) || (pool == old(pool) + [co] && fresh(co)))
      ensures co.id < |pool| && pool[co.id] == co && forall i :: old(InUse(i)) ==> i != co.id
      ensures forall i :: InUse(i) <==> old(InUse(i)) || i == co.id
      ensures co.ctx == None && co.stack == []
      ensures forall i :: 0 <= i < |old(pool)| && i != co.id ==> unchanged(pool[i])
      ensures old(pool) == [] ==> co.id == 0
    {
      if ids != [] {
        var last := ids[|ids| - 1];
        co := pool[last];
        co.stack := [];
        co.ctx := None;
        ids := ids[..|ids| - 1];
      } else {
        co := new Coroutine(|pool|);
        pool := pool + [co];
      }
    }

    method Push(co: Coroutine)
      requires Valid() && InUse(co.id)
      modifies `ids
      ensures Valid() && ids == old(ids) + [co.id]
      ensures forall i :: InUse(i) <==> old(InUse(i)) && i != co.id
    {
      ids := ids + [co.id];
    }
  }

  // ----- what the ids in use stand for -----

  /** The coroutine with id i is number serials[i] and has saved the bytes saved[i]: the machine
      has exactly these coroutines, with these stacks. */
  ghost predicate Represents(serials: map<nat, nat>, saved: map<nat, seq<byte>>, m: Machine) {
    && saved.Keys == serials.Keys
    && (forall i :: i in serials ==> serials[i] in m.frames && m.frames[serials[i]] == saved[i])
    && (forall i, j :: i in serials && j in serials && serials[i] == serials[j] ==> i == j)
    && (forall s :: s in m.frames ==> s < m.next && HasSerial(serials, s))
  }

  ghost predicate HasSerial(serials: map<nat, nat>, s: nat) {
    exists i :: i in serials && serials[i] == s
  }

  lemma YieldRepresents(serials: map<nat, nat>, saved: map<nat, seq<byte>>, m: Machine, i: nat, f: seq<byte>)
    requires Represents(serials, saved, m) && i in serials
    ensures Represents(serials, saved[i := f], m.(frames := m.frames[serials[i] := f]))
  {
  }

  lemma FinishRepresents(serials: map<nat, nat>, saved: map<nat, seq<byte>>, m: Machine, i: nat)
    requires Represents(serials, saved, m) && i in serials
    ensures Represents(serials - {i}, saved - {i}, m.(frames := m.frames - {serials[i]}))
  {
    forall s | s in m.frames && s != serials[i] ensures HasSerial(serials - {i}, s) {
      var j :| j in serials && serials[j] == s;
      assert j in serials - {i};
    }
  }

  lemma NextIsNew(serials: map<nat, nat>, saved: map<nat, seq<byte>>, m: Machine)
    requires Represents(serials, saved, m)
    ensures m.next !in m.frames && m.frames - {m.next} == m.frames
  {
  }

  /** A task that finishes in its first stretch leaves nothing. */
  lemma EmptyRunRepresents(serials: map<nat, nat>, saved: map<nat, seq<byte>>, m: Machine)
    requires Represents(serials, saved, m)
    ensures Represents(serials, saved, m.(next := m.next + 1))
  {
  }

  lemma StartRepresents(serials: map<nat, nat>, saved: map<nat, seq<byte>>, m: Machine, i: nat, f: seq<byte>)
    requires Represents(serials, saved, m) && i !in serials
    ensures Represents(serials[i := m.next], saved[i := f], Machine(m.next + 1, m.frames[m.next := f]))
  {
    forall s | s in m.frames ensures HasSerial(serials[i := m.next], s) {
      var j :| j in serials && serials[j] == s;
      assert j in serials[i := m.next];
    }
    assert i in serials[i := m.next];
  }

  // ----- the scheduler -----

  class Scheduler {
    const size: nat
    const program: Program
    /** _stack, null until the first resume. */
    var stack: array?<byte>
    const pool: Copool
    const mainCo: Coroutine
    var running: Coroutine?
    /** The serial number of the coroutine that uses an id now. */
    var serials: map<nat, nat>
    /** How many tasks have been started. */
    var started: nat
    /** The machine with private stacks, one step for every resume. */
    ghost var machine: Machine

    ghost predicate HasStack()
      reads `stack
    {
      stack == null || stack.Length == size
    }

    /** The main coroutine has id 0 for ever. */
    ghost predicate PoolOk()
      reads `serials, pool
    {
      && pool.Valid() && pool.pool != [] && pool.pool[0] == mainCo && pool.InUse(0)
      && forall i :: i in serials <==> pool.InUse(i) && i != 0
    }

    /** The coroutine with id i is suspended, its bytes between its stack pointer and the top saved. */
    ghost predicate Saved(i: nat)
      requires i < |pool.pool|
      reads pool, pool.pool
    {
      var co := pool.pool[i];
      |co.stack| <= size && co.ctx == Some(size - |co.stack|)
    }

    ghost function Bytes(): (b: map<nat, seq<byte>>)
      requires PoolOk()
      reads `serials, pool, pool.pool
    {
      map i: nat | i in serials :: pool.pool[i].stack
    }

    ghost predicate AllSaved()
      requires PoolOk()
      reads `serials, pool, pool.pool
    {
      forall i :: i in serials ==> Saved(i)
    }

    ghost predicate Valid()
      reads this, pool, pool.pool
    {
      && HasStack() && Fits(program, size) && PoolOk() && AllSaved()
      && Represents(serials, Bytes(), machine) && started == machine.next
    }

    constructor (p: Program, n: nat)
      requires Fits(p, n)
      ensures Valid() && machine == Machine(0, map[]) && program == p && size == n
      ensures fresh(pool) && (forall i :: 0 <= i < |pool.pool| ==> fresh(pool.pool[i])) && stack == null
    {
      size, program, stack, running, serials, started, machine := n, p, null, null, map[], 0, Machine(0, map[]);
      var cs := new Copool();
      var first := cs.Pop();
      mainCo, pool := first, cs;
    }

    /** The jump into the coroutine and back: it may write the whole stack. None if it has finished. */
    method Jump(o: Outcome) returns (from: Option<nat>)
      requires stack != null && stack.Length == size && FitsIn(o, size)
      modifies stack
      ensures o.Yields? ==> from == Some(size - |o.frame|) && stack[size - |o.frame|..] == o.frame
      ensures o.Finishes? ==> from == None
    {
      var sp := if o.Yields? then size - |o.frame| else size;
      for i := 0 to size
        invariant forall k :: sp <= k < i ==> stack[k] == o.frame[k - sp]
      {
        stack[i] := if i < sp then o.below(i) else o.frame[i - sp];
      }
      from := if o.Yields? then Some(sp) else None;
    }

    /** memcpy of the saved bytes back to where they were. */
    method Restore(co: Coroutine)
      requires stack != null && stack.Length == size && co.ctx.Some? && co.ctx.value + |co.stack| == size
      modifies stack
      ensures stack[co.ctx.value..] == co.stack
    {
      for i := 0 to |co.stack|
        invariant forall k :: 0 <= k < i ==> stack[co.ctx.value + k] == co.stack[k]
      {
        stack[co.ctx.value + i] := co.stack[i];
      }
    }

    /** Copy out what lies between the stack pointer and the top. */
    method SaveStack(co: Coroutine)
      requires stack != null && stack.Length == size && co.ctx.Some? && co.ctx.value <= size
      modifies co`stack
      ensures co.stack == stack[co.ctx.value..]
    {
      co.stack := stack[co.ctx.value..];
    }

    /** What resume did to the coroutine: it saved the new bytes, or gave its id back to the available ones. */
    ghost predicate LeftBy(co: Coroutine, o: Outcome, ids: seq<nat>)
      reads pool, co
    {
      && pool.Valid()
      && match o
         case Yields(f, _) => co.stack == f && |f| <= size && co.ctx == Some(size - |f|) && pool.ids == ids
         case Finishes(_) => pool.ids == ids + [co.id]
    }

    /** resume for a new or a suspended coroutine, with main_func's recycling at the end. */
    method Resume(co: Coroutine, input: Input)
      requires HasStack() && Fits(program, size)
      requires pool.Valid() && pool.InUse(co.id) && co.id != 0 && co in pool.pool
      requires co.ctx.Some? ==> co.ctx.value + |co.stack| == size
      modifies `stack, `running, stack, co, pool`ids
      ensures HasStack() && pool.Valid() && (stack == old(stack) || fresh(stack))
      ensures var o := if old(co.ctx).None? then program.start(old(co.cb), input) else program.proceed(old(co.stack), input);
              LeftBy(co, o, old(pool.ids))
    {
      running := co;
      if stack == null {
        stack := new byte[size];
      }
      var o;
      if co.ctx == None {
        o := program.start(co.cb, input);
        assert FitsIn(program.start(co.cb, input), size);
      } else {
        Restore(co);
        // what the coroutine finds on the stack
        o := program.proceed(stack[co.ctx.value..], input);
        assert FitsIn(program.proceed(co.stack, input), size);
      }
      var from := Jump(o);
      if from.Some? {
        co.ctx := from;
        SaveStack(co);
      } else {
        pool.Push(co);
      }
    }

    /** A suspended coroutine goes on: one step of the machine with private stacks. */
    method ResumeSuspended(co: Coroutine, input: Input)
      requires Valid() && co.id in serials && pool.pool[co.id] == co
      modifies `stack, `running, `serials, `machine, stack, pool`ids, co
      ensures Valid() && (stack == old(stack) || fresh(stack))
      ensures machine == Step(program, old(machine), Action.Resume(old(serials[co.id]), input))
    {
      hide Represents, Fits, Saved, AllSaved, PoolOk, Bytes, Left, HasStack;
      ghost var m := Left(machine, serials[co.id], program.proceed(co.stack, input));
      SuspendedFrame(co);
      LeftNext(machine, serials[co.id], program.proceed(co.stack, input));
      ResumeAndForget(co, input);
      machine := m;
    }

    lemma SuspendedFrame(co: Coroutine)
      requires Valid() && co.id in serials && pool.pool[co.id] == co
      ensures serials[co.id] in machine.frames && machine.frames[serials[co.id]] == co.stack
    {
      hide Represents;
      SameFrame(serials, Bytes(), machine, co.id);
    }

    method ResumeAndForget(co: Coroutine, input: Input)
      requires Valid() && co.id in serials && pool.pool[co.id] == co
      modifies `stack, `running, `serials, stack, pool`ids, co
      ensures HasStack() && PoolOk() && AllSaved() && (stack == old(stack) || fresh(stack))
      ensures Represents(serials, Bytes(), Left(machine, old(serials[co.id]), program.proceed(old(co.stack), input)))
    {
      hide Represents, Fits;
      assert Saved(co.id);
      Resume(co, input);
      if co.id in pool.ids {
        serials := serials - {co.id};
      }
      ResumedIsStep(co);
    }

    /** A new task: pop a coroutine from the pool and resume it. */
    method StartTask(cb: Closure, input: Input) returns (co: Coroutine)
      requires Valid()
      modifies this, stack, pool, pool.pool
      ensures Valid() && (stack == old(stack) || fresh(stack)) && (pool.pool == old(pool.pool) || (pool.pool == old(pool.pool) + [co] && fresh(co)))
      ensures machine == Step(program, old(machine), Start(cb, input))
      ensures co.id != 0 && co.id !in old(serials)
      ensures co.id in serials ==> serials[co.id] == old(started)
    {
      hide Represents, Fits, Saved, AllSaved, PoolOk, Bytes, Left, HasStack;
      ghost var m := Left(machine.(next := machine.next + 1), machine.next, program.start(cb, input));
      LeftNext(machine.(next := machine.next + 1), machine.next, program.start(cb, input));
      co := PopAndResume(cb, input);
      started := started + 1;
      machine := m;
    }

    /** new_coroutine */
    method NewCoroutine(cb: Closure) returns (co: Coroutine)
      requires PoolOk()
      modifies pool, pool.pool
      ensures pool.Valid() && pool.pool != [] && pool.pool[0] == mainCo
      ensures pool.pool == old(pool.pool) || (pool.pool == old(pool.pool) + [co] && fresh(co))
      ensures co.id < |pool.pool| && pool.pool[co.id] == co && co.id !in serials && co.id != 0
      ensures forall i :: pool.InUse(i) <==> old(pool.InUse(i)) || i == co.id
      ensures co.ctx == None && co.stack == [] && co.cb == cb
      ensures forall i :: 0 <= i < |old(pool.pool)| && i != co.id ==> unchanged(old(pool.pool)[i])
    {
      ghost var before := pool.pool;
      assert forall i :: 0 <= i < |before| ==> before[i].id == i;
      co := pool.Pop();
      assert forall i :: 0 <= i < |before| ==> pool.pool[i] == before[i];
      co.cb := cb;
    }

    method PopAndResume(cb: Closure, input: Input) returns (co: Coroutine)
      requires Valid()
      modifies `stack, `running, `serials, stack, pool, pool.pool
      ensures HasStack() && PoolOk() && AllSaved() && (stack == old(stack) || fresh(stack))
      ensures pool.pool == old(pool.pool) || (pool.pool == old(pool.pool) + [co] && fresh(co))
      ensures co.id != 0 && co.id !in old(serials) && (co.id in serials ==> serials[co.id] == started)
      ensures Represents(serials, Bytes(), Left(machine.(next := machine.next + 1), machine.next, program.start(cb, input)))
    {
      hide Represents, Fits, Bytes, Saved;
      co := NewCoroutine(cb);
      Resume(co, input);
      if co.id !in pool.ids {
        serials := serials[co.id := started];
      }
      StartedIsStep(co);
    }

    twostate lemma StartedIsStep(new co: Coroutine)
      requires old(Valid()) && old(pool.pool) <= pool.pool && pool.Valid()
      requires co.id !in old(serials) && co.id != 0 && co.id < |pool.pool| && pool.pool[co.id] == co
      requires forall i :: pool.InUse(i) <==> old(pool.InUse(i)) || (i == co.id && co.id !in pool.ids)
      requires co.id !in pool.ids ==> |co.stack| <= size && co.ctx == Some(size - |co.stack|)
      requires forall i :: 0 <= i < |old(pool.pool)| && i != co.id ==> unchanged(old(pool.pool)[i])
      requires serials == if co.id in pool.ids then old(serials) else old(serials)[co.id := old(started)]
      ensures PoolOk() && AllSaved()
      ensures var m := old(machine);
              Represents(serials, Bytes(), Machine(m.next + 1, if co.id in pool.ids then m.frames - {m.next} else m.frames[m.next := co.stack]))
    {
      ghost var saved := old(Bytes());
      StartedSaves(co);
      hide Represents, AllSaved, Bytes, PoolOk, Copool.InUse, Copool.Valid;
      if co.id in pool.ids {
        EmptyRunRepresents(old(serials), saved, old(machine));
        NextIsNew(old(serials), saved, old(machine));
      } else {
        StartRepresents(old(serials), saved, old(machine), co.id, co.stack);
      }
    }

    /** A first stretch adds the bytes of its coroutine to those saved, if it yields. */
    twostate lemma StartedSaves(new co: Coroutine)
      requires old(PoolOk()) && old(AllSaved()) && old(pool.pool) <= pool.pool && pool.Valid()
      requires co.id !in old(serials) && co.id != 0 && co.id < |pool.pool| && pool.pool[co.id] == co
      requires forall i :: pool.InUse(i) <==> old(pool.InUse(i)) || (i == co.id && co.id !in pool.ids)
      requires co.id !in pool.ids ==> |co.stack| <= size && co.ctx == Some(size - |co.stack|)
      requires forall i :: 0 <= i < |old(pool.pool)| && i != co.id ==> unchanged(old(pool.pool)[i])
      requires serials == if co.id in pool.ids then old(serials) else old(serials)[co.id := old(started)]
      ensures PoolOk() && AllSaved()
      ensures Bytes() == if co.id in pool.ids then old(Bytes()) else old(Bytes())[co.id := co.stack]
    {
      assert PoolOk();
      forall i | i in old(serials)
        ensures i < |old(pool.pool)| && i != co.id && pool.pool[i] == old(pool.pool)[i] && Saved(i)
        ensures pool.pool[i].stack == old(pool.pool[i].stack)
      {
        hide Copool.Valid;
        assert old(Saved(i));
      }
      hide PoolOk, Copool.Valid, Copool.InUse;
      assert co.id in serials ==> Saved(co.id);
      SavedBytes(co.id, old(serials), old(Bytes()));
    }

    /** What the table of saved bytes is, given the coroutines in use. */
    lemma SavedBytes(id: nat, was: map<nat, nat>, saved: map<nat, seq<byte>>)
      requires PoolOk() && saved.Keys == was.Keys && id !in was
      requires forall i :: i in was ==> i in serials && Saved(i) && pool.pool[i].stack == saved[i]
      requires forall i :: i in serials && i !in was ==> i == id && Saved(i)
      ensures AllSaved()
      ensures Bytes() == if id in serials then saved[id := pool.pool[id].stack] else saved
    {
      hide Copool.Valid, Copool.InUse;
    }

    /** The saved bytes after resume represent the machine after its step. */
    twostate lemma ResumedIsStep(co: Coroutine)
      requires old(Valid()) && co.id in old(serials) && old(pool.pool[co.id]) == co && pool.pool == old(pool.pool) && pool.Valid()
      requires pool.ids == old(pool.ids) || pool.ids == old(pool.ids) + [co.id]
      requires pool.ids == old(pool.ids) ==> |co.stack| <= size && co.ctx == Some(size - |co.stack|)
      requires forall i :: 0 <= i < |pool.pool| && i != co.id ==> unchanged(pool.pool[i])
      requires serials == if co.id in pool.ids then old(serials) - {co.id} else old(serials)
      ensures PoolOk() && AllSaved() && old(serials[co.id]) in old(machine.frames)
      ensures var s := old(serials[co.id]);
              Represents(serials, Bytes(), old(machine).(frames := if co.id in pool.ids then old(machine.frames) - {s}
                                                                   else old(machine.frames)[s := co.stack]))
    {
      hide Represents;
      ghost var saved := old(Bytes());
      SameFrame(old(serials), saved, old(machine), co.id);
      assert co.id in serials ==> Saved(co.id);
      OthersSaved(co);
      assert Bytes() == if co.id in pool.ids then saved - {co.id} else saved[co.id := co.stack];
      if co.id in pool.ids {
        FinishRepresents(old(serials), saved, old(machine), co.id);
      } else {
        YieldRepresents(old(serials), saved, old(machine), co.id, co.stack);
      }
    }

    lemma SerialInUse(serial: nat)
      requires Valid() && serial in machine.frames
      ensures exists id :: id in serials && serials[id] == serial
    {
      assert HasSerial(serials, serial);
    }

    /** Any schedule at all: starting new tasks and resuming suspended ones in any order ends in
        exactly the private stacks the machine ends with. */
    method RunSchedule(run: seq<Action>)
      requires Valid() && IsSchedule(program, machine, run)
      modifies this, stack, pool, pool.pool
      ensures Valid() && machine == Steps(program, old(machine), run)
    {
      hide Represents, Fits, Saved, AllSaved, Bytes, Left, HasStack, Step, Copool.InUse, Copool.Valid, PoolOk, Valid;
      var k := 0;
      assert run[0..] == run;
      while k < |run|
        invariant 0 <= k <= |run| && Valid() && (stack == old(stack) || fresh(stack))
        invariant forall i :: 0 <= i < |pool.pool| ==> pool.pool[i] in old(pool.pool) || fresh(pool.pool[i])
        invariant IsSchedule(program, machine, run[k..])
        invariant Steps(program, machine, run[k..]) == Steps(program, old(machine), run)
      {
        assert run[k..][0] == run[k] && run[k..][1..] == run[k + 1..];
        match run[k] {
          case Start(cb, input) =>
            var co := StartTask(cb, input);
          case Resume(serial, input) =>
            SerialInUse(serial);
            var id :| id in serials && serials[id] == serial;
            IdOfPool(id);
            ResumeSuspended(pool.pool[id], input);
        }
        k := k + 1;
      }
      assert run[k..] == [];
    }

    lemma IdOfPool(id: nat)
      requires Valid() && id in serials
      ensures id < |pool.pool| && pool.pool[id].id == id
    {
    }

    /** Resuming one coroutine leaves what the others have saved. */
    twostate lemma OthersSaved(co: Coroutine)
      requires old(PoolOk()) && old(AllSaved()) && PoolOk() && pool.pool == old(pool.pool)
      requires forall i :: i in serials && i != co.id ==> i in old(serials)
      requires forall i :: 0 <= i < |pool.pool| && i != co.id ==> unchanged(pool.pool[i])
      requires co.id in serials ==> Saved(co.id)
      ensures AllSaved()
      ensures Bytes().Keys == serials.Keys
      ensures forall i :: i in serials && i != co.id ==> Bytes()[i] == old(Bytes())[i]
    {
      forall i | i in serials ensures Saved(i) {
        assert i != co.id ==> old(Saved(i));
      }
    }
  }

  lemma LeftNext(m: Machine, serial: nat, o: Outcome)
    ensures Left(m, serial, o).next == m.next
  {
  }

  lemma SameFrame(serials: map<nat, nat>, saved: map<nat, seq<byte>>, m: Machine, i: nat)
    requires Represents(serials, saved, m) && i in serials
    ensures i in saved && serials[i] in m.frames && m.frames[serials[i]] == saved[i]
  {
  }
}
