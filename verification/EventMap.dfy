/**
 * The packed mirror of the kernel's epoll state (src/co/impl/epoll.cc:68-145, src/co/impl/epoll.h:40-80,
 * src/co/impl/scheduler.cc:95-105). The high word of _ev_map[fd] is the coroutine waiting to read, the
 * low word the one waiting to write.
 */
module EventMap {
  import opened Common

  /** A coroutine id: a positive int. */
  type CoId = i: int | 1 <= i < TWO_POW_31 witness 1

  function High(x: uint64): uint32 {
    x / TWO_POW_32
  }

  function Low(x: uint64): uint32 {
    x % TWO_POW_32
  }

  /** (hi << 32) | lo. */
  function Pack(hi: uint32, lo: uint32): (x: uint64)
    ensures High(x) == hi && Low(x) == lo
    ensures x == 0 <==> hi == 0 && lo == 0
  {
    hi * TWO_POW_32 + lo
  }

  lemma PackParts(x: uint64)
    ensures Pack(High(x), Low(x)) == x
  {
  }

  /** A registration: the watched directions and epoll_event.data. */
  datatype Registration = Registration(read: bool, write: bool, data: uint64)

  datatype Control = Add | Modify | Delete

  datatype Direction = EV_read | EV_write

  /** A descriptor: its word in _ev_map, and the data the kernel has for it, 0 if it has none. */
  datatype Entry = Entry(mine: uint64, kernels: uint64)

  function Agreed(x: uint64): Entry {
    Entry(x, x)
  }

  predicate Exact(e: Entry) {
    e.mine == e.kernels
  }

  /** Whoever is registered in the entry is registered in the kernel. */
  predicate Covers(e: Entry) {
    && (High(e.mine) != 0 ==> High(e.kernels) == High(e.mine))
    && (Low(e.mine) != 0 ==> Low(e.kernels) == Low(e.mine))
  }

  /** The kernel still watches a descriptor that has no entry any more. */
  predicate Orphaned(e: Entry) {
    e.mine == 0 && e.kernels != 0
  }

  class Epoll {
    /** _ev_map, the kernel's table, and the reading end of the pipe. */
    var evMap: array<uint64>
    var kernel: map<nat, Registration>
    const pipe: nat

    /** The registration the entry x stands for. */
    static function Meaning(x: uint64): (r: Option<Registration>)
    {
      if x == 0 then None else Some(Registration(High(x) != 0, Low(x) != 0, x))
    }

    ghost function Registered(fd: nat): Option<Registration>
      reads this
    {
      if fd in kernel then Some(kernel[fd]) else None
    }

    /** Every entry says exactly what the kernel knows about the descriptor. */
    ghost predicate Mirrors(fd: nat)
      requires fd < evMap.Length
      reads this, evMap
    {
      Registered(fd) == Meaning(evMap[fd])
    }

    /** The entry beside the data the kernel has. */
    ghost function EntryOf(fd: nat): Entry
      requires fd < evMap.Length
      reads this, evMap
    {
      Entry(evMap[fd], if fd in kernel then kernel[fd].data else 0)
    }

    ghost function Table(): (t: seq<Entry>)
      reads this, evMap
      ensures |t| == evMap.Length && forall fd :: 0 <= fd < |t| ==> t[fd] == EntryOf(fd)
    {
      seq(evMap.Length, (fd: nat) requires fd < evMap.Length reads this, evMap => EntryOf(fd))
    }

    /** What stays true also when the kernel refuses a deletion: it still watches all that the entry says. */
    ghost predicate Consistent(fd: nat)
      requires fd < evMap.Length
      reads this, evMap
    {
      Registered(fd) == Meaning(EntryOf(fd).kernels) && Covers(EntryOf(fd))
    }

    /** The pipe is registered with data 0 and has no entry. */
    ghost predicate PipeInPlace()
      reads this, evMap
    {
      pipe < evMap.Length && evMap[pipe] == 0 && Registered(pipe) == Some(Registration(true, false, 0))
    }

    ghost predicate Sound()
      reads this, evMap
    {
      PipeInPlace() && forall fd :: 0 <= fd < evMap.Length && fd != pipe ==> Consistent(fd)
    }

    /** The mirror is exact. */
    ghost predicate Valid()
      reads this, evMap
    {
      PipeInPlace() && forall fd :: 0 <= fd < evMap.Length && fd != pipe ==> Mirrors(fd)
    }

    lemma ValidIsExact()
      ensures Valid() <==> Sound() && forall fd :: 0 <= fd < evMap.Length && fd != pipe ==> Exact(EntryOf(fd))
    {
      forall fd | 0 <= fd < evMap.Length ensures Mirrors(fd) <==> Consistent(fd) && Exact(EntryOf(fd)) {
      }
    }

    constructor (maxFd: nat, pipeFd: nat)
      requires pipeFd < maxFd
      ensures Valid() && Sound() && fresh(evMap) && evMap.Length == maxFd && pipe == pipeFd
    {
      evMap := new uint64[maxFd](_ => 0);
      kernel := map[pipeFd := Registration(true, false, 0)];
      pipe := pipeFd;
      new;
      ValidIsExact();
    }

    /** epoll_ctl: the kernel refuses what contradicts its table, and for reasons of its own (!accepts). */
    method Ctl(op: Control, fd: nat, event: Registration, accepts: bool) returns (r: int)
      modifies `kernel
      ensures r == 0 <==> accepts && (op == Add <==> fd !in old(kernel))
      ensures r == 0 ==> kernel == if op == Delete then old(kernel) - {fd} else old(kernel)[fd := event]
      ensures r != 0 ==> r == -1 && kernel == old(kernel)
    {
      if !accepts || (op == Add) != (fd !in kernel) {
        return -1;
      }
      kernel := if op == Delete then kernel - {fd} else kernel[fd := event];
      return 0;
    }

    /** An existing reader stays; a new one is registered beside the writer, or nothing changes. */
    method AddEvRead(fd: nat, ud: CoId, accepts: bool) returns (ok: bool)
      requires Sound() && fd < evMap.Length && fd != pipe
      modifies `kernel, evMap
      ensures Sound() && (forall g :: 0 <= g < evMap.Length && g != fd ==> EntryOf(g) == old(EntryOf(g)))
      ensures ok <==> High(old(evMap[fd])) != 0 || (accepts && !Orphaned(old(EntryOf(fd))))
      ensures EntryOf(fd) == if High(old(evMap[fd])) == 0 && ok then Agreed(Pack(ud, Low(old(evMap[fd])))) else old(EntryOf(fd))
      ensures old(Valid()) ==> Valid()
    {
      hide Pack, High, Low;
      var x := evMap[fd];
      assert Consistent(fd);
      PackParts(x);
      ZeroParts();
      if High(x) != 0 {
        return true;
      }
      var event := Registration(true, x != 0, Pack(ud, Low(x)));
      var r := Ctl(if x != 0 then Modify else Add, fd, event, accepts);
      if r == 0 {
        evMap[fd] := event.data;
        KeepsOthers(fd);
        return true;
      }
      return false;
    }

    method AddEvWrite(fd: nat, ud: CoId, accepts: bool) returns (ok: bool)
      requires Sound() && fd < evMap.Length && fd != pipe
      modifies `kernel, evMap
      ensures Sound() && (forall g :: 0 <= g < evMap.Length && g != fd ==> EntryOf(g) == old(EntryOf(g)))
      ensures ok <==> Low(old(evMap[fd])) != 0 || (accepts && !Orphaned(old(EntryOf(fd))))
      ensures EntryOf(fd) == if Low(old(evMap[fd])) == 0 && ok then Agreed(Pack(High(old(evMap[fd])), ud)) else old(EntryOf(fd))
      ensures old(Valid()) ==> Valid()
    {
      hide Pack, High, Low;
      var x := evMap[fd];
      assert Consistent(fd);
      PackParts(x);
      ZeroParts();
      if Low(x) != 0 {
        return true;
      }
      // x | ud: the low word of x is 0
      var event := Registration(x != 0, true, Pack(High(x), ud));
      var r := Ctl(if x != 0 then Modify else Add, fd, event, accepts);
      if r == 0 {
        evMap[fd] := event.data;
        KeepsOthers(fd);
        return true;
      }
      return false;
    }

    /** The entry changes before the kernel is asked: it is a mirror afterwards exactly if the kernel agrees. */
    method DelEvRead(fd: nat, accepts: bool)
      requires Sound() && fd < evMap.Length && fd != pipe
      modifies `kernel, evMap
      ensures Sound() && (forall g :: 0 <= g < evMap.Length && g != fd ==> EntryOf(g) == old(EntryOf(g)))
      ensures evMap[fd] == Pack(0, Low(old(evMap[fd])))
      ensures High(old(evMap[fd])) == 0 ==> EntryOf(fd) == old(EntryOf(fd))
      ensures High(old(evMap[fd])) != 0 ==> EntryOf(fd).kernels == if accepts then evMap[fd] else old(EntryOf(fd).kernels)
      ensures Mirrors(fd) <==> if High(old(evMap[fd])) == 0 then old(Mirrors(fd)) else accepts
      ensures old(Valid()) ==> (Valid() <==> accepts || High(old(evMap[fd])) == 0)
    {
      hide Pack, High, Low;
      var x := evMap[fd];
      assert Consistent(fd);
      PackParts(x);
      ZeroParts();
      if High(x) == 0 {
        return;
      }
      var r;
      if Low(x) == 0 {
        evMap[fd] := 0;
        r := Ctl(Delete, fd, Registration(false, false, 8), accepts);
      } else {
        evMap[fd] := Pack(0, Low(x));
        r := Ctl(Modify, fd, Registration(false, true, Pack(0, Low(x))), accepts);
      }
      KeepsOthers(fd);
    }

    method DelEvWrite(fd: nat, accepts: bool)
      requires Sound() && fd < evMap.Length && fd != pipe
      modifies `kernel, evMap
      ensures Sound() && (forall g :: 0 <= g < evMap.Length && g != fd ==> EntryOf(g) == old(EntryOf(g)))
      ensures evMap[fd] == Pack(High(old(evMap[fd])), 0)
      ensures Low(old(evMap[fd])) == 0 ==> EntryOf(fd) == old(EntryOf(fd))
      ensures Low(old(evMap[fd])) != 0 ==> EntryOf(fd).kernels == if accepts then evMap[fd] else old(EntryOf(fd).kernels)
      ensures Mirrors(fd) <==> if Low(old(evMap[fd])) == 0 then old(Mirrors(fd)) else accepts
      ensures old(Valid()) ==> (Valid() <==> accepts || Low(old(evMap[fd])) == 0)
    {
      hide Pack, High, Low;
      var x := evMap[fd];
      assert Consistent(fd);
      PackParts(x);
      ZeroParts();
      if Low(x) == 0 {
        return;
      }
      var r;
      if High(x) == 0 {
        evMap[fd] := 0;
        r := Ctl(Delete, fd, Registration(false, false, 8), accepts);
      } else {
        evMap[fd] := Pack(High(x), 0);
        r := Ctl(Modify, fd, Registration(true, false, Pack(High(x), 0)), accepts);
      }
      KeepsOthers(fd);
    }

    method DelEvent(fd: nat, accepts: bool)
      requires Sound() && fd < evMap.Length && fd != pipe
      modifies `kernel, evMap
      ensures Sound() && (forall g :: 0 <= g < evMap.Length && g != fd ==> EntryOf(g) == old(EntryOf(g)))
      ensures evMap[fd] == 0
      ensures EntryOf(fd).kernels == if old(evMap[fd]) != 0 && accepts then 0 else old(EntryOf(fd).kernels)
      ensures Mirrors(fd) <==> if old(evMap[fd]) == 0 then old(Mirrors(fd)) else accepts
      ensures old(Valid()) ==> (Valid() <==> accepts || old(evMap[fd]) == 0)
    {
      assert Consistent(fd);
      ZeroParts();
      if evMap[fd] != 0 {
        evMap[fd] := 0;
        var r := Ctl(Delete, fd, Registration(false, false, 8), accepts);
        KeepsOthers(fd);
      }
    }

    method AddEvent(fd: nat, ev: Direction, ud: CoId, accepts: bool) returns (ok: bool)
      requires Sound() && fd < evMap.Length && fd != pipe
      modifies `kernel, evMap
      ensures Sound() && (old(Valid()) ==> Valid())
      ensures forall g :: 0 <= g < evMap.Length && g != fd ==> EntryOf(g) == old(EntryOf(g))
      ensures ev == EV_read && ok ==> High(evMap[fd]) in {ud, High(old(evMap[fd]))} - {0} && Low(evMap[fd]) == Low(old(evMap[fd]))
      ensures ev == EV_write && ok ==> Low(evMap[fd]) in {ud, Low(old(evMap[fd]))} - {0} && High(evMap[fd]) == High(old(evMap[fd]))
      ensures !ok ==> EntryOf(fd) == old(EntryOf(fd))
    {
      if ev == EV_read {
        ok := AddEvRead(fd, ud, accepts);
      } else {
        ok := AddEvWrite(fd, ud, accepts);
      }
    }

    /** One operation of a running coroutine. */
    method Perform(op: Operation)
      requires Sound() && op.fd < evMap.Length && op.fd != pipe
      modifies `kernel, evMap
      ensures Sound() && Table() == TableStep(old(Table()), op)
    {
      hide High, Low, Sound;
      PackParts(evMap[op.fd]);
      match op
      case Register(fd, ev, id, accepts) =>
        if ev == EV_read {
          var ok := AddEvRead(fd, id, accepts);
        } else {
          var ok := AddEvWrite(fd, id, accepts);
        }
      case Unregister(fd, ev, accepts) =>
        if ev == EV_read {
          DelEvRead(fd, accepts);
        } else {
          DelEvWrite(fd, accepts);
        }
      case UnregisterAll(fd, accepts) =>
        DelEvent(fd, accepts);
    }

    /** A stretch of a coroutine. */
    method Run(ops: seq<Operation>)
      requires Sound() && forall i :: 0 <= i < |ops| ==> ops[i].fd < evMap.Length && ops[i].fd != pipe
      modifies `kernel, evMap
      ensures Sound() && Table() == TableAfter(old(Table()), ops)
    {
      hide TableStep, Sound, EntryOf;
      for i := 0 to |ops|
        invariant Sound() && Table() == TableAfter(old(Table()), ops[..i])
      {
        assert ops[..i + 1][..i] == ops[..i];
        Perform(ops[i]);
      }
      assert ops[..|ops|] == ops;
    }

    /** The k-th resume of a batch. */
    method ResumeNext(runs: nat -> seq<Operation>, k: nat, ghost t: seq<Entry>)
      requires Sound() && Table() == TableAfter(t, History(runs, k))
      requires forall i :: 0 <= i < |runs(k)| ==> runs(k)[i].fd < evMap.Length && runs(k)[i].fd != pipe
      modifies `kernel, evMap
      ensures Sound() && Table() == TableAfter(t, History(runs, k + 1))
    {
      hide TableStep, Sound, EntryOf;
      TableAfterConcat(t, History(runs, k), runs(k));
      Run(runs(k));
    }

    /** One report: `still` says of each resume whether it hit a registered coroutine. */
    method HandleReport(ev: Report, ghost fd: nat, runs: nat -> seq<Operation>, k: nat, ghost t: seq<Entry>)
      returns (resumed: seq<uint32>, ghost still: seq<bool>)
      requires Sound() && Table() == TableAfter(t, History(runs, k))
      requires forall m: nat, i :: 0 <= i < |runs(m)| ==> runs(m)[i].fd < evMap.Length && runs(m)[i].fd != pipe
      modifies `kernel, evMap
      ensures Sound() && resumed == Coroutines(TargetsOf(fd, ev)) && |still| == |resumed|
      ensures Table() == TableAfter(t, History(runs, k + |resumed|))
      ensures forall m :: 0 <= m < |still| ==> still[m] == InPlace(TableAfter(t, History(runs, k + m)), TargetsOf(fd, ev)[m])
    {
      hide TableAfter, History, Sound, InPlace, UserData, High, Low, EntryOf;
      ghost var gs := TargetsOf(fd, ev);
      resumed, still := [], [];
      if IsEvPipe(ev) {
        // handle_ev_pipe
        return;
      }
      var ud := UserData(ev);
      ResumesTheRegistered(ev);
      assert Resumed(ud) == Coroutines(gs);
      if High(ud) != 0 {
        still := [InPlace(Table(), gs[0])];
        resumed := [High(ud)];
        ResumeNext(runs, k, t);
      }
      if Low(ud) != 0 {
        still := still + [InPlace(Table(), gs[|resumed|])];
        ResumeNext(runs, k + |resumed|, t);
        resumed := resumed + [Low(ud)];
      }
    }

    /** The loop over the reported events; runs(k) is what the k-th resumed coroutine does before it yields. */
    method HandleBatch(evs: seq<Report>, ghost fds: seq<nat>, runs: nat -> seq<Operation>)
      returns (resumed: seq<uint32>, ghost still: seq<bool>)
      requires Sound() && |fds| == |evs|
      requires forall m: nat, i :: 0 <= i < |runs(m)| ==> runs(m)[i].fd < evMap.Length && runs(m)[i].fd != pipe
      modifies `kernel, evMap
      ensures Sound() && Followed(old(Table()), Targets(fds, evs), runs, resumed, still)
      ensures Table() == TableAfter(old(Table()), History(runs, |resumed|))
      ensures forall fd :: 0 <= fd < evMap.Length && fd != pipe ==>
                (Mirrors(fd) <==> MirroredBy(old(Table()), History(runs, |resumed|), fd))
    {
      hide TableAfter, Sound, InPlace, TargetsOf, Followed, Targets, EntryOf, Mirrors, MirroredBy, Covers;
      ghost var t := Table();
      EntriesCovered();
      NoChange(t);
      resumed, still := [], [];
      NothingFollowed(t, runs);
      assert fds[..0] == [] && evs[..0] == [];
      for i := 0 to |evs|
        invariant Sound() && Followed(t, Targets(fds[..i], evs[..i]), runs, resumed, still)
        invariant Table() == TableAfter(t, History(runs, |resumed|))
      {
        ghost var gs := Targets(fds[..i], evs[..i]);
        FollowedLength(t, gs, runs, resumed, still);
        ghost var s;
        var r;
        r, s := HandleReport(evs[i], fds[i], runs, |resumed|, t);
        FollowedMore(t, gs, TargetsOf(fds[i], evs[i]), runs, resumed, still, r, s);
        NextTargets(fds, evs, i);
        resumed, still := resumed + r, still + s;
      }
      assert fds[..|fds|] == fds && evs[..|evs|] == evs;
      MirrorsAfter(t, History(runs, |resumed|));
    }

    lemma EntriesCovered()
      requires Sound()
      ensures forall fd :: 0 <= fd < evMap.Length && fd != pipe ==> Covers(Table()[fd])
    {
      hide Covers;
      forall fd | 0 <= fd < evMap.Length && fd != pipe ensures Covers(Table()[fd]) {
        assert Consistent(fd);
      }
    }

    lemma MirrorsAfter(t: seq<Entry>, ops: seq<Operation>)
      requires Sound() && Table() == TableAfter(t, ops)
      requires forall fd :: 0 <= fd < evMap.Length && fd != pipe ==> Covers(t[fd])
      ensures forall fd :: 0 <= fd < evMap.Length && fd != pipe ==> (Mirrors(fd) <==> MirroredBy(t, ops, fd))
    {
      hide Covers, MirroredBy, TableAfter, Sound;
      forall fd | 0 <= fd < evMap.Length && fd != pipe ensures Mirrors(fd) <==> MirroredBy(t, ops, fd) {
        ExactIff(t, ops, fd);
        SoundAt(fd);
        assert Table()[fd] == EntryOf(fd);
      }
    }

    lemma SoundAt(fd: nat)
      requires Sound() && fd < evMap.Length && fd != pipe
      ensures Mirrors(fd) <==> Exact(EntryOf(fd))
    {
      assert Consistent(fd);
    }

    /** What happened to fd changes nothing for the others. */
    twostate lemma KeepsOthers(fd: nat)
      requires old(Sound()) && fd < evMap.Length && fd != pipe && evMap == old(evMap)
      requires forall g :: 0 <= g < evMap.Length && g != fd ==> evMap[g] == old(evMap[g])
      requires forall g :: g != fd ==> Registered(g) == old(Registered(g))
      requires Consistent(fd)
      ensures Sound() && forall g :: 0 <= g < evMap.Length && g != fd ==> EntryOf(g) == old(EntryOf(g))
      ensures old(Valid()) ==> (Valid() <==> Mirrors(fd))
    {
      forall g | 0 <= g < evMap.Length && g != fd ensures EntryOf(g) == old(EntryOf(g)) {
        assert Registered(g) == old(Registered(g));
      }
      forall g | 0 <= g < evMap.Length && g != pipe && g != fd ensures Consistent(g) && (old(Mirrors(g)) ==> Mirrors(g)) {
        assert old(Consistent(g));
      }
    }
  }

  lemma ZeroParts()
    ensures High(0) == 0 && Low(0) == 0 && Pack(0, 0) == 0
  {
  }

  // ----- what the loop does with a reported event -----

  /** An epoll_event: no direction is set when only EPOLLERR or EPOLLHUP are reported. */
  datatype Report = Report(read: bool, write: bool, data: uint64)

  predicate IsEvPipe(ev: Report) {
    ev.data == 0
  }

  /** Epoll::ud, with the shifts of a 64-bit word. */
  function UserData(ev: Report): uint64 {
    if ev.read then
      if ev.write then ev.data else ev.data / TWO_POW_32
    else
      if ev.write then ev.data % TWO_POW_32 * TWO_POW_32 else ev.data
  }

  /** The coroutines the loop resumes, in order. */
  function Resumed(ud: uint64): seq<uint32> {
    (if High(ud) != 0 then [High(ud)] else []) + (if Low(ud) != 0 then [Low(ud)] else [])
  }

  /** Whatever shift was taken, the reader is resumed if reading (or only an error) was reported,
      the writer if writing (or only an error) was. */
  lemma ResumesTheRegistered(ev: Report)
    ensures Resumed(UserData(ev)) ==
            (if (ev.read || !ev.write) && High(ev.data) != 0 then [High(ev.data)] else []) +
            (if (ev.write || !ev.read) && Low(ev.data) != 0 then [Low(ev.data)] else [])
  {
    var lo := ev.data % TWO_POW_32;
    assert (lo * TWO_POW_32) / TWO_POW_32 == lo && (lo * TWO_POW_32) % TWO_POW_32 == 0;
  }

  /** A report for a registered descriptor resumes the coroutines that registered, for the reported
      directions, and is not taken for the pipe. */
  lemma ReportsReachTheirCoroutines(e: Epoll, fd: nat, ev: Report)
    requires e.Valid() && fd < e.evMap.Length && fd != e.pipe && fd in e.kernel
    requires ev.data == e.kernel[fd].data && (ev.read ==> e.kernel[fd].read) && (ev.write ==> e.kernel[fd].write)
    ensures !IsEvPipe(ev)
    ensures ev.read && !ev.write ==> Resumed(UserData(ev)) == [High(e.evMap[fd])]
    ensures ev.write && !ev.read ==> Resumed(UserData(ev)) == [Low(e.evMap[fd])]
    ensures ev.read && ev.write ==> Resumed(UserData(ev)) == [High(e.evMap[fd]), Low(e.evMap[fd])]
    ensures Resumed(UserData(ev)) != []
  {
    hide Resumed, UserData, High, Low;
    assert e.Mirrors(fd);
    PackParts(e.evMap[fd]);
    ZeroParts();
    ResumesTheRegistered(ev);
  }

  // ----- a batch of reports, with coroutines running in between -----

  /** What a coroutine does to the table while it runs; `accepts` says whether the kernel has no reason of
      its own to refuse. */
  datatype Operation =
    | Register(fd: nat, ev: Direction, id: CoId, accepts: bool)
    | Unregister(fd: nat, ev: Direction, accepts: bool)
    | UnregisterAll(fd: nat, accepts: bool)

  /** The coroutine registered for a direction, 0 for none. */
  function Word(x: uint64, ev: Direction): uint32 {
    if ev == EV_read then High(x) else Low(x)
  }

  function WithWord(x: uint64, ev: Direction, w: uint32): (y: uint64)
    ensures Word(y, ev) == w && forall d :: d != ev ==> Word(y, d) == Word(x, d)
  {
    if ev == EV_read then Pack(w, Low(x)) else Pack(High(x), w)
  }

  /** The entry shrinks first; the kernel follows if it accepts. */
  function Shrunk(e: Entry, x: uint64, accepts: bool): Entry {
    Entry(x, if accepts then x else e.kernels)
  }

  /** The descriptor after an operation on it. */
  function After(e: Entry, op: Operation): Entry {
    match op
    case Register(_, ev, id, accepts) =>
      if Word(e.mine, ev) == 0 && accepts && !Orphaned(e) then Agreed(WithWord(e.mine, ev, id)) else e
    case Unregister(_, ev, accepts) =>
      if Word(e.mine, ev) == 0 then e else Shrunk(e, WithWord(e.mine, ev, 0), accepts)
    case UnregisterAll(_, accepts) =>
      if e.mine == 0 then e else Shrunk(e, 0, accepts)
  }

  function TableStep(t: seq<Entry>, op: Operation): (u: seq<Entry>)
    ensures |u| == |t|
  {
    if op.fd >= |t| then t else t[op.fd := After(t[op.fd], op)]
  }

  function TableAfter(t: seq<Entry>, ops: seq<Operation>): (u: seq<Entry>)
    ensures |u| == |t|
    decreases |ops|
  {
    if ops == [] then t else TableStep(TableAfter(t, ops[..|ops| - 1]), ops[|ops| - 1])
  }

  lemma NoChange(t: seq<Entry>)
    ensures TableAfter(t, []) == t
  {
  }

  lemma {:induction false} TableAfterConcat(t: seq<Entry>, a: seq<Operation>, b: seq<Operation>)
    ensures TableAfter(t, a + b) == TableAfter(TableAfter(t, a), b)
    decreases |b|
  {
    hide TableStep;
    if b == [] {
      assert a + b == a;
    } else {
      var n := |b| - 1;
      TableAfterConcat(t, a, b[..n]);
      assert (a + b)[..|a| + n] == a + b[..n] && (a + b)[|a| + n] == b[n];
    }
  }

  // ----- the mirror when the kernel refuses deletions -----

  lemma AfterCovers(e: Entry, op: Operation)
    requires Covers(e)
    ensures Covers(After(e, op))
    ensures Exact(After(e, op)) <==> if After(e, op).mine != e.mine then op.accepts else Exact(e)
  {
    ZeroParts();
    PackParts(e.mine);
    PackParts(e.kernels);
  }

  /** The last operation that changed the entry of fd, -1 if none did. */
  function LastChange(t: seq<Entry>, ops: seq<Operation>, fd: nat): (i: int)
    requires fd < |t|
    ensures -1 <= i < |ops|
    decreases |ops|
  {
    if ops == [] then -1
    else
      var n := |ops| - 1;
      if TableAfter(t, ops)[fd].mine != TableAfter(t, ops[..n])[fd].mine then n else LastChange(t, ops[..n], fd)
  }

  /** The last change of the entry, if there was any, was accepted; otherwise it was exact before. */
  predicate MirroredBy(t: seq<Entry>, ops: seq<Operation>, fd: nat)
    requires fd < |t|
  {
    var i := LastChange(t, ops, fd);
    if i < 0 then Exact(t[fd]) else ops[i].accepts
  }

  /** After any operations a descriptor is mirrored exactly if the kernel accepted the last one that
      changed its entry, earlier refusals or not. */
  lemma {:induction false} ExactIff(t: seq<Entry>, ops: seq<Operation>, fd: nat)
    requires fd < |t| && Covers(t[fd])
    ensures Covers(TableAfter(t, ops)[fd])
    ensures Exact(TableAfter(t, ops)[fd]) <==> MirroredBy(t, ops, fd)
    decreases |ops|
  {
    hide Covers, Exact, After;
    if ops != [] {
      var n := |ops| - 1;
      ExactIff(t, ops[..n], fd);
      AfterCovers(TableAfter(t, ops[..n])[fd], ops[n]);
    }
  }

  /** A refused deletion of the last registration is for good: nothing is ever registered on the
      descriptor again, because the kernel knows it already. */
  lemma {:induction false} OrphanStays(t: seq<Entry>, ops: seq<Operation>, fd: nat)
    requires fd < |t| && Orphaned(t[fd])
    ensures TableAfter(t, ops)[fd] == t[fd]
    decreases |ops|
  {
    if ops != [] {
      OrphanStays(t, ops[..|ops| - 1], fd);
      ZeroParts();
    }
  }

  // ----- the entries alone, once it is known what the kernel answers -----

  /** The operation with what epoll_ctl answers to a registration. */
  function Answered(t: seq<Entry>, op: Operation): Operation {
    if op.Register? && op.fd < |t| && Orphaned(t[op.fd]) then Register(op.fd, op.ev, op.id, false) else op
  }

  function Answers(t: seq<Entry>, ops: seq<Operation>): (r: seq<Operation>)
    ensures |r| == |ops|
    decreases |ops|
  {
    if ops == [] then []
    else
      var n := |ops| - 1;
      Answers(t, ops[..n]) + [Answered(TableAfter(t, ops[..n]), ops[n])]
  }

  function Entries(t: seq<Entry>): (x: seq<uint64>)
    ensures |x| == |t| && forall fd :: 0 <= fd < |t| ==> x[fd] == t[fd].mine
  {
    seq(|t|, (fd: nat) requires fd < |t| => t[fd].mine)
  }

  /** The entries after an operation that was answered. */
  function Changed(t: seq<uint64>, op: Operation): (u: seq<uint64>)
    ensures |u| == |t|
  {
    if op.fd >= |t| then t
    else
      match op
      case Register(fd, ev, id, accepts) => if Word(t[fd], ev) == 0 && accepts then t[fd := WithWord(t[fd], ev, id)] else t
      case Unregister(fd, ev, _) => t[fd := WithWord(t[fd], ev, 0)]
      case UnregisterAll(fd, _) => t[fd := 0]
  }

  function ChangedBy(t: seq<uint64>, ops: seq<Operation>): (u: seq<uint64>)
    ensures |u| == |t|
    decreases |ops|
  {
    if ops == [] then t else Changed(ChangedBy(t, ops[..|ops| - 1]), ops[|ops| - 1])
  }

  lemma EntriesStep(t: seq<Entry>, op: Operation)
    ensures Entries(TableStep(t, op)) == Changed(Entries(t), Answered(t, op))
  {
    hide High, Low, Pack;
    if op.fd < |t| {
      PackParts(t[op.fd].mine);
      ZeroParts();
    }
  }

  lemma {:induction false} EntriesFollow(t: seq<Entry>, ops: seq<Operation>)
    ensures Entries(TableAfter(t, ops)) == ChangedBy(Entries(t), Answers(t, ops))
    decreases |ops|
  {
    hide TableStep, Changed, Answered, Entries;
    if ops != [] {
      var n := |ops| - 1;
      EntriesFollow(t, ops[..n]);
      EntriesStep(TableAfter(t, ops[..n]), ops[n]);
      assert Answers(t, ops)[..n] == Answers(t, ops[..n]);
    }
  }

  /** One resume of the batch: the coroutine, and the registration it was resumed for. */
  datatype Target = Target(fd: nat, ev: Direction, co: uint32)

  /** The coroutine registered where the target was. */
  function Held(t: seq<uint64>, g: Target): uint32 {
    if g.fd < |t| then Word(t[g.fd], g.ev) else 0
  }

  predicate InPlace(t: seq<Entry>, g: Target) {
    g.fd < |t| && Word(t[g.fd].mine, g.ev) == g.co
  }

  /** The resumes one report causes, in order. */
  function TargetsOf(fd: nat, ev: Report): seq<Target> {
    if IsEvPipe(ev) then []
    else
      (if (ev.read || !ev.write) && High(ev.data) != 0 then [Target(fd, EV_read, High(ev.data))] else []) +
      (if (ev.write || !ev.read) && Low(ev.data) != 0 then [Target(fd, EV_write, Low(ev.data))] else [])
  }

  /** The resumes of a batch. */
  function Targets(fds: seq<nat>, evs: seq<Report>): seq<Target>
    requires |fds| == |evs|
    decreases |evs|
  {
    if evs == [] then []
    else Targets(fds[..|evs| - 1], evs[..|evs| - 1]) + TargetsOf(fds[|evs| - 1], evs[|evs| - 1])
  }

  /** What the first k coroutines of a batch have done; runs(i) is what the i-th one does. */
  function History(runs: nat -> seq<Operation>, k: nat): seq<Operation> {
    if k == 0 then [] else History(runs, k - 1) + runs(k - 1)
  }

  // ----- whether a registration survives -----

  predicate Takes(op: Operation, g: Target) {
    op.fd == g.fd && (op.UnregisterAll? || (op.Unregister? && op.ev == g.ev))
  }

  predicate Gives(op: Operation, g: Target) {
    op.Register? && op.fd == g.fd && op.ev == g.ev && op.accepts
  }

  /** The last operation that takes the registration away, -1 if none does. */
  function LastTaken(ops: seq<Operation>, g: Target): (i: int)
    ensures -1 <= i < |ops| && (i >= 0 ==> Takes(ops[i], g))
    ensures forall l :: i < l < |ops| ==> !Takes(ops[l], g)
    decreases |ops|
  {
    var n := |ops| - 1;
    if ops == [] then -1 else if Takes(ops[n], g) then n else LastTaken(ops[..n], g)
  }

  /** The first one behind position i to register anybody, -1 if none does. */
  function FirstGiven(ops: seq<Operation>, g: Target, i: int): (j: int)
    requires i >= -1
    ensures j == -1 || (i < j < |ops| && Gives(ops[j], g))
    ensures forall l :: i < l < (if j >= 0 then j else |ops|) ==> !Gives(ops[l], g)
    decreases |ops|
  {
    var n := |ops| - 1;
    if n <= i then -1
    else
      var j := FirstGiven(ops[..n], g, i);
      if j >= 0 then j else if Gives(ops[n], g) then n else -1
  }

  /** Who is registered after the operations, where `held` was before. */
  function HeldAfter(held: uint32, ops: seq<Operation>, g: Target): uint32 {
    var i := LastTaken(ops, g);
    if i < 0 && held != 0 then held
    else
      var j := FirstGiven(ops, g, i);
      if j < 0 then 0 else ops[j].id
  }

  /** The coroutine was registered and nobody took that away; or, after the last time it was taken away
      (or from the start, if nobody was registered), it was the first to be registered. */
  predicate Kept(held: uint32, ops: seq<Operation>, g: Target) {
    var i := LastTaken(ops, g);
    if i < 0 && held != 0 then held == g.co
    else
      var j := FirstGiven(ops, g, i);
      j >= 0 && ops[j].id == g.co
  }

  lemma WordStep(t: seq<uint64>, op: Operation, g: Target)
    requires g.fd < |t|
    ensures var w := Held(t, g);
            Held(Changed(t, op), g) == if Takes(op, g) then 0 else if Gives(op, g) && w == 0 then op.id else w
  {
    hide Word, WithWord;
    ZeroWord(g.ev);
  }

  lemma ZeroWord(ev: Direction)
    ensures Word(0, ev) == 0
  {
  }

  /** One more operation. */
  lemma HeldStep(held: uint32, ops: seq<Operation>, g: Target)
    requires ops != []
    ensures var n := |ops| - 1; var w := HeldAfter(held, ops[..n], g);
            HeldAfter(held, ops, g) == if Takes(ops[n], g) then 0 else if Gives(ops[n], g) && w == 0 then ops[n].id else w
  {
    hide Takes;
    var n := |ops| - 1;
    var i := LastTaken(ops, g);
    if !Takes(ops[n], g) {
      assert LastTaken(ops[..n], g) == i;
      assert FirstGiven(ops[..n], g, i) >= 0 ==> FirstGiven(ops, g, i) == FirstGiven(ops[..n], g, i);
    }
  }

  /** The word after the operations, from the last one that took it away and the first one behind it. */
  lemma {:induction false} WordAfter(t: seq<uint64>, ops: seq<Operation>, g: Target)
    requires g.fd < |t|
    ensures Held(ChangedBy(t, ops), g) == HeldAfter(Held(t, g), ops, g)
    decreases |ops|
  {
    hide Held, Changed, Takes, Gives, HeldAfter;
    if ops == [] {
      HeldAtFirst(Held(t, g), ops, g);
    } else {
      var n := |ops| - 1;
      var h := ops[..n];
      WordAfter(t, h, g);
      WordStep(ChangedBy(t, h), ops[n], g);
      HeldStep(Held(t, g), ops, g);
    }
  }

  lemma HeldAtFirst(held: uint32, ops: seq<Operation>, g: Target)
    requires ops == []
    ensures HeldAfter(held, ops, g) == held
  {
  }

  /** A coroutine is registered after the operations of all the coroutines exactly if its registration is kept. */
  lemma SurvivesIffKept(t: seq<Entry>, ops: seq<Operation>, g: Target)
    requires g.fd < |t| && g.co != 0
    ensures InPlace(TableAfter(t, ops), g) <==> Kept(Held(Entries(t), g), Answers(t, ops), g)
  {
    hide Word, TableAfter, Answers, ChangedBy;
    EntriesFollow(t, ops);
    WordAfter(Entries(t), Answers(t, ops), g);
  }

  /** The coroutines of a list of resumes. */
  function Coroutines(gs: seq<Target>): (r: seq<uint32>)
    ensures |r| == |gs| && forall k :: 0 <= k < |gs| ==> r[k] == gs[k].co
  {
    seq(|gs|, (k: nat) requires k < |gs| => gs[k].co)
  }

  /** Whether the k-th resume finds its coroutine still registered for what was reported. */
  predicate Hits(t: seq<Entry>, gs: seq<Target>, runs: nat -> seq<Operation>, k: nat)
    requires k < |gs|
  {
    InPlace(TableAfter(t, History(runs, k)), gs[k])
  }

  /** A batch was handled: these coroutines were resumed, and `still` tells which of them were hit. */
  ghost predicate Followed(t: seq<Entry>, gs: seq<Target>, runs: nat -> seq<Operation>, resumed: seq<uint32>, still: seq<bool>) {
    resumed == Coroutines(gs) && |still| == |gs| && forall k :: 0 <= k < |gs| ==> still[k] == Hits(t, gs, runs, k)
  }

  lemma NothingFollowed(t: seq<Entry>, runs: nat -> seq<Operation>)
    ensures Followed(t, Targets([], []), runs, [], [])
  {
  }

  lemma FollowedLength(t: seq<Entry>, gs: seq<Target>, runs: nat -> seq<Operation>, resumed: seq<uint32>, still: seq<bool>)
    requires Followed(t, gs, runs, resumed, still)
    ensures |resumed| == |gs|
  {
  }

  lemma FollowedMore(t: seq<Entry>, gs: seq<Target>, hs: seq<Target>, runs: nat -> seq<Operation>,
                     resumed: seq<uint32>, still: seq<bool>, r: seq<uint32>, s: seq<bool>)
    requires Followed(t, gs, runs, resumed, still) && r == Coroutines(hs) && |s| == |hs|
    requires forall m :: 0 <= m < |s| ==> s[m] == InPlace(TableAfter(t, History(runs, |gs| + m)), hs[m])
    ensures Followed(t, gs + hs, runs, resumed + r, still + s)
  {
    hide InPlace, TableAfter, History;
    forall k | 0 <= k < |gs + hs| ensures (still + s)[k] == Hits(t, gs + hs, runs, k) {
      if k < |gs| {
        assert Hits(t, gs, runs, k) == Hits(t, gs + hs, runs, k);
      } else {
        assert s[k - |gs|] == InPlace(TableAfter(t, History(runs, |gs| + (k - |gs|))), hs[k - |gs|]);
      }
    }
  }

  lemma NextTargets(fds: seq<nat>, evs: seq<Report>, i: nat)
    requires |fds| == |evs| && i < |evs|
    ensures Targets(fds[..i + 1], evs[..i + 1]) == Targets(fds[..i], evs[..i]) + TargetsOf(fds[i], evs[i])
  {
    assert fds[..i + 1][..i] == fds[..i] && evs[..i + 1][..i] == evs[..i];
  }

  /** The reports carry what the kernel has for their descriptors. */
  ghost predicate ReportedFor(t: seq<Entry>, fds: seq<nat>, evs: seq<Report>) {
    |fds| == |evs| && forall i :: 0 <= i < |evs| && !IsEvPipe(evs[i]) ==> fds[i] < |t| && evs[i].data == t[fds[i]].kernels
  }

  lemma {:induction false} TargetsAreReported(t: seq<Entry>, fds: seq<nat>, evs: seq<Report>)
    requires ReportedFor(t, fds, evs)
    ensures forall k :: 0 <= k < |Targets(fds, evs)| ==>
              var g := Targets(fds, evs)[k]; g.co != 0 && g.fd < |t| && g.co == Word(t[g.fd].kernels, g.ev)
    decreases |evs|
  {
    if evs != [] {
      var n := |evs| - 1;
      TargetsAreReported(t, fds[..n], evs[..n]);
    }
  }

  /** A resume of a batch hits a coroutine still registered exactly if no coroutine resumed earlier in the
      batch, nor the reader resumed for the same report, took its registration away, except that its owner
      was the first to be registered again. Where the mirror was exact it was registered at first. */
  lemma BatchHitsIff(t: seq<Entry>, fds: seq<nat>, evs: seq<Report>, runs: nat -> seq<Operation>)
    requires ReportedFor(t, fds, evs)
    ensures var gs := Targets(fds, evs);
            forall k :: 0 <= k < |gs| ==>
              && (Hits(t, gs, runs, k) <==> Kept(Held(Entries(t), gs[k]), Answers(t, History(runs, k)), gs[k]))
              && (gs[k].fd < |t| && Exact(t[gs[k].fd]) ==> Held(Entries(t), gs[k]) == gs[k].co)
  {
    hide Kept, InPlace, Targets, Word, Answers, TableAfter;
    var gs := Targets(fds, evs);
    TargetsAreReported(t, fds, evs);
    forall k | 0 <= k < |gs|
      ensures Hits(t, gs, runs, k) <==> Kept(Held(Entries(t), gs[k]), Answers(t, History(runs, k)), gs[k])
    {
      SurvivesIffKept(t, History(runs, k), gs[k]);
    }
  }

  /** A reader that gives up its own descriptor's write interest makes the loop resume the writer for nothing. */
  lemma BatchCanMiss()
    ensures var t := [Agreed(Pack(1, 2))];
            var evs := [Report(true, true, Pack(1, 2))];
            && ReportedFor(t, [0], evs) && Targets([0], evs) == [Target(0, EV_read, 1), Target(0, EV_write, 2)]
            && !Hits(t, Targets([0], evs), k => [Unregister(0, EV_write, true)], 1)
  {
    var x := Pack(1, 2);
    var evs := [Report(true, true, x)];
    var runs: nat -> seq<Operation> := k => [Unregister(0, EV_write, true)];
    assert [0][..0] == [] && evs[..0] == [];
    assert Targets([0], evs) == [] + TargetsOf(0, evs[0]);
    assert TargetsOf(0, evs[0]) == [Target(0, EV_read, 1), Target(0, EV_write, 2)];
    assert History(runs, 1) == [] + [Unregister(0, EV_write, true)];
    assert TableAfter([Agreed(x)], History(runs, 1)) == TableStep([Agreed(x)], Unregister(0, EV_write, true)) by {
      assert [Unregister(0, EV_write, true)][..0] == [];
    }
  }
}
