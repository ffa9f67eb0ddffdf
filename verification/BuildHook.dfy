/** The remote-build hook's locks: any number of hook processes scan the machines under
    the main lock, probe slot locks one at a time, keep one of them while connecting and
    building, and may stop at any time. */
module BuildHook {
  import opened Options

  type Pid = nat

  /** `lockName` is the machine's part of its slot lock file names. */
  datatype Machine = Machine(lockName: string, maxJobs: nat)

  datatype LockFile = LockFile(lockName: string, slot: nat)

  /** Where a hook process is. A scan stands at one slot of one machine; it may hold the
      lock it has just probed, the first free slot of this machine and the best slot of
      the machines before. */
  datatype Proc =
    | Idle
    | Waiting
    | Scanning(m: nat, slot: nat, load: nat, probe: Option<LockFile>, free: Option<LockFile>, best: Option<LockFile>)
    | Connecting(lock: LockFile)
    | Building(lock: LockFile)

  datatype State = State(main: Option<Pid>, locks: map<LockFile, Pid>, procs: map<Pid, Proc>)

  datatype Action =
    | Request
    | AcquireMain
    | SkipMachine
    | Probe
    | Settle
    | NextMachine(better: bool)
    | Finish
    | Connected
    | ConnectFailed
    | BuildDone
    | Stop

  predicate DistinctNames(machines: seq<Machine>) {
    forall i, j :: 0 <= i < j < |machines| ==> machines[i].lockName != machines[j].lockName
  }

  function ProcOf(s: State, p: Pid): Proc {
    if p in s.procs then s.procs[p] else Idle
  }

  function With(s: State, p: Pid, q: Proc): State {
    s.(procs := s.procs[p := q])
  }

  function Take(s: State, l: LockFile, p: Pid): State {
    s.(locks := s.locks[l := p])
  }

  function Drop(s: State, l: Option<LockFile>): State {
    if l.Some? then s.(locks := s.locks - {l.value}) else s
  }

  function Locks(l: Option<LockFile>): set<LockFile> {
    if l.Some? then {l.value} else {}
  }

  function Held(q: Proc): set<LockFile> {
    match q
    case Scanning(_, _, _, probe, free, best) => Locks(probe) + Locks(free) + Locks(best)
    case Connecting(l) => {l}
    case Building(l) => {l}
    case _ => {}
  }

  const START: Proc := Scanning(0, 0, 0, None, None, None)

  /** One step of process `p`, if it can take it. */
  function Do(machines: seq<Machine>, s: State, p: Pid, a: Action): Option<State> {
    var q := ProcOf(s, p);
    match a
    case Request => if q.Idle? then Some(With(s, p, Waiting)) else None
    case AcquireMain =>
      if q.Waiting? && s.main.None? then Some(With(s, p, START).(main := Some(p))) else None
    case SkipMachine =>
      if q.Scanning? && q.m < |machines| && q.slot == 0 && q.probe.None?
      then Some(With(s, p, q.(m := q.m + 1))) else None
    case Probe =>
      if q.Scanning? && q.m < |machines| && q.slot < machines[q.m].maxJobs && q.probe.None? then
        var l := LockFile(machines[q.m].lockName, q.slot);
        if l in s.locks then Some(With(s, p, q.(slot := q.slot + 1, load := q.load + 1)))
        else Some(Take(With(s, p, q.(probe := Some(l))), l, p))
      else None
    case Settle =>
      if q.Scanning? && q.probe.Some? then
        if q.free.None? then Some(With(s, p, q.(slot := q.slot + 1, probe := None, free := q.probe)))
        else Some(Drop(With(s, p, q.(slot := q.slot + 1, probe := None)), q.probe))
      else None
    case NextMachine(better) =>
      if q.Scanning? && q.m < |machines| && q.slot == machines[q.m].maxJobs && q.probe.None? then
        if q.free.Some? && (better || q.best.None?)
        then Some(Drop(With(s, p, Scanning(q.m + 1, 0, 0, None, None, q.free)), q.best))
        else Some(Drop(With(s, p, Scanning(q.m + 1, 0, 0, None, None, q.best)), q.free))
      else None
    case Finish =>
      if q.Scanning? && q.m == |machines| then
        Some(With(s, p, if q.best.Some? then Connecting(q.best.value) else Idle).(main := None))
      else None
    case Connected => if q.Connecting? then Some(With(s, p, Building(q.lock))) else None
    case ConnectFailed => if q.Connecting? then Some(Drop(With(s, p, Waiting), Some(q.lock))) else None
    case BuildDone => if q.Building? then Some(Drop(With(s, p, Idle), Some(q.lock))) else None
    case Stop =>
      Some(With(s, p, Idle).(
        main := if s.main == Some(p) then None else s.main,
        locks := s.locks - Held(q)))
  }

  const INITIAL: State := State(None, map[], map[])

  function Run(machines: seq<Machine>, steps: seq<(Pid, Action)>): Option<State> {
    if steps == [] then Some(INITIAL)
    else
      var r := Run(machines, steps[..|steps| - 1]);
      var (p, a) := steps[|steps| - 1];
      if r.Some? then Do(machines, r.value, p, a) else None
  }

  // --- what every step keeps ---

  predicate ReadyToProbe(machines: seq<Machine>, q: Proc) {
    q.Scanning? && q.m < |machines| && q.slot < machines[q.m].maxJobs && q.probe.None?
  }

  predicate SlotOf(machines: seq<Machine>, i: nat, l: LockFile) {
    i < |machines| && l.lockName == machines[i].lockName && l.slot < machines[i].maxJobs
  }

  predicate AnySlot(machines: seq<Machine>, l: LockFile) {
    exists i :: 0 <= i < |machines| && SlotOf(machines, i, l)
  }

  /** The locks a scan holds lie behind its position and are three different ones. */
  predicate ScanOk(machines: seq<Machine>, q: Proc) {
    q.Scanning? ==>
      && q.m <= |machines|
      && (q.m == |machines| ==> q.slot == 0 && q.probe.None? && q.free.None?)
      && (q.m < |machines| ==> q.slot <= machines[q.m].maxJobs)
      && (q.probe.Some? ==> SlotOf(machines, q.m, q.probe.value) && q.probe.value.slot == q.slot)
      && (q.free.Some? ==> SlotOf(machines, q.m, q.free.value) && q.free.value.slot < q.slot)
      && (q.best.Some? ==> exists i :: 0 <= i < q.m && SlotOf(machines, i, q.best.value))
      && (q.probe.Some? ==> q.probe != q.free && q.probe != q.best)
      && (q.free.Some? ==> q.free != q.best)
      && q.load <= q.slot && (q.free.None? <==> q.load == q.slot)
  }

  predicate ProcOk(machines: seq<Machine>, q: Proc) {
    ScanOk(machines, q) && forall l :: l in Held(q) ==> AnySlot(machines, l)
  }

  predicate MainOk(s: State) {
    forall p :: p in s.procs ==> (s.procs[p].Scanning? <==> s.main == Some(p))
  }

  /** A slot lock is held by exactly the process that has it open. */
  predicate LocksOk(s: State) {
    && (forall p, l :: p in s.procs && l in Held(s.procs[p]) ==> l in s.locks && s.locks[l] == p)
    && (forall l :: l in s.locks ==> s.locks[l] in s.procs && l in Held(s.procs[s.locks[l]]))
  }

  predicate Inv(machines: seq<Machine>, s: State) {
    && MainOk(s) && LocksOk(s)
    && (s.main.Some? ==> s.main.value in s.procs)
    && forall p :: p in s.procs ==> ProcOk(machines, s.procs[p])
  }

  /** From `s` to `t`, process `p` becomes `q'` and the lock table follows what it
      holds; it takes only free locks. */
  ghost predicate Follows(s: State, t: State, p: Pid, q': Proc) {
    && t.procs == s.procs[p := q']
    && (forall l :: l in t.locks <==> l in Held(q') || (l in s.locks && l !in Held(ProcOf(s, p))))
    && (forall l :: l in t.locks ==> t.locks[l] == if l in Held(q') then p else s.locks[l])
    && (forall l :: l in Held(q') ==> l !in s.locks || s.locks[l] == p)
  }

  lemma FollowLocks(s: State, t: State, p: Pid, q': Proc)
    requires LocksOk(s) && Follows(s, t, p, q')
    ensures LocksOk(t)
  {
    assert Held(Idle) == {};
    hide Held;
    forall r, l | r in t.procs && l in Held(t.procs[r])
      ensures l in t.locks && t.locks[l] == r
    {
      if r != p { FollowOther(s, t, p, q', r, l); }
    }
    forall l | l in t.locks
      ensures t.locks[l] in t.procs && l in Held(t.procs[t.locks[l]])
    {
      if l !in Held(q') { assert s.locks[l] in s.procs && l in Held(s.procs[s.locks[l]]); }
    }
  }

  lemma FollowOther(s: State, t: State, p: Pid, q': Proc, r: Pid, l: LockFile)
    requires LocksOk(s) && Follows(s, t, p, q') && r != p && r in s.procs && l in Held(s.procs[r])
    ensures l in t.locks && t.locks[l] == r
  {
    assert Held(Idle) == {};
    hide Held;
    assert l in s.locks && s.locks[l] == r;
    assert l !in Held(ProcOf(s, p));
    assert l !in Held(q');
  }

  lemma FollowInv(machines: seq<Machine>, s: State, t: State, p: Pid, q': Proc)
    requires Inv(machines, s) && Follows(s, t, p, q') && ProcOk(machines, q')
    requires t.main == if q'.Scanning? then Some(p) else if s.main == Some(p) then None else s.main
    requires q'.Scanning? ==> s.main.None? || s.main == Some(p)
    ensures Inv(machines, t)
  {
    FollowLocks(s, t, p, q');
    hide Held, ProcOk, LocksOk;
  }

  /** Locks kept, dropped or taken by the process itself. */
  lemma FollowKeep(s: State, t: State, p: Pid, q': Proc)
    requires LocksOk(s) && t.procs == s.procs[p := q'] && t.locks == s.locks
    requires Held(q') == Held(ProcOf(s, p))
    ensures Follows(s, t, p, q')
  {
    assert Held(Idle) == {};
    hide Held;
  }

  lemma FollowDrop(s: State, t: State, p: Pid, q': Proc, dropped: set<LockFile>)
    requires LocksOk(s) && t.procs == s.procs[p := q'] && t.locks == s.locks - dropped
    requires dropped <= Held(ProcOf(s, p)) && Held(q') == Held(ProcOf(s, p)) - dropped
    ensures Follows(s, t, p, q')
  {
    assert Held(Idle) == {};
    hide Held;
  }

  lemma FollowTake(s: State, t: State, p: Pid, q': Proc, l: LockFile)
    requires LocksOk(s) && p in s.procs && t.procs == s.procs[p := q'] && t.locks == s.locks[l := p]
    requires l !in s.locks && Held(q') == Held(s.procs[p]) + {l}
    ensures Follows(s, t, p, q')
  {
    hide Held;
  }

  /** Steps that take and release no slot lock. */
  lemma KeepInv(machines: seq<Machine>, s: State, p: Pid, a: Action)
    requires Inv(machines, s) && Do(machines, s, p, a).Some?
    requires a.Request? || a.AcquireMain? || a.Connected?
    ensures Inv(machines, Do(machines, s, p, a).value)
  {
    var t := Do(machines, s, p, a).value;
    assert Held(ProcOf(t, p)) == Held(ProcOf(s, p));
    StartOk(machines);
    assert ProcOk(machines, ProcOf(t, p));
    hide ProcOk, Held, LocksOk;
    FollowKeep(s, t, p, ProcOf(t, p));
    hide Follows;
    FollowInv(machines, s, t, p, ProcOf(t, p));
  }

  /** Steps that release every lock the process holds. */
  lemma ReleaseInv(machines: seq<Machine>, s: State, p: Pid, a: Action)
    requires Inv(machines, s) && Do(machines, s, p, a).Some?
    requires a.ConnectFailed? || a.BuildDone? || a.Stop?
    ensures Inv(machines, Do(machines, s, p, a).value)
  {
    var t := Do(machines, s, p, a).value;
    assert Held(ProcOf(t, p)) == {} && t.locks == s.locks - Held(ProcOf(s, p));
    assert ProcOk(machines, ProcOf(t, p));
    hide ProcOk, Held, LocksOk;
    FollowDrop(s, t, p, ProcOf(t, p), Held(ProcOf(s, p)));
    hide Follows;
    FollowInv(machines, s, t, p, ProcOf(t, p));
  }

  lemma StartOk(machines: seq<Machine>)
    ensures ProcOk(machines, START) && Held(START) == {}
  {
  }

  lemma SkipInv(machines: seq<Machine>, s: State, p: Pid)
    requires Inv(machines, s) && Do(machines, s, p, SkipMachine).Some?
    ensures Inv(machines, Do(machines, s, p, SkipMachine).value)
  {
    var q, t := s.procs[p], Do(machines, s, p, SkipMachine).value;
    SkippedOk(machines, q);
    FollowKeep(s, t, p, ProcOf(t, p));
    hide Follows, ProcOk, Held, LocksOk;
    FollowInv(machines, s, t, p, ProcOf(t, p));
  }

  lemma SkippedOk(machines: seq<Machine>, q: Proc)
    requires q.Scanning? && q.m < |machines| && q.slot == 0 && q.probe.None? && ProcOk(machines, q)
    ensures ProcOk(machines, q.(m := q.m + 1)) && Held(q.(m := q.m + 1)) == Held(q)
  {
  }

  lemma ProbeInv(machines: seq<Machine>, s: State, p: Pid)
    requires Inv(machines, s) && Do(machines, s, p, Probe).Some?
    ensures Inv(machines, Do(machines, s, p, Probe).value)
  {
    var q, t := s.procs[p], Do(machines, s, p, Probe).value;
    var l := LockFile(machines[q.m].lockName, q.slot);
    ProbedOk(machines, q, l, l !in s.locks);
    hide ProcOk, Held, LocksOk;
    if l in s.locks {
      FollowKeep(s, t, p, ProcOf(t, p));
    } else {
      FollowTake(s, t, p, ProcOf(t, p), l);
    }
    hide Follows;
    FollowInv(machines, s, t, p, ProcOf(t, p));
  }

  lemma ProbedOk(machines: seq<Machine>, q: Proc, l: LockFile, free: bool)
    requires free ==> l !in Held(q)
    requires ReadyToProbe(machines, q) && ProcOk(machines, q) && l == LockFile(machines[q.m].lockName, q.slot)
    ensures var q1 := q.(slot := q.slot + 1, load := q.load + 1); ProcOk(machines, q1) && Held(q1) == Held(q)
    ensures var q2 := q.(probe := Some(l)); free ==> ProcOk(machines, q2) && Held(q2) == Held(q) + {l}
  {
    assert SlotOf(machines, q.m, l);
  }

  lemma SettleInv(machines: seq<Machine>, s: State, p: Pid)
    requires Inv(machines, s) && Do(machines, s, p, Settle).Some?
    ensures Inv(machines, Do(machines, s, p, Settle).value)
  {
    var q, t := s.procs[p], Do(machines, s, p, Settle).value;
    SettledOk(machines, q, ProcOf(t, p));
    assert q.probe.value in Held(q);
    hide ProcOk, Held, LocksOk;
    if q.free.None? {
      FollowKeep(s, t, p, ProcOf(t, p));
    } else {
      FollowDrop(s, t, p, ProcOf(t, p), {q.probe.value});
    }
    hide Follows;
    FollowInv(machines, s, t, p, ProcOf(t, p));
  }

  lemma SettledOk(machines: seq<Machine>, q: Proc, q': Proc)
    requires q.Scanning? && q.probe.Some? && ProcOk(machines, q)
    requires q' == q.(slot := q.slot + 1, probe := None, free := if q.free.None? then q.probe else q.free)
    ensures Held(q') == if q.free.None? then Held(q) else Held(q) - {q.probe.value}
    ensures ProcOk(machines, q')
  {
  }

  lemma NextInv(machines: seq<Machine>, s: State, p: Pid, better: bool)
    requires Inv(machines, s) && Do(machines, s, p, NextMachine(better)).Some?
    ensures Inv(machines, Do(machines, s, p, NextMachine(better)).value)
  {
    var q, t := s.procs[p], Do(machines, s, p, NextMachine(better)).value;
    assert ProcOk(machines, q);
    hide ProcOk, Held, LocksOk;
    NextOk(machines, q);
    var dropped := if q.free.Some? && (better || q.best.None?) then q.best else q.free;
    assert t.locks == s.locks - Locks(dropped);
    FollowDrop(s, t, p, ProcOf(t, p), Locks(dropped));
    hide Follows;
    FollowInv(machines, s, t, p, ProcOf(t, p));
  }

  lemma NextOk(machines: seq<Machine>, q: Proc)
    requires q.Scanning? && q.m < |machines| && q.probe.None? && ProcOk(machines, q)
    ensures var q1 := Scanning(q.m + 1, 0, 0, None, None, q.free);
      q.free.Some? ==> ProcOk(machines, q1) && Locks(q.best) <= Held(q) && Held(q1) == Held(q) - Locks(q.best)
    ensures var q2 := Scanning(q.m + 1, 0, 0, None, None, q.best);
      ProcOk(machines, q2) && Locks(q.free) <= Held(q) && Held(q2) == Held(q) - Locks(q.free)
  {
  }

  lemma FinishInv(machines: seq<Machine>, s: State, p: Pid)
    requires Inv(machines, s) && Do(machines, s, p, Finish).Some?
    ensures Inv(machines, Do(machines, s, p, Finish).value)
  {
    var q, t := s.procs[p], Do(machines, s, p, Finish).value;
    assert ProcOk(machines, q);
    assert Held(ProcOf(t, p)) == Held(q);
    assert ProcOk(machines, ProcOf(t, p));
    hide ProcOk, Held, LocksOk;
    FollowKeep(s, t, p, ProcOf(t, p));
    hide Follows;
    FollowInv(machines, s, t, p, ProcOf(t, p));
  }

  lemma StepInv(machines: seq<Machine>, s: State, p: Pid, a: Action)
    requires Inv(machines, s) && Do(machines, s, p, a).Some?
    ensures Inv(machines, Do(machines, s, p, a).value)
  {
    hide Inv, Do;
    match a
    case SkipMachine => SkipInv(machines, s, p);
    case Probe => ProbeInv(machines, s, p);
    case Settle => SettleInv(machines, s, p);
    case NextMachine(better) => NextInv(machines, s, p, better);
    case Finish => FinishInv(machines, s, p);
    case Request => KeepInv(machines, s, p, a);
    case AcquireMain => KeepInv(machines, s, p, a);
    case Connected => KeepInv(machines, s, p, a);
    case _ => ReleaseInv(machines, s, p, a);
  }

  lemma {:induction false} RunInv(machines: seq<Machine>, steps: seq<(Pid, Action)>)
    requires Run(machines, steps).Some?
    ensures Inv(machines, Run(machines, steps).value)
  {
    if steps != [] {
      RunInv(machines, steps[..|steps| - 1]);
      var (p, a) := steps[|steps| - 1];
      StepInv(machines, Run(machines, steps[..|steps| - 1]).value, p, a);
    }
  }

  // --- results ---

  /** No two processes hold the same slot. */
  lemma SlotExclusion(machines: seq<Machine>, steps: seq<(Pid, Action)>, p: Pid, r: Pid, l: LockFile)
    requires Run(machines, steps).Some?
    requires var s := Run(machines, steps).value; l in Held(ProcOf(s, p)) && l in Held(ProcOf(s, r))
    ensures p == r
  {
    hide Run;
    RunInv(machines, steps);
    HeldByOne(machines, Run(machines, steps).value, p, r, l);
  }

  lemma HeldByOne(machines: seq<Machine>, s: State, p: Pid, r: Pid, l: LockFile)
    requires Inv(machines, s) && l in Held(ProcOf(s, p)) && l in Held(ProcOf(s, r))
    ensures p == r
  {
    assert p in s.procs && r in s.procs;
    assert s.locks[l] == p && s.locks[l] == r;
  }

  /** The processes that occupy a slot of machine `i`: connecting or building. */
  function Occupants(machines: seq<Machine>, s: State, i: nat): set<Pid> {
    set p | p in s.procs && (s.procs[p].Connecting? || s.procs[p].Building?) && SlotOf(machines, i, s.procs[p].lock)
  }

  lemma {:induction false} Injection(ps: set<Pid>, slotOf: Pid -> nat, n: nat)
    requires forall p :: p in ps ==> slotOf(p) < n
    requires forall p, r :: p in ps && r in ps && slotOf(p) == slotOf(r) ==> p == r
    ensures |ps| <= n
  {
    if ps != {} {
      var some :| some in ps;
      assert slotOf(some) < n;
      if exists p :: p in ps && slotOf(p) == n - 1 {
        var p :| p in ps && slotOf(p) == n - 1;
        assert forall r :: r in ps - {p} ==> slotOf(r) < n && slotOf(r) != slotOf(p);
        Injection(ps - {p}, slotOf, n - 1);
      } else {
        assert forall r :: r in ps ==> slotOf(r) < n && slotOf(r) != n - 1;
        Injection(ps, slotOf, n - 1);
      }
    }
  }

  /** Never more builds on a machine than it has jobs. */
  lemma BuildsBounded(machines: seq<Machine>, steps: seq<(Pid, Action)>, i: nat)
    requires Run(machines, steps).Some? && i < |machines|
    ensures |Occupants(machines, Run(machines, steps).value, i)| <= machines[i].maxJobs
  {
    hide Run, Occupants;
    RunInv(machines, steps);
    OccupantsBounded(machines, Run(machines, steps).value, i);
  }

  function SlotHeld(s: State, p: Pid): nat {
    var q := ProcOf(s, p);
    if q.Connecting? || q.Building? then q.lock.slot else 0
  }

  lemma OccupantsBounded(machines: seq<Machine>, s: State, i: nat)
    requires Inv(machines, s) && i < |machines|
    ensures |Occupants(machines, s, i)| <= machines[i].maxJobs
  {
    forall p, r | p in Occupants(machines, s, i) && r in Occupants(machines, s, i) && SlotHeld(s, p) == SlotHeld(s, r)
      ensures p == r
    {
      assert s.procs[p].lock == s.procs[r].lock;
      HeldByOne(machines, s, p, r, s.procs[p].lock);
    }
    hide Inv;
    Injection(Occupants(machines, s, i), p => SlotHeld(s, p), machines[i].maxJobs);
  }

  /** A probe fails exactly on a slot that a connecting or building process occupies or
      that the scan itself already holds: another scan's probes are never counted. */
  lemma ProbeFails(machines: seq<Machine>, steps: seq<(Pid, Action)>, p: Pid)
    requires Run(machines, steps).Some? && ReadyToProbe(machines, ProcOf(Run(machines, steps).value, p))
    ensures var s := Run(machines, steps).value; var q := ProcOf(s, p);
      var l := LockFile(machines[q.m].lockName, q.slot);
      l in s.locks <==> IsOccupied(machines, s, q.m, q.slot) || q.free == Some(l) || q.best == Some(l)
  {
    hide Run;
    RunInv(machines, steps);
    LockedMeansHeld(machines, Run(machines, steps).value, p);
  }

  ghost predicate IsOccupied(machines: seq<Machine>, s: State, i: nat, slot: nat) {
    exists r :: r in Occupants(machines, s, i) && s.procs[r].lock.slot == slot
  }

  lemma LockedMeansHeld(machines: seq<Machine>, s: State, p: Pid)
    requires Inv(machines, s) && ReadyToProbe(machines, ProcOf(s, p))
    ensures var q := ProcOf(s, p);
      var l := LockFile(machines[q.m].lockName, q.slot);
      l in s.locks <==> IsOccupied(machines, s, q.m, q.slot) || q.free == Some(l) || q.best == Some(l)
  {
    var q := s.procs[p];
    hide ProcOk;
    var l := LockFile(machines[q.m].lockName, q.slot);
    assert SlotOf(machines, q.m, l);
    if l in s.locks && s.locks[l] != p {
      var r := s.locks[l];
      assert l in Held(s.procs[r]);
      assert !s.procs[r].Scanning?;
      assert r in Occupants(machines, s, q.m);
    }
    forall r | r in Occupants(machines, s, q.m) && s.procs[r].lock.slot == q.slot
      ensures l in s.locks
    {
      assert s.procs[r].lock == l && l in Held(s.procs[r]);
    }
  }

  /** Unless a machine is listed twice, that is the machine's real load. */
  lemma LoadIsRealLoad(machines: seq<Machine>, steps: seq<(Pid, Action)>, p: Pid)
    requires DistinctNames(machines) && Run(machines, steps).Some?
    requires ReadyToProbe(machines, ProcOf(Run(machines, steps).value, p))
    ensures var s := Run(machines, steps).value; var q := ProcOf(s, p);
      LockFile(machines[q.m].lockName, q.slot) in s.locks <==> IsOccupied(machines, s, q.m, q.slot)
  {
    hide Run;
    ProbeFails(machines, steps, p);
    RunInv(machines, steps);
    OwnLocksBehind(machines, ProcOf(Run(machines, steps).value, p));
  }

  lemma OwnLocksBehind(machines: seq<Machine>, q: Proc)
    requires DistinctNames(machines) && ReadyToProbe(machines, q) && ScanOk(machines, q)
    ensures var l := LockFile(machines[q.m].lockName, q.slot); q.free != Some(l) && q.best != Some(l)
  {
    if q.best.Some? {
      var i :| 0 <= i < q.m && SlotOf(machines, i, q.best.value);
      assert machines[i].lockName != machines[q.m].lockName;
    }
  }

  /** A machine listed twice: on its second turn the scan finds the slot it has kept. */
  lemma OwnLockCounted(m: Machine)
    requires m.maxJobs == 1
    ensures var steps := [(0, Request), (0, AcquireMain), (0, Probe), (0, Settle), (0, NextMachine(true))];
      && Run([m, m], steps).Some?
      && var s := Run([m, m], steps).value;
         && ReadyToProbe([m, m], ProcOf(s, 0)) && ProcOf(s, 0).m == 1
         && LockFile(m.lockName, 0) in s.locks && !IsOccupied([m, m], s, 1, 0)
  {
    assert Run([m, m], []) == Some(INITIAL);
    hide Run, Do, IsOccupied, ReadyToProbe;
    var s1, s2, s3, s4, s5 := OwnLockKept(m);
    RunNext([m, m], [], INITIAL, 0, Request);
    var t := [] + [(0, Request)];
    RunNext([m, m], t, s1, 0, AcquireMain);
    t := t + [(0, AcquireMain)];
    RunNext([m, m], t, s2, 0, Probe);
    t := t + [(0, Probe)];
    RunNext([m, m], t, s3, 0, Settle);
    t := t + [(0, Settle)];
    RunNext([m, m], t, s4, 0, NextMachine(true));
    t := t + [(0, NextMachine(true))];
    assert t == [(0, Request), (0, AcquireMain), (0, Probe), (0, Settle), (0, NextMachine(true))];
  }

  lemma OwnLockKept(m: Machine) returns (s1: State, s2: State, s3: State, s4: State, s5: State)
    requires m.maxJobs == 1
    ensures var ms := [m, m];
      && Do(ms, INITIAL, 0, Request) == Some(s1) && Do(ms, s1, 0, AcquireMain) == Some(s2)
      && Do(ms, s2, 0, Probe) == Some(s3) && Do(ms, s3, 0, Settle) == Some(s4)
      && Do(ms, s4, 0, NextMachine(true)) == Some(s5)
      && ReadyToProbe(ms, ProcOf(s5, 0)) && ProcOf(s5, 0).m == 1
      && LockFile(m.lockName, 0) in s5.locks && !IsOccupied(ms, s5, 1, 0)
  {
    var ms, l := [m, m], LockFile(m.lockName, 0);
    s1 := Do(ms, INITIAL, 0, Request).value;
    s2 := Do(ms, s1, 0, AcquireMain).value;
    assert ProcOf(s2, 0) == START && l !in s2.locks;
    s3 := Do(ms, s2, 0, Probe).value;
    assert ProcOf(s3, 0) == START.(probe := Some(l)) && l in s3.locks;
    s4 := Do(ms, s3, 0, Settle).value;
    assert ProcOf(s4, 0) == Scanning(0, 1, 0, None, Some(l), None) && l in s4.locks;
    s5 := Do(ms, s4, 0, NextMachine(true)).value;
    assert ProcOf(s5, 0) == Scanning(1, 0, 0, None, None, Some(l)) && l in s5.locks;
  }

  lemma RunNext(machines: seq<Machine>, steps: seq<(Pid, Action)>, s: State, p: Pid, a: Action)
    requires Run(machines, steps) == Some(s)
    ensures Run(machines, steps + [(p, a)]) == Do(machines, s, p, a)
  {
    assert (steps + [(p, a)])[..|steps|] == steps;
  }

  /** Only one process scans at a time. */
  lemma OneScanner(machines: seq<Machine>, steps: seq<(Pid, Action)>, p: Pid, r: Pid)
    requires Run(machines, steps).Some?
    requires var s := Run(machines, steps).value; ProcOf(s, p).Scanning? && ProcOf(s, r).Scanning?
    ensures p == r
  {
    hide Run, ProcOk, LocksOk;
    RunInv(machines, steps);
  }

  // --- a scan comes to its end, with what it found ---

  /** How many steps the machines from `m` on can take. */
  function StepsFrom(machines: seq<Machine>, m: nat): nat
    requires m <= |machines|
    decreases |machines| - m
  {
    if m == |machines| then 0 else 2 * machines[m].maxJobs + 1 + StepsFrom(machines, m + 1)
  }

  function StepsLeft(machines: seq<Machine>, q: Proc): int
    requires q.Scanning? && q.m <= |machines|
  {
    StepsFrom(machines, q.m) - 2 * q.slot - if q.probe.Some? then 1 else 0
  }

  /** The action a scan takes next, if it skips no machine. */
  function NextAction(machines: seq<Machine>, q: Proc, better: bool): Action
    requires q.Scanning? && q.m <= |machines|
  {
    if q.m == |machines| then Finish
    else if q.probe.Some? then Settle
    else if q.slot < machines[q.m].maxJobs then Probe
    else NextMachine(better)
  }

  /** A scan is never stuck, and every step brings it nearer to its end. */
  lemma ScanGoesOn(machines: seq<Machine>, steps: seq<(Pid, Action)>, p: Pid, better: bool)
    requires Run(machines, steps).Some? && ProcOf(Run(machines, steps).value, p).Scanning?
    ensures var s := Run(machines, steps).value; var q := ProcOf(s, p);
      && q.m <= |machines| && StepsLeft(machines, q) >= 0
      && Do(machines, s, p, NextAction(machines, q, better)).Some?
      && var q' := ProcOf(Do(machines, s, p, NextAction(machines, q, better)).value, p);
         if q.m == |machines| then !q'.Scanning?
         else q'.Scanning? && q'.m <= |machines| && StepsLeft(machines, q') < StepsLeft(machines, q)
  {
    hide Run;
    RunInv(machines, steps);
    assert ProcOk(machines, ProcOf(Run(machines, steps).value, p));
  }

  /** The scan holds a free slot. */
  predicate HasSlot(q: Proc) {
    q.Connecting? || (q.Scanning? && (q.probe.Some? || q.free.Some? || q.best.Some?))
  }

  /** A free slot that a probe finds is taken, a taken one counts as load; and once a scan has
      a slot it has one until it connects. */
  lemma FoundIsKept(machines: seq<Machine>, steps: seq<(Pid, Action)>, p: Pid, a: Action)
    requires Run(machines, steps).Some? && ProcOf(Run(machines, steps).value, p).Scanning?
    requires a != Stop && Do(machines, Run(machines, steps).value, p, a).Some?
    ensures var s := Run(machines, steps).value; var q := ProcOf(s, p);
      var t := Do(machines, s, p, a).value; var q' := ProcOf(t, p);
      && (HasSlot(q) ==> HasSlot(q'))
      && (!HasSlot(q) && HasSlot(q') ==> a.Probe?)
      && (a.Probe? ==>
            var l := LockFile(machines[q.m].lockName, q.slot);
            if l in s.locks then q'.load == q.load + 1 && t.locks == s.locks
            else q'.load == q.load && q'.probe == Some(l) && l in t.locks && t.locks[l] == p)
      && (a.Finish? ==> (HasSlot(q') <==> q.best.Some?) && (q.best.Some? ==> q' == Connecting(q.best.value)))
      && (a.NextMachine? && q.free.Some? && q.best.Some? ==> q'.best == if a.better then q.free else q.best)
  {
    hide Run;
    RunInv(machines, steps);
    assert ProcOk(machines, ProcOf(Run(machines, steps).value, p));
  }

  /** A slot stays with the process that connects and builds on it until that process gives
      it up; after a failed connection the process tries again. */
  lemma SlotKept(machines: seq<Machine>, s: State, p: Pid, a: Action, r: Pid)
    requires Do(machines, s, p, a).Some? && (ProcOf(s, r).Connecting? || ProcOf(s, r).Building?)
    ensures var t := Do(machines, s, p, a).value; var q, q' := ProcOf(s, r), ProcOf(t, r);
      || ((q'.Connecting? || q'.Building?) && q'.lock == q.lock)
      || (p == r && (a.Stop? || a.BuildDone?) && q'.Idle?)
      || (p == r && a.ConnectFailed? && q'.Waiting?)
  {
  }

  /** No process is stuck: an idle one can ask, a waiting one scans as soon as nobody else does,
      and one that connects or builds can end that. */
  lemma NeverStuck(machines: seq<Machine>, s: State, p: Pid)
    ensures ProcOf(s, p).Idle? ==>
      Do(machines, s, p, Request).Some? && ProcOf(Do(machines, s, p, Request).value, p).Waiting?
    ensures ProcOf(s, p).Waiting? ==>
      if s.main.None? then
        && Do(machines, s, p, AcquireMain).Some?
        && ProcOf(Do(machines, s, p, AcquireMain).value, p) == Scanning(0, 0, 0, None, None, None)
      else Do(machines, s, p, AcquireMain).None?
    ensures ProcOf(s, p).Connecting? ==>
      && Do(machines, s, p, Connected).Some? && Do(machines, s, p, ConnectFailed).Some?
      && ProcOf(Do(machines, s, p, Connected).value, p).Building?
    ensures ProcOf(s, p).Building? ==> Do(machines, s, p, BuildDone).Some?
  {
  }

  // --- one hook instance ---

  datatype Outcome = Accept | Postpone | Decline | DeclinePermanently | Throw

  datatype Event = Init | Build | BuildAnswer(outcome: Outcome)

  /** An instance as its callers see it: calls waiting for their answer and builds
      accepted so far. */
  datatype Hook = Hook(initialized: bool, pending: nat, accepted: nat)

  const NEW_HOOK := Hook(false, 0, 0)

  /** A call is refused while another is pending or once one was accepted, and fails at
      once before initialisation. */
  function AfterEvent(h: Hook, e: Event): Hook {
    match e
    case Init => h.(initialized := true)
    case Build => if h.pending == 0 && h.accepted == 0 && h.initialized then h.(pending := 1) else h
    case BuildAnswer(outcome) =>
      if h.pending == 0 then h
      else h.(pending := 0, accepted := h.accepted + if outcome == Accept then 1 else 0)
  }

  function AfterEvents(events: seq<Event>): Hook {
    if events == [] then NEW_HOOK else AfterEvent(AfterEvents(events[..|events| - 1]), events[|events| - 1])
  }

  /** However calls and answers interleave, an instance has at most one build, pending or
      accepted. */
  lemma {:induction false} AtMostOneBuild(events: seq<Event>)
    ensures AfterEvents(events).pending + AfterEvents(events).accepted <= 1
  {
    if events != [] { AtMostOneBuild(events[..|events| - 1]); }
  }

  /** An accepted build is the last: nothing that arrives later starts another. */
  lemma {:induction false} AcceptedForGood(events: seq<Event>, later: seq<Event>)
    requires AfterEvents(events).accepted == 1
    ensures AfterEvents(events + later).accepted == 1 && AfterEvents(events + later).pending == 0
    decreases |later|
  {
    AtMostOneBuild(events);
    if later == [] {
      assert events + later == events;
    } else {
      AcceptedForGood(events, later[..|later| - 1]);
      assert (events + later)[..|events + later| - 1] == events + later[..|later| - 1];
    }
  }

  /** An initialised instance without a build takes the next call; a refused or failed one
      leaves it free for another, an accepted one does not. */
  lemma {:induction false} CallsAreTaken(events: seq<Event>, outcome: Outcome)
    ensures AfterEvents(events).initialized <==> Init in events
    ensures var h := AfterEvents(events);
      var h1, h2 := AfterEvents(events + [Build]), AfterEvents(events + [Build, BuildAnswer(outcome)]);
      Init in events && h.pending == 0 && h.accepted == 0 ==>
        && h1.pending == 1 && h1.accepted == 0
        && h2.pending == 0 && h2.accepted == if outcome == Accept then 1 else 0
    decreases |events|
  {
    if events != [] {
      var last := |events| - 1;
      CallsAreTaken(events[..last], outcome);
      assert events == events[..last] + [events[last]];
    }
    assert (events + [Build])[..|events|] == events;
    assert (events + [Build, BuildAnswer(outcome)])[..|events| + 1] == events + [Build];
  }

  /** An `Instance`. */
  class Instance {
    var initialized: bool
    var used: bool
    ghost var pending: nat
    ghost var accepted: nat

    ghost predicate Valid()
      reads this
    {
      && pending + accepted <= 1
      && (used <==> pending + accepted == 1)
    }

    ghost function State(): Hook
      reads this
    {
      Hook(initialized, pending, accepted)
    }

    constructor ()
      ensures Valid() && State() == NEW_HOOK
    {
      initialized, used, pending, accepted := false, false, 0, 0;
    }

    method Initialize() returns (ok: bool)
      requires Valid()
      modifies this`initialized
      ensures Valid() && State() == AfterEvent(old(State()), Init) && (ok <==> !old(initialized))
    {
      ok := !initialized;
      initialized := true;
    }

    /** `Instance::build` up to its await. */
    method BeginBuild() returns (ok: bool)
      requires Valid()
      modifies this`used, this`pending
      ensures Valid() && State() == AfterEvent(old(State()), Build)
      ensures ok <==> pending == 1 && old(pending) == 0
    {
      if used { return false; }
      used, pending := true, 1;
      if !initialized {
        used, pending := false, 0;
        return false;
      }
      return true;
    }

    /** `Instance::build` after its await. */
    method EndBuild(outcome: Outcome)
      requires Valid() && pending == 1
      modifies this`used, this`pending, this`accepted
      ensures Valid() && State() == AfterEvent(old(State()), BuildAnswer(outcome))
    {
      used := outcome.Accept?;
      pending, accepted := 0, accepted + if outcome.Accept? then 1 else 0;
    }
  }

  /** Runs one instance through any events; an answer without a pending call is none. */
  method Serve(events: seq<Event>) returns (accepted: nat)
    ensures accepted == AfterEvents(events).accepted
  {
    var hook := new Instance();
    accepted := 0;
    var waiting := false;
    for n := 0 to |events|
      invariant hook.Valid() && fresh(hook) && hook.State() == AfterEvents(events[..n])
      invariant accepted == hook.accepted && (waiting <==> hook.pending == 1)
    {
      assert events[..n + 1][..n] == events[..n];
      match events[n] {
        case Init =>
          var _ := hook.Initialize();
        case Build =>
          var ok := hook.BeginBuild();
          waiting := waiting || ok;
        case BuildAnswer(outcome) =>
          if waiting {
            hook.EndBuild(outcome);
            accepted := accepted + if outcome.Accept? then 1 else 0;
            waiting := false;
          }
      }
    }
    assert events[..|events|] == events;
  }
}
