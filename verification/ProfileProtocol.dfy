/** Concurrent changes to one `nix-env` profile: read the token, read the elements,
    compute, lock, recheck the token, create a generation, switch the link. Any number
    of processes take these steps in any order, and any of them may stop at any time. */
module ProfileProtocol {
  import opened Options

  type Pid = nat

  type Elem = nat

  /** The elements of a user environment; its store path determines them. */
  type Elems = seq<Elem>

  /** The generation the profile links to; `None` when there is no profile. */
  type Token = Option<nat>

  /** An operation (install, upgrade, set-flag, uninstall): what it may make of the
      installed elements. */
  type Op = (Elems, Elems) -> bool

  /** How far a process is within one turn of its retry loop. */
  datatype Stage = TokenRead | ElemsRead | Computed | Locked | Checked | Created

  /** What a process remembers: its operation, the token, how many commits the profile
      had seen when the token was read, the elements, the new elements and their
      generation. */
  datatype Proc =
    | Idle
    | Started(op: Op)
    | Busy(op: Op, stage: Stage, token: Token, seen: nat, elems: Elems, out: Elems, gen: nat)

  datatype Commit = Commit(pid: Pid, op: Op, before: Elems, after: Elems, gen: nat)

  datatype State = State(
    gens: map<nat, Elems>,
    last: nat,
    current: Token,
    lock: Option<Pid>,
    procs: map<Pid, Proc>,
    log: seq<Commit>)

  datatype Action =
    | Begin(op: Op)
    | ReadToken
    | ReadElems
    | Compute(out: Elems)
    | Lock
    | Recheck
    | CreateGeneration
    | SwitchLink
    | Stop

  function ProcOf(s: State, p: Pid): Proc {
    if p in s.procs then s.procs[p] else Idle
  }

  /** What `queryInstalled` finds through the profile link. */
  function Installed(s: State): Elems {
    ElemsOf(s.gens, s.current)
  }

  function ElemsOf(gens: map<nat, Elems>, t: Token): Elems {
    if t.Some? && t.value in gens then gens[t.value] else []
  }

  predicate HoldsLock(q: Proc) {
    q.Busy? && q.stage in {Locked, Checked, Created}
  }

  predicate AtStage(q: Proc, stage: Stage) {
    q.Busy? && q.stage == stage
  }

  /** The generation `createGeneration` returns, and the links that then exist. A link
      is added only when the new contents differ from the last one's. */
  function NewGeneration(s: State, out: Elems): (map<nat, Elems>, nat) {
    if s.last in s.gens && s.gens[s.last] == out then (s.gens, s.last)
    else (s.gens[s.last + 1 := out], s.last + 1)
  }

  function With(s: State, p: Pid, q: Proc): State {
    s.(procs := s.procs[p := q])
  }

  /** One step of process `p`, if it can take it. */
  ghost function Do(s: State, p: Pid, a: Action): Option<State> {
    var q := ProcOf(s, p);
    match a
    case Begin(op) =>
      if q.Idle? then Some(With(s, p, Started(op))) else None
    case ReadToken =>
      if q.Started? then Some(With(s, p, Busy(q.op, TokenRead, s.current, |s.log|, [], [], 0))) else None
    case ReadElems =>
      if AtStage(q, TokenRead) then Some(With(s, p, q.(stage := ElemsRead, elems := Installed(s)))) else None
    case Compute(out) =>
      if AtStage(q, ElemsRead) && q.op(q.elems, out) then Some(With(s, p, q.(stage := Computed, out := out))) else None
    case Lock =>
      if AtStage(q, Computed) && s.lock.None? then Some(With(s, p, q.(stage := Locked)).(lock := Some(p))) else None
    case Recheck =>
      if !AtStage(q, Locked) then None
      else if q.token != s.current then Some(With(s, p, Started(q.op)).(lock := None))
      else Some(With(s, p, q.(stage := Checked)))
    case CreateGeneration =>
      if !AtStage(q, Checked) then None
      else
        var (gens, gen) := NewGeneration(s, q.out);
        Some(With(s, p, q.(stage := Created, gen := gen)).(gens := gens, last := gen))
    case SwitchLink =>
      if !AtStage(q, Created) then None
      else Some(With(s, p, Idle).(
        current := Some(q.gen), lock := None,
        log := s.log + [Commit(p, q.op, Installed(s), q.out, q.gen)]))
    case Stop =>
      Some(With(s, p, Idle).(lock := if s.lock == Some(p) then None else s.lock))
  }

  /** Any start: no process is under way, and the profile may point at any generation. */
  predicate Initial(s: State) {
    && s.procs == map[] && s.lock.None? && s.log == []
    && (forall g :: g in s.gens ==> g <= s.last)
    && (s.last in s.gens || (s.last == 0 && s.gens == map[]))
    && (s.current.Some? ==> s.current.value in s.gens)
  }

  ghost function Run(s: State, steps: seq<(Pid, Action)>): Option<State> {
    if steps == [] then Some(s)
    else
      var r := Run(s, steps[..|steps| - 1]);
      var (p, a) := steps[|steps| - 1];
      if r.Some? then Do(r.value, p, a) else None
  }

  // --- what every step keeps ---

  /** Links in the order in which the profile can point at them. */
  function Rank(t: Token): int {
    if t.Some? then t.value else -1
  }

  predicate LinksOk(s: State) {
    && (forall g :: g in s.gens ==> g <= s.last)
    && (s.last in s.gens || (s.last == 0 && s.gens == map[]))
    && (s.current.Some? ==> s.current.value in s.gens)
  }

  predicate LockOk(s: State) {
    forall p :: p in s.procs ==> (HoldsLock(s.procs[p]) <==> s.lock == Some(p))
  }

  /** The link the profile had after the first `n` commits. */
  function TokenAt(start: Token, log: seq<Commit>, n: nat): Token
    requires n <= |log|
  {
    if n == 0 then start else Some(log[n - 1].gen)
  }

  /** Elements read for a token that still stands are the installed ones. */
  predicate ReadOk(s: State, q: Proc) {
    q.Busy? ==>
      && Rank(q.token) <= Rank(s.current)
      && (q.stage != TokenRead && q.token == s.current ==> q.elems == Installed(s))
      && (q.stage in {Checked, Created} ==> q.token == s.current)
  }

  predicate WorkOk(s: State, q: Proc) {
    q.Busy? && q.stage in {Computed, Locked, Checked, Created} ==> q.op(q.elems, q.out)
  }

  predicate CreatedOk(s: State, q: Proc) {
    AtStage(q, Created) ==> q.gen == s.last && q.gen in s.gens && s.gens[q.gen] == q.out
  }

  /** The token a process remembers is the link after the commits it had seen, and the
      process has not committed since. */
  predicate SeenOk(start: Token, s: State, p: Pid, q: Proc) {
    q.Busy? ==>
      && q.seen <= |s.log| && q.token == TokenAt(start, s.log, q.seen)
      && forall k :: q.seen <= k < |s.log| ==> s.log[k].pid != p
  }

  /** Every commit applied its operation to the elements the commit before it stored. */
  predicate Chained(start: Elems, log: seq<Commit>) {
    forall k :: 0 <= k < |log| ==> Follows(start, log, k)
  }

  predicate Follows(start: Elems, log: seq<Commit>, k: nat)
    requires k < |log|
  {
    && log[k].op(log[k].before, log[k].after)
    && log[k].before == if k == 0 then start else log[k - 1].after
  }

  predicate HistoryOk(s0: State, s: State) {
    && Chained(Installed(s0), s.log)
    && s.current == TokenAt(s0.current, s.log, |s.log|)
    && Installed(s) == if s.log == [] then Installed(s0) else s.log[|s.log| - 1].after
  }

  predicate ProcOk(s0: State, s: State, p: Pid) {
    var q := ProcOf(s, p);
    ReadOk(s, q) && WorkOk(s, q) && CreatedOk(s, q) && SeenOk(s0.current, s, p, q)
  }

  ghost predicate Inv(s0: State, s: State) {
    && LinksOk(s) && LockOk(s) && HistoryOk(s0, s)
    && (s.lock.Some? ==> s.lock.value in s.procs)
    && forall p :: p in s.procs ==> ProcOk(s0, s, p)
  }

  lemma InitialInv(s0: State)
    requires Initial(s0)
    ensures Inv(s0, s0)
  {
  }

  ghost predicate SameProfile(s: State, t: State) {
    s.gens == t.gens && s.last == t.last && s.current == t.current && s.log == t.log
  }

  lemma Unaffected(s0: State, s: State, t: State, r: Pid)
    requires SameProfile(s, t) && ProcOf(t, r) == ProcOf(s, r) && ProcOk(s0, s, r)
    ensures ProcOk(s0, t, r)
  {
  }

  /** A step that leaves the profile alone keeps the invariant if it suits the process
      that takes it. */
  lemma LocalInv(s0: State, s: State, t: State, p: Pid, q: Proc)
    requires Inv(s0, s) && SameProfile(s, t)
    requires t.procs == s.procs[p := q] && ProcOk(s0, t, p)
    requires t.lock == if HoldsLock(q) then Some(p) else if s.lock == Some(p) then None else s.lock
    requires HoldsLock(q) ==> s.lock.None? || s.lock == Some(p)
    ensures Inv(s0, t)
  {
    hide ProcOk;
    forall r | r in t.procs
      ensures ProcOk(s0, t, r)
    {
      if r != p { Unaffected(s0, s, t, r); }
    }
  }

  lemma ReadInv(s0: State, s: State, p: Pid, a: Action)
    requires Inv(s0, s) && Do(s, p, a).Some?
    requires a.Begin? || a.ReadToken? || a.ReadElems? || a.Compute?
    ensures Inv(s0, Do(s, p, a).value)
  {
    assert ProcOk(s0, s, p);
    assert ProcOf(s, p).Busy? && !HoldsLock(ProcOf(s, p)) ==> s.lock != Some(p);
    var t := Do(s, p, a).value;
    assert ProcOk(s0, t, p);
    hide ProcOk;
    LocalInv(s0, s, t, p, ProcOf(t, p));
  }

  lemma LockInv(s0: State, s: State, p: Pid, a: Action)
    requires Inv(s0, s) && Do(s, p, a).Some?
    requires a.Lock? || a.Recheck? || a.Stop?
    ensures Inv(s0, Do(s, p, a).value)
  {
    assert ProcOk(s0, s, p);
    assert HoldsLock(ProcOf(s, p)) ==> s.lock == Some(p);
    var t := Do(s, p, a).value;
    assert ProcOk(s0, t, p);
    hide ProcOk;
    LocalInv(s0, s, t, p, ProcOf(t, p));
  }

  lemma CreateInv(s0: State, s: State, p: Pid)
    requires Inv(s0, s) && Do(s, p, CreateGeneration).Some?
    ensures Inv(s0, Do(s, p, CreateGeneration).value)
  {
    var s' := Do(s, p, CreateGeneration).value;
    assert s.current.Some? ==> s.current.value in s.gens;
    assert Installed(s') == Installed(s);
    forall r | r in s'.procs
      ensures ProcOk(s0, s', r)
    {
      assert ProcOk(s0, s, r);
      if r != p { assert !HoldsLock(s.procs[r]); }
    }
  }

  lemma ChainedPush(start: Elems, log: seq<Commit>, c: Commit)
    requires Chained(start, log) && c.op(c.before, c.after)
    requires c.before == if log == [] then start else log[|log| - 1].after
    ensures Chained(start, log + [c])
  {
    forall k | 0 <= k < |log|
      ensures Follows(start, log + [c], k)
    {
      assert Follows(start, log, k);
    }
  }

  lemma SwitchLog(s0: State, s: State, p: Pid)
    requires Inv(s0, s) && Do(s, p, SwitchLink).Some?
    ensures HistoryOk(s0, Do(s, p, SwitchLink).value)
  {
    var q, t := s.procs[p], Do(s, p, SwitchLink).value;
    assert ProcOk(s0, s, p);
    assert Installed(t) == q.out;
    ChainedPush(Installed(s0), s.log, Commit(p, q.op, Installed(s), q.out, q.gen));
    hide Chained;
  }

  /** The new link comes after every token read so far. */
  lemma SwitchInv(s0: State, s: State, p: Pid)
    requires Inv(s0, s) && Do(s, p, SwitchLink).Some?
    ensures Inv(s0, Do(s, p, SwitchLink).value)
  {
    var s' := Do(s, p, SwitchLink).value;
    SwitchLog(s0, s, p);
    assert ProcOk(s0, s, p);
    forall r | r in s'.procs
      ensures ProcOk(s0, s', r)
    {
      if r != p {
        assert ProcOk(s0, s, r);
        assert !HoldsLock(s.procs[r]);
        SwitchReader(s0, s, p, r);
      }
    }
  }

  lemma SwitchReader(s0: State, s: State, p: Pid, r: Pid)
    requires Inv(s0, s) && Do(s, p, SwitchLink).Some?
    requires r in s.procs && r != p && !HoldsLock(s.procs[r])
    ensures ProcOk(s0, Do(s, p, SwitchLink).value, r)
  {
    var s' := Do(s, p, SwitchLink).value;
    var q := s.procs[r];
    assert ProcOk(s0, s, p) && ProcOk(s0, s, r);
    assert ProcOf(s', r) == q;
    if q.Busy? {
      assert Rank(s.current) <= Rank(s'.current);
      assert TokenAt(s0.current, s'.log, q.seen) == TokenAt(s0.current, s.log, q.seen);
    }
  }

  lemma StepInv(s0: State, s: State, p: Pid, a: Action)
    requires Inv(s0, s) && Do(s, p, a).Some?
    ensures Inv(s0, Do(s, p, a).value)
  {
    match a
    case Begin(_) => ReadInv(s0, s, p, a);
    case ReadToken => ReadInv(s0, s, p, a);
    case ReadElems => ReadInv(s0, s, p, a);
    case Compute(_) => ReadInv(s0, s, p, a);
    case Lock => LockInv(s0, s, p, a);
    case Recheck => LockInv(s0, s, p, a);
    case CreateGeneration => CreateInv(s0, s, p);
    case SwitchLink => SwitchInv(s0, s, p);
    case Stop => LockInv(s0, s, p, a);
  }

  lemma {:induction false} RunInv(s0: State, steps: seq<(Pid, Action)>)
    requires Initial(s0) && Run(s0, steps).Some?
    ensures Inv(s0, Run(s0, steps).value)
  {
    if steps == [] {
      InitialInv(s0);
    } else {
      RunInv(s0, steps[..|steps| - 1]);
      var (p, a) := steps[|steps| - 1];
      StepInv(s0, Run(s0, steps[..|steps| - 1]).value, p, a);
    }
  }

  // --- results ---

  /** No lost update: in every run, each commit stores its operation applied to what the
      commit before it stored, and the profile shows what the last one stored. */
  lemma NoLostUpdates(s0: State, steps: seq<(Pid, Action)>)
    requires Initial(s0) && Run(s0, steps).Some?
    ensures var s := Run(s0, steps).value;
      && Chained(Installed(s0), s.log)
      && Installed(s) == if s.log == [] then Installed(s0) else s.log[|s.log| - 1].after
  {
    RunInv(s0, steps);
  }

  /** At most one process is between locking and switching. */
  lemma MutualExclusion(s0: State, steps: seq<(Pid, Action)>, p: Pid, r: Pid)
    requires Initial(s0) && Run(s0, steps).Some?
    requires var s := Run(s0, steps).value; HoldsLock(ProcOf(s, p)) && HoldsLock(ProcOf(s, r))
    ensures p == r
  {
    RunInv(s0, steps);
  }

  /** A process that has to restart read its token before a commit, and every commit
      since then is another process's. It gives the lock back and begins again with the
      same operation. */
  lemma RestartsOnlyWhenOvertaken(s0: State, steps: seq<(Pid, Action)>, p: Pid)
    requires Initial(s0) && Run(s0, steps).Some?
    requires var s := Run(s0, steps).value; AtStage(ProcOf(s, p), Locked) && ProcOf(s, p).token != s.current
    ensures var s := Run(s0, steps).value; var q := ProcOf(s, p);
      && q.seen < |s.log|
      && (forall k :: q.seen <= k < |s.log| ==> s.log[k].pid != p)
      && Do(s, p, Recheck).Some?
      && var t := Do(s, p, Recheck).value;
         ProcOf(t, p) == Started(q.op) && t.lock.None? && SameProfile(s, t)
  {
    RunInv(s0, steps);
    assert ProcOk(s0, Run(s0, steps).value, p);
  }

  /** A process passes its recheck exactly when the profile still shows the elements of
      the token it read, so nothing it computed is stale. */
  lemma NotOvertakenGoesThrough(s0: State, steps: seq<(Pid, Action)>, p: Pid)
    requires Initial(s0) && Run(s0, steps).Some?
    requires AtStage(ProcOf(Run(s0, steps).value, p), Locked)
    ensures var s := Run(s0, steps).value; var q := ProcOf(s, p);
      && Do(s, p, Recheck).Some?
      && (AtStage(ProcOf(Do(s, p, Recheck).value, p), Checked) <==> q.token == s.current)
      && (q.token == s.current ==> q.op(Installed(s), q.out))
  {
    RunInv(s0, steps);
    assert ProcOk(s0, Run(s0, steps).value, p);
  }

  // --- nothing is dropped ---

  /** The operation a process has begun and not yet committed. */
  function Pending(q: Proc): Option<Op> {
    match q
    case Idle => None
    case Started(op) => Some(op)
    case Busy(op, _, _, _, _, _, _) => Some(op)
  }

  /** Commits are only ever appended. */
  lemma LogGrows(s: State, p: Pid, a: Action)
    requires Do(s, p, a).Some?
    ensures s.log <= Do(s, p, a).value.log
  {
  }

  /** No step of any process drops an operation that is under way: afterwards it is still
      under way, or just committed, or its own process stopped. */
  lemma OperationKept(s: State, p: Pid, a: Action, r: Pid)
    requires Do(s, p, a).Some? && Pending(ProcOf(s, r)).Some?
    ensures var t := Do(s, p, a).value;
      var op := Pending(ProcOf(s, r)).value;
      || Pending(ProcOf(t, r)) == Some(op)
      || (p == r && a.Stop?)
      || (|t.log| == |s.log| + 1 && t.log[|s.log|].pid == r && t.log[|s.log|].op == op)
  {
  }

  /** From commit number `n` on, there is one of `r` with this operation. */
  ghost predicate Committed(log: seq<Commit>, n: nat, r: Pid, op: Op) {
    exists k :: n <= k < |log| && log[k].pid == r && log[k].op == op
  }

  /** An operation that was begun and whose process was never stopped is under way or
      committed, however often it was overtaken. */
  lemma {:induction false} BegunIsServed(s0: State, steps: seq<(Pid, Action)>, k: nat, r: Pid, op: Op)
    requires Run(s0, steps).Some? && k < |steps| && steps[k] == (r, Begin(op))
    requires forall j :: k < j < |steps| ==> steps[j] != (r, Stop)
    ensures Run(s0, steps[..k]).Some?
    ensures var s := Run(s0, steps).value;
      Pending(ProcOf(s, r)) == Some(op) || Committed(s.log, |Run(s0, steps[..k]).value.log|, r, op)
    decreases |steps|
  {
    var n := |steps| - 1;
    var (p, a) := steps[n];
    var s := Run(s0, steps[..n]).value;
    if k == n {
      assert ProcOf(Run(s0, steps).value, r) == Started(op);
    } else {
      assert steps[..n][..k] == steps[..k] && steps[..n][k] == steps[k];
      BegunIsServed(s0, steps[..n], k, r, op);
      LogGrows(s, p, a);
      var start := |Run(s0, steps[..k]).value.log|;
      if Committed(s.log, start, r, op) {
        var i :| start <= i < |s.log| && s.log[i].pid == r && s.log[i].op == op;
        assert Run(s0, steps).value.log[i] == s.log[i];
      } else {
        LogLonger(s0, steps[..n], k);
        OperationKept(s, p, a, r);
      }
    }
  }

  lemma {:induction false} LogLonger(s0: State, steps: seq<(Pid, Action)>, k: nat)
    requires Run(s0, steps).Some? && k <= |steps|
    ensures Run(s0, steps[..k]).Some? && |Run(s0, steps[..k]).value.log| <= |Run(s0, steps).value.log|
    decreases |steps|
  {
    if k == |steps| {
      assert steps[..k] == steps;
    } else {
      var n := |steps| - 1;
      assert steps[..n][..k] == steps[..k];
      LogLonger(s0, steps[..n], k);
      LogGrows(Run(s0, steps[..n]).value, steps[n].0, steps[n].1);
    }
  }

  /** Generations that exist are never changed or removed, and a new one is made exactly
      when the new elements differ from those of the last. */
  lemma GenerationsKept(s0: State, steps: seq<(Pid, Action)>, p: Pid, a: Action)
    requires Initial(s0) && Run(s0, steps).Some? && Do(Run(s0, steps).value, p, a).Some?
    ensures var s := Run(s0, steps).value; var t := Do(s, p, a).value;
      && (forall g :: g in s.gens ==> g in t.gens && t.gens[g] == s.gens[g])
      && (t.gens != s.gens <==> a.CreateGeneration? && !(s.last in s.gens && s.gens[s.last] == ProcOf(s, p).out))
  {
    RunInv(s0, steps);
    hide Do, Run, LockOk, HistoryOk, ProcOk;
    GenerationStep(Run(s0, steps).value, p, a);
  }

  lemma GenerationStep(s: State, p: Pid, a: Action)
    requires LinksOk(s) && Do(s, p, a).Some?
    ensures var t := Do(s, p, a).value;
      && (forall g :: g in s.gens ==> g in t.gens && t.gens[g] == s.gens[g])
      && (t.gens != s.gens <==> a.CreateGeneration? && !(s.last in s.gens && s.gens[s.last] == ProcOf(s, p).out))
  {
    assert s.last + 1 !in s.gens;
  }

  /** A process that nobody disturbs commits its operation: it reads the token and the
      elements, computes, locks, passes the recheck, creates and switches. */
  lemma UndisturbedCommits(s: State, p: Pid, op: Op, out: Elems)
    requires LinksOk(s) && ProcOf(s, p) == Started(op) && s.lock.None? && op(Installed(s), out)
    ensures var turn := [(p, ReadToken), (p, ReadElems), (p, Compute(out)), (p, Lock), (p, Recheck),
                         (p, CreateGeneration), (p, SwitchLink)];
      && Run(s, turn).Some?
      && var t := Run(s, turn).value;
         && Installed(t) == out && ProcOf(t, p) == Idle && t.lock.None?
         && |t.log| == |s.log| + 1 && s.log <= t.log
         && t.log[|s.log|].pid == p && t.log[|s.log|].op == op
         && t.log[|s.log|].before == Installed(s) && t.log[|s.log|].after == out
  {
    hide Do, Run, Installed;
    var s1, s2, s3, s4 := FirstHalf(s, p, op, out);
    var s5, s6, s7 := SecondHalf(s, s4, p, op, out);
    var turn := [];
    RunNone(s);
    RunNext(s, turn, s, p, ReadToken);
    turn := turn + [(p, ReadToken)];
    RunNext(s, turn, s1, p, ReadElems);
    turn := turn + [(p, ReadElems)];
    RunNext(s, turn, s2, p, Compute(out));
    turn := turn + [(p, Compute(out))];
    RunNext(s, turn, s3, p, Lock);
    turn := turn + [(p, Lock)];
    RunNext(s, turn, s4, p, Recheck);
    turn := turn + [(p, Recheck)];
    RunNext(s, turn, s5, p, CreateGeneration);
    turn := turn + [(p, CreateGeneration)];
    RunNext(s, turn, s6, p, SwitchLink);
    turn := turn + [(p, SwitchLink)];
    assert turn == [(p, ReadToken), (p, ReadElems), (p, Compute(out)), (p, Lock), (p, Recheck),
                    (p, CreateGeneration), (p, SwitchLink)];
  }

  lemma FirstHalf(s: State, p: Pid, op: Op, out: Elems) returns (s1: State, s2: State, s3: State, s4: State)
    requires ProcOf(s, p) == Started(op) && s.lock.None? && op(Installed(s), out)
    ensures Do(s, p, ReadToken) == Some(s1) && Do(s1, p, ReadElems) == Some(s2)
    ensures Do(s2, p, Compute(out)) == Some(s3) && Do(s3, p, Lock) == Some(s4)
    ensures SameProfile(s, s4) && ProcOf(s4, p) == Busy(op, Locked, s.current, |s.log|, Installed(s), out, 0)
  {
    s1 := Do(s, p, ReadToken).value;
    assert Installed(s1) == Installed(s);
    s2 := Do(s1, p, ReadElems).value;
    s3 := Do(s2, p, Compute(out)).value;
    s4 := Do(s3, p, Lock).value;
  }

  lemma SecondHalf(s: State, s4: State, p: Pid, op: Op, out: Elems) returns (s5: State, s6: State, s7: State)
    requires LinksOk(s) && SameProfile(s, s4)
    requires ProcOf(s4, p) == Busy(op, Locked, s.current, |s.log|, Installed(s), out, 0)
    ensures Do(s4, p, Recheck) == Some(s5) && Do(s5, p, CreateGeneration) == Some(s6)
    ensures Do(s6, p, SwitchLink) == Some(s7)
    ensures Installed(s7) == out && ProcOf(s7, p) == Idle && s7.lock.None?
    ensures |s7.log| == |s.log| + 1 && s.log <= s7.log
    ensures var c := s7.log[|s.log|]; c.pid == p && c.op == op && c.before == Installed(s) && c.after == out
  {
    s5 := Do(s4, p, Recheck).value;
    s6 := Do(s5, p, CreateGeneration).value;
    assert AtStage(ProcOf(s6, p), Created) && s6.gens[ProcOf(s6, p).gen] == out;
    assert Installed(s6) == Installed(s);
    s7 := Do(s6, p, SwitchLink).value;
  }

  lemma RunNone(s: State)
    ensures Run(s, []) == Some(s)
  {
  }

  lemma RunNext(s0: State, steps: seq<(Pid, Action)>, s: State, p: Pid, a: Action)
    requires Run(s0, steps) == Some(s)
    ensures Run(s0, steps + [(p, a)]) == Do(s, p, a)
  {
    assert (steps + [(p, a)])[..|steps|] == steps;
  }
}
