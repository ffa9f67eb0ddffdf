/** The call-by-need evaluator: environments and thunks live in a heap that is
    updated in place, thunks are overwritten by black holes while they are being
    forced and by their results afterwards. */
module Machine {
  import opened Options
  import opened Syntax
  import opened Binder
  import opened Semantics
  import opened Denotation
  import opened Equations
  import opened Failures
  import opened HeapRelation

  datatype Snapshot = Snapshot(w: World, thunks: seq<Thunk>, forcing: seq<nat>)

  /** What every evaluation step guarantees about the heap, besides its validity. */
  ghost predicate Later(a: Snapshot, b: Snapshot) {
    Extends(a.w, b.w) && ThunksEvolve(a.thunks, b.thunks) && a.forcing == b.forcing
  }

  lemma LaterTrans(a: Snapshot, b: Snapshot, c: Snapshot)
    requires Later(a, b) && Later(b, c)
    ensures Later(a, c)
  {
    assert a.w.envs <= c.w.envs && a.w.thunks <= c.w.thunks;
    forall t | |a.thunks| <= t < |c.thunks| ensures !c.thunks[t].BlackHole? {
      if t < |b.thunks| { assert ThunkEvolves(b.thunks[t], c.thunks[t]); }
    }
    forall t | 0 <= t < |a.thunks| ensures ThunkEvolves(a.thunks[t], c.thunks[t]) {
      assert ThunkEvolves(a.thunks[t], b.thunks[t]) && ThunkEvolves(b.thunks[t], c.thunks[t]);
    }
  }

  /** The black-holed thunks are exactly those on the force stack. */
  ghost predicate StackOk(thunks: seq<Thunk>, forcing: seq<nat>) {
    (forall t :: t in forcing ==> t < |thunks|) &&
    (forall t :: 0 <= t < |thunks| ==> (thunks[t].BlackHole? <==> t in forcing))
  }

  ghost predicate HeapOk(cells: seq<EnvCell>, s: Snapshot) {
    EnvsOk(s.w, cells) && ThunksOk(s.w, s.thunks) && StackOk(s.thunks, s.forcing)
  }

  /** No thunk on the force stack can give a result with fuel `f`. */
  ghost predicate Unblocked(s: Snapshot, f: nat) {
    forall t :: t in s.forcing && t < |s.w.thunks| ==> !Timely(Semantics.Force(f, ByDispl, s.w.thunks[t]))
  }

  function Pred(f: nat): nat { if f == 0 then 0 else f - 1 }

  lemma UnblockedDown(s: Snapshot, g: nat, f: nat)
    requires g <= f
    ensures Unblocked(s, f) ==> Unblocked(s, g)
  {
    if Unblocked(s, f) {
      forall t | t in s.forcing && t < |s.w.thunks| ensures !Timely(Semantics.Force(g, ByDispl, s.w.thunks[t])) {
        if Timely(Semantics.Force(g, ByDispl, s.w.thunks[t])) { ForceMono(g, f, ByDispl, s.w.thunks[t]); }
      }
    }
  }

  lemma UnblockedLater(a: Snapshot, b: Snapshot, f: nat)
    requires Later(a, b) && StackOk(a.thunks, a.forcing) && |a.thunks| == |a.w.thunks|
    ensures Unblocked(a, f) ==> Unblocked(b, f)
  {
  }

  /** The machine, run with `fuel`, gives the outcome `n` that call by name gives with
      fuel `f`; it runs out of fuel only if `f` is larger than `fuel`. */
  ghost predicate Agrees<T, U>(r: Result<T>, n: Result<U>, f: nat, fuel: nat) {
    if r == Err(Timeout) then f > fuel
    else (r.Ok? <==> n.Ok?) && (r.Err? ==> n == Err(r.error))
  }

  /** Where the machine's walk along an attribute path ends. */
  datatype MReached = MThere(v: MValue) | MNotThere(isSet: bool)

  function Reaches(p: MReached, c: Closure): Reached {
    if p.MThere? then There(c) else NotThere(p.isSet)
  }

  ghost predicate AgreesOn(r: Result<MReached>, c: Closure, n: Result<Reached>, f: nat, fuel: nat) {
    Agrees(r, n, f, fuel) && (r.Ok? ==> n == Ok(Reaches(r.value, c)))
  }

  ghost predicate AgreesOnSet(r: Result<map<Symbol, MValue>>, n: map<Symbol, Closure>, v: Result<Value>, f: nat,
                              fuel: nat)
  {
    if r == Err(Timeout) then f > fuel
    else if r.Ok? then v == Ok(VAttrs(n))
    else v == Err(r.error) || (r.error == TypeErr && v.Ok? && !v.value.VAttrs?)
  }

  // --- the heap updates ---

  lemma AllocEnvOk(cells: seq<EnvCell>, s: Snapshot, up: nat, rho: Env, values: seq<MValue>)
    requires HeapOk(cells, s) && up < |cells| && rho.Cons? && rho.up == s.w.envs[up]
    requires |values| == SlotCount(rho) && forall i :: 0 <= i < |values| ==> values[i] == Invalid
    ensures HeapOk(cells + [EnvCell(Some(up), values)], s.(w := World(s.w.envs + [rho], s.w.thunks)))
    ensures Later(s, s.(w := World(s.w.envs + [rho], s.w.thunks)))
  {
    var w' := World(s.w.envs + [rho], s.w.thunks);
    var cells' := cells + [EnvCell(Some(up), values)];
    forall a | 0 <= a < |cells'|
      ensures UpOk(w', cells'[a].up, w'.envs[a], a) && SlotsOk(w', cells'[a].values, w'.envs[a])
    {
      if a < |cells| { EnvsMono(s.w, w', cells, a); }
    }
    ThunksMono(s.w, w', s.thunks);
  }

  lemma SetSlotOk(cells: seq<EnvCell>, s: Snapshot, a: nat, i: nat, v: MValue)
    requires HeapOk(cells, s) && a < |cells| && i < |cells[a].values| && Stands(s.w, v, Slot(s.w.envs[a], i))
    ensures HeapOk(cells[a := EnvCell(cells[a].up, cells[a].values[i := v])], s)
  {
  }

  lemma AllocThunkOk(cells: seq<EnvCell>, s: Snapshot, a: nat, e: Expr)
    requires HeapOk(cells, s) && a < |cells|
    ensures
      var w' := World(s.w.envs, s.w.thunks + [Closure(s.w.envs[a], e)]);
      var s' := Snapshot(w', s.thunks + [Pending(a, e)], s.forcing);
      HeapOk(cells, s') && Later(s, s')
  {
    var c := Closure(s.w.envs[a], e);
    var w' := World(s.w.envs, s.w.thunks + [c]);
    var thunks' := s.thunks + [Pending(a, e)];
    assert Extends(s.w, w');
    forall b | 0 <= b < |cells|
      ensures UpOk(w', cells[b].up, w'.envs[b], b) && SlotsOk(w', cells[b].values, w'.envs[b])
    {
      EnvsMono(s.w, w', cells, b);
    }
    forall t | 0 <= t < |thunks'| ensures ThunkOk(w', thunks'[t], w'.thunks[t]) {
      if t < |s.thunks| { ThunkMono(s.w, w', s.thunks[t], s.w.thunks[t]); }
    }
  }

  lemma EnterOk(cells: seq<EnvCell>, s: Snapshot, t: nat)
    requires HeapOk(cells, s) && t < |s.thunks| && s.thunks[t].Pending?
    ensures HeapOk(cells, Snapshot(s.w, s.thunks[t := BlackHole], s.forcing + [t]))
  {
  }

  lemma LeaveOk(cells: seq<EnvCell>, s: Snapshot, t: nat, th: Thunk)
    requires HeapOk(cells, s) && t < |s.thunks| && |s.forcing| > 0 && s.forcing[|s.forcing| - 1] == t
    requires t !in s.forcing[..|s.forcing| - 1]
    requires !th.BlackHole? && ThunkOk(s.w, th, s.w.thunks[t])
    ensures HeapOk(cells, Snapshot(s.w, s.thunks[t := th], s.forcing[..|s.forcing| - 1]))
  {
    var f := s.forcing[..|s.forcing| - 1];
    assert s.forcing == f + [t];
    assert forall u :: u in s.forcing <==> u in f || u == t;
  }

  lemma ForceLater(s0: Snapshot, s1: Snapshot, t: nat, th: Thunk)
    requires t < |s0.thunks| && s0.thunks[t].Pending? && ThunkEvolves(s0.thunks[t], th)
    requires Later(Snapshot(s0.w, s0.thunks[t := BlackHole], s0.forcing + [t]), s1)
    ensures Later(s0, Snapshot(s1.w, s1.thunks[t := th], s1.forcing[..|s1.forcing| - 1]))
  {
    var b := s0.thunks[t := BlackHole];
    forall u | 0 <= u < |s0.thunks| ensures ThunkEvolves(s0.thunks[u], s1.thunks[t := th][u]) {
      assert ThunkEvolves(b[u], s1.thunks[u]);
    }
  }

  /** The environment of a program's free names. */
  function BaseEnv(base: seq<(Symbol, Literal)>): Env {
    Cons(ArgFrame(BaseSlots(base)), Nil)
  }

  function BaseSlots(base: seq<(Symbol, Literal)>): (slots: seq<ArgSlot>)
    ensures |slots| == |base|
    ensures forall i :: 0 <= i < |base| ==> slots[i] == Given(base[i].0, Closure(Nil, Lit(base[i].1)))
  {
    seq(|base|, i requires 0 <= i < |base| => Given(base[i].0, Closure(Nil, Lit(base[i].1))))
  }

  class Evaluator {
    var cells: seq<EnvCell>
    var thunks: seq<Thunk>
    ghost var w: World
    ghost var forcing: seq<nat>

    ghost function Now(): Snapshot
      reads this
    {
      Snapshot(w, thunks, forcing)
    }

    ghost predicate Valid()
      reads this
    {
      HeapOk(cells, Now())
    }

    /** A heap with the base environment, which binds names to constants. */
    constructor (base: seq<(Symbol, Literal)>)
      ensures Valid() && Complete(cells, {}) && forcing == [] && thunks == []
      ensures |cells| == 2 && w.envs == [Nil, BaseEnv(base)]
    {
      cells := [EnvCell(None, []), EnvCell(Some(0), seq(|base|, i requires 0 <= i < |base| => MLit(base[i].1)))];
      thunks, w, forcing := [], World([Nil, BaseEnv(base)], []), [];
      new;
      forall i | 0 <= i < |base| ensures Stands(w, cells[1].values[i], Slot(w.envs[1], i)) {
        LitRule(Nil, base[i].1);
      }
    }

    method AllocEnv(up: nat, n: nat, ghost rho: Env) returns (b: nat)
      requires Valid() && up < |cells| && rho.Cons? && rho.up == w.envs[up] && SlotCount(rho) == n
      modifies this
      ensures Valid() && Later(old(Now()), Now())
      ensures b == |old(cells)| && cells == old(cells) + [EnvCell(Some(up), seq(n, _ => Invalid))]
      ensures thunks == old(thunks) && w == World(old(w).envs + [rho], old(w).thunks)
    {
      AllocEnvOk(cells, Now(), up, rho, seq(n, _ => Invalid));
      b := |cells|;
      cells := cells + [EnvCell(Some(up), seq(n, _ => Invalid))];
      w := World(w.envs + [rho], w.thunks);
    }

    method SetSlot(a: nat, i: nat, v: MValue)
      requires Valid() && a < |cells| && i < |cells[a].values| && Stands(w, v, Slot(w.envs[a], i))
      modifies this`cells
      ensures Valid() && cells == old(cells)[a := EnvCell(old(cells)[a].up, old(cells)[a].values[i := v])]
    {
      SetSlotOk(cells, Now(), a, i, v);
      cells := cells[a := EnvCell(cells[a].up, cells[a].values[i := v])];
    }

    method MakeThunk(a: nat, e: Expr) returns (v: MValue)
      requires Valid() && a < |cells|
      modifies this`thunks, this`w
      ensures Valid() && Later(old(Now()), Now()) && w.envs == old(w).envs
      ensures v == MThunk(|old(thunks)|) && thunks == old(thunks) + [Pending(a, e)]
      ensures Stands(w, v, Closure(w.envs[a], e))
    {
      AllocThunkOk(cells, Now(), a, e);
      v := MThunk(|thunks|);
      thunks := thunks + [Pending(a, e)];
      w := World(w.envs, w.thunks + [Closure(w.envs[a], e)]);
    }

    /** The first loop of `lookupVar`. */
    method UpEnv(a: nat, level: nat) returns (b: Option<nat>)
      requires Valid() && a < |cells|
      ensures b.Some? ==> b.value < |cells| && UpN(w.envs[a], level) == Some(w.envs[b.value])
      ensures b.None? ==> UpN(w.envs[a], level) == None
    {
      var env: nat, l: nat := a, level;
      while l > 0
        invariant env < |cells| && UpN(w.envs[env], l) == UpN(w.envs[a], level)
      {
        assert UpOk(w, cells[env].up, w.envs[env], env);
        if cells[env].up.None? { return None; }
        env, l := cells[env].up.value, l - 1;
      }
      return Some(env);
    }

    /** Suspends `e`, unless its value can be had without evaluating anything. */
    method MaybeThunk(a: nat, e: Expr) returns (v: MValue)
      requires Valid() && a < |cells|
      modifies this`thunks, this`w
      ensures Valid() && Later(old(Now()), Now()) && w.envs == old(w).envs
      ensures Stands(w, v, Closure(w.envs[a], e))
    {
      match e {
        case Lit(l) =>
          LitRule(w.envs[a], l);
          return MLit(l);
        case List(es) =>
          if es == [] {
            ListRule(w.envs[a], es);
            return MList([]);
          }
        case Var(x, ref) =>
          if ref.Lexical? {
            var b := UpEnv(a, ref.level);
            if b.Some? && ref.displ < |cells[b.value].values| {
              var slot := cells[b.value].values[ref.displ];
              if slot != Invalid {
                CopiedSlot(a, x, ref, b.value);
                return slot;
              }
            }
          }
        case _ =>
      }
      v := MakeThunk(a, e);
    }

    /** A variable may share the content of its slot. */
    lemma CopiedSlot(a: nat, x: Symbol, ref: VarRef, b: nat)
      requires Valid() && a < |cells| && b < |cells| && ref.Lexical?
      requires UpN(w.envs[a], ref.level) == Some(w.envs[b])
      requires ref.displ < |cells[b].values| && cells[b].values[ref.displ] != Invalid
      ensures Stands(w, cells[b].values[ref.displ], Closure(w.envs[a], Var(x, ref)))
    {
      var slot, c := cells[b].values[ref.displ], Slot(w.envs[b], ref.displ);
      assert SlotsOk(w, cells[b].values, w.envs[b]);
      LexicalRule(w.envs[a], x, ref.level, ref.displ);
      if Den(c).Some? { VarRule(w.envs[a], x, ref, c); }
      if slot.MThunk? {
        var d, cv := w.thunks[slot.id], Closure(w.envs[a], Var(x, ref));
        forall f: nat | Timely(Semantics.Force(f, ByDispl, cv))
          ensures Semantics.Force(f, ByDispl, d) == Semantics.Force(f, ByDispl, cv)
        {
          LexicalEval(f, w.envs[a], x, ref);
          ForceMono(f - 1, f, ByDispl, c);
        }
        forall err | Fails(d, err)
          ensures Fails(cv, err)
        {
          LexicalFails(w.envs[a], x, ref, err);
        }
      }
    }

    // --- forcing ---

    /** `forceValue`. A black hole always fails; a thunk whose evaluation fails gets its
        environment and expression back; a thunk whose evaluation succeeds keeps the result. */
    method Force(fuel: nat, v: MValue, ghost c: Closure, ghost f: nat) returns (r: Result<MValue>)
      requires Valid() && Complete(cells, {}) && Stands(w, v, c)
      modifies this
      ensures Valid() && Complete(cells, {}) && Later(old(Now()), Now())
      ensures r.Ok? ==> Whnf(r.value) && Stands(w, r.value, c)
      ensures r.Err? && Genuine(r.error) ==> Fails(c, r.error)
      ensures Unblocked(old(Now()), f) && Timely(Semantics.Force(f, ByDispl, c)) ==>
              Agrees(r, Semantics.Force(f, ByDispl, c), f, fuel)
      ensures v.MThunk? && old(thunks)[v.id].BlackHole? ==> r == Err(InfiniteRecursion)
      ensures v.MThunk? && r.Err? ==> thunks[v.id] == old(thunks)[v.id]
      ensures v.MThunk? && r.Ok? ==> thunks[v.id] == Resolved(r.value)
      decreases fuel, 1, 0
    {
      ghost var goal := Unblocked(Now(), f) && Timely(Semantics.Force(f, ByDispl, c));
      if !v.MThunk? {
        if goal { TimelyDen(f, c); }
        return Ok(v);
      }
      var t := v.id;
      match thunks[t] {
        case Resolved(u) =>
          assert ThunkOk(w, thunks[t], w.thunks[t]);
          if goal { TimelyDen(f, c); }
          return Ok(u);
        case BlackHole =>
          return Err(InfiniteRecursion);
        case Pending(_, _) => r := ForceThunk(fuel, t, f);
      }
    }

    /** Evaluates a suspended computation, black-holed while that lasts. */
    method ForceThunk(fuel: nat, t: nat, ghost f: nat) returns (r: Result<MValue>)
      requires Valid() && Complete(cells, {}) && t < |thunks| && thunks[t].Pending?
      modifies this
      ensures Valid() && Complete(cells, {}) && Later(old(Now()), Now())
      ensures r.Ok? ==> Whnf(r.value) && Stands(w, r.value, w.thunks[t])
      ensures r.Err? && Genuine(r.error) ==> Fails(w.thunks[t], r.error)
      ensures Unblocked(old(Now()), f) && Timely(Semantics.Force(f, ByDispl, old(w).thunks[t])) ==>
              Agrees(r, Semantics.Force(f, ByDispl, old(w).thunks[t]), f, fuel)
      ensures thunks[t] == if r.Ok? then Resolved(r.value) else old(thunks)[t]
      decreases fuel, 0, 1
    {
      ghost var s0, d := Now(), w.thunks[t];
      ghost var goal := Unblocked(s0, f) && Timely(Semantics.Force(f, ByDispl, d));
      var th := thunks[t];
      assert ThunkOk(w, th, d);
      EnterOk(cells, s0, t);
      thunks, forcing := thunks[t := BlackHole], forcing + [t];
      ghost var k := if goal then Least(f, d) else 0;
      if goal { EnterUnblocked(s0, t, f, k); }
      r := Evaluate(fuel, th.env, th.e, k);
      ghost var s1 := Now();
      assert s1.forcing[..|s1.forcing| - 1] == s0.forcing;
      if r.Ok? { th := Resolved(r.value); }
      ForceLater(s0, s1, t, th);
      LeaveOk(cells, s1, t, th);
      thunks, forcing := thunks[t := th], forcing[..|forcing| - 1];
      if goal { ForceMono(k, f, ByDispl, d); }
    }

    /** Forces a slot and writes the result back into it. */
    method ForceSlot(fuel: nat, a: nat, i: nat, ghost f: nat) returns (r: Result<MValue>)
      requires Valid() && Complete(cells, {}) && a < |cells| && i < |cells[a].values|
      modifies this
      ensures Valid() && Complete(cells, {}) && Later(old(Now()), Now())
      ensures i < SlotCount(old(w).envs[a])
      ensures r.Ok? ==> Whnf(r.value) && Stands(w, r.value, Slot(w.envs[a], i))
      ensures r.Err? && Genuine(r.error) ==> Fails(Slot(w.envs[a], i), r.error)
      ensures Unblocked(old(Now()), f) && Timely(Semantics.Force(f, ByDispl, Slot(old(w).envs[a], i))) ==>
              Agrees(r, Semantics.Force(f, ByDispl, Slot(old(w).envs[a], i)), f, fuel)
      decreases fuel, 2, 0
    {
      assert SlotsOk(w, cells[a].values, w.envs[a]);
      ghost var c := Slot(w.envs[a], i);
      r := Force(fuel, cells[a].values[i], c, f);
      if r.Ok? {
        assert SlotsOk(w, cells[a].values, w.envs[a]);
        SetSlot(a, i, r.value);
      }
    }

    // --- evaluation ---

    /** Evaluates `e`. A result stands for the value that call by name gives. Whenever
        call by name gives a value or an error, so does the machine, with enough fuel. */
    method Evaluate(fuel: nat, a: nat, e: Expr, ghost f: nat) returns (r: Result<MValue>)
      requires Valid() && Complete(cells, {}) && a < |cells|
      modifies this
      ensures Valid() && Complete(cells, {}) && Later(old(Now()), Now())
      ensures r.Ok? ==> Whnf(r.value) && Stands(w, r.value, Closure(w.envs[a], e))
      ensures r.Err? && Genuine(r.error) ==> Fails(Closure(w.envs[a], e), r.error)
      ensures Unblocked(old(Now()), Pred(f)) && Timely(Eval(f, ByDispl, old(w).envs[a], e)) ==>
              Agrees(r, Eval(f, ByDispl, old(w).envs[a], e), f, fuel)
      decreases fuel, 0, 0
    {
      if fuel == 0 { return Err(Timeout); }
      match e {
        case Lit(l) =>
          LitRule(w.envs[a], l);
          return Ok(MLit(l));
        case Lambda(pat, body) =>
          LambdaRule(w.envs[a], pat, body);
          return Ok(MLambda(a, pat, body));
        case List(es) =>
          ListRule(w.envs[a], es);
          var vs := SuspendAll(a, es);
          return Ok(MList(vs));
        case Var(_, _) => r := EvalVar(fuel, a, e, f);
        case InheritFrom(_) => r := EvalInheritFrom(fuel, a, e, f);
        case Select(_, _, _) => r := EvalSelect(fuel, a, e, f);
        case HasAttr(_, _) => r := EvalHasAttr(fuel, a, e, f);
        case Set(_, _, _, _) => r := EvalSet(fuel, a, e, f);
        case Call(_, _) => r := EvalCall(fuel, a, e, f);
        case Let(_, _, _) => r := EvalLet(fuel, a, e, f);
        case With(_, _, _) => r := EvalWith(fuel, a, e, f);
        case If(_, _, _) => r := EvalIf(fuel, a, e, f);
        case Update(_, _) => r := EvalUpdate(fuel, a, e, f);
      }
    }

    method SuspendAll(a: nat, es: seq<Expr>) returns (vs: seq<MValue>)
      requires Valid() && a < |cells|
      modifies this`thunks, this`w
      ensures Valid() && Later(old(Now()), Now()) && w.envs == old(w).envs
      ensures SeqStands(w, vs, Closures(w.envs[a], es))
    {
      ghost var s0 := Now();
      vs := [];
      for i := 0 to |es|
        invariant Valid() && Later(s0, Now()) && w.envs == s0.w.envs
        invariant SeqStands(w, vs, Closures(w.envs[a], es[..i]))
      {
        ghost var s1 := Now();
        var v := MaybeThunk(a, es[i]);
        LaterTrans(s0, s1, Now());
        SeqMono(s1.w, w, vs, Closures(w.envs[a], es[..i]));
        assert Closures(w.envs[a], es[..i + 1]) == Closures(w.envs[a], es[..i]) + [Closure(w.envs[a], es[i])];
        vs := vs + [v];
      }
      assert es[..|es|] == es;
    }

    method EvalVar(fuel: nat, a: nat, e: Expr, ghost f: nat) returns (r: Result<MValue>)
      requires Valid() && Complete(cells, {}) && a < |cells| && fuel > 0 && e.Var?
      modifies this
      ensures Valid() && Complete(cells, {}) && Later(old(Now()), Now())
      ensures r.Ok? ==> Whnf(r.value) && Stands(w, r.value, Closure(w.envs[a], e))
      ensures r.Err? && Genuine(r.error) ==> Fails(Closure(w.envs[a], e), r.error)
      ensures Unblocked(old(Now()), Pred(f)) && Timely(Eval(f, ByDispl, old(w).envs[a], e)) ==>
              Agrees(r, Eval(f, ByDispl, old(w).envs[a], e), f, fuel)
      decreases fuel - 1, 4, 0
    {
      match e.ref {
        case Unresolved =>
          UnresolvedFails(w.envs[a], e.name);
          return Err(UndefinedVar);
        case Lexical(_, _) => r := EvalLexical(fuel, a, e, f);
        case FromWith(_, _) => r := EvalFromWith(fuel, a, e, f);
      }
    }

    method EvalFromWith(fuel: nat, a: nat, e: Expr, ghost f: nat) returns (r: Result<MValue>)
      requires Valid() && Complete(cells, {}) && a < |cells| && fuel > 0 && e.Var? && e.ref.FromWith?
      modifies this
      ensures Valid() && Complete(cells, {}) && Later(old(Now()), Now())
      ensures r.Ok? ==> Whnf(r.value) && Stands(w, r.value, Closure(w.envs[a], e))
      ensures r.Err? && Genuine(r.error) ==> Fails(Closure(w.envs[a], e), r.error)
      ensures Unblocked(old(Now()), Pred(f)) && Timely(Eval(f, ByDispl, old(w).envs[a], e)) ==>
              Agrees(r, Eval(f, ByDispl, old(w).envs[a], e), f, fuel)
      decreases fuel - 1, 3, 1
    {
      ghost var s0, g := Now(), Pred(f);
      var b := UpEnv(a, e.ref.level);
      if b.None? {
        NoFrameFails(w.envs[a], e.name, e.ref);
        return Err(Internal);
      }
      if f > 0 { FromWithEval(f, w.envs[a], e.name, e.ref); }
      ghost var c;
      r, c := LookupWith(fuel - 1, b.value, e.ref.fromWith, e.name, g);
      if r.Err? {
        if Genuine(r.error) { FromWithFails(w.envs[a], e.name, e.ref, r.error); }
        return r;
      }
      ghost var s1 := Now();
      UnblockedLater(s0, s1, g);
      r := Force(fuel - 1, r.value, c, g);
      LaterTrans(s0, s1, Now());
      if r.Ok? {
        FromWithRule(w.envs[a], e.name, e.ref.level, e.ref.fromWith);
        VarRule(w.envs[a], e.name, e.ref, c);
      } else if Genuine(r.error) {
        FoundFails(w.envs[a], e.name, e.ref, c, r.error);
      }
    }

    method EvalLexical(fuel: nat, a: nat, e: Expr, ghost f: nat) returns (r: Result<MValue>)
      requires Valid() && Complete(cells, {}) && a < |cells| && fuel > 0 && e.Var? && e.ref.Lexical?
      modifies this
      ensures Valid() && Complete(cells, {}) && Later(old(Now()), Now())
      ensures r.Ok? ==> Whnf(r.value) && Stands(w, r.value, Closure(w.envs[a], e))
      ensures r.Err? && Genuine(r.error) ==> Fails(Closure(w.envs[a], e), r.error)
      ensures Unblocked(old(Now()), Pred(f)) && Timely(Eval(f, ByDispl, old(w).envs[a], e)) ==>
              Agrees(r, Eval(f, ByDispl, old(w).envs[a], e), f, fuel)
      decreases fuel - 1, 3, 0
    {
      if f > 0 { LexicalEval(f, w.envs[a], e.name, e.ref); }
      var b := UpEnv(a, e.ref.level);
      if b.None? {
        LexicalFails(w.envs[a], e.name, e.ref, Internal);
        return Err(Internal);
      }
      assert SlotsOk(w, cells[b.value].values, w.envs[b.value]);
      if e.ref.displ >= |cells[b.value].values| {
        LexicalFails(w.envs[a], e.name, e.ref, Internal);
        return Err(Internal);
      }
      r := ForceSlot(fuel - 1, b.value, e.ref.displ, Pred(f));
      if r.Ok? {
        LexicalRule(w.envs[a], e.name, e.ref.level, e.ref.displ);
        VarRule(w.envs[a], e.name, e.ref, Slot(w.envs[b.value], e.ref.displ));
      } else if Genuine(r.error) {
        LexicalFails(w.envs[a], e.name, e.ref, r.error);
      }
    }

    /** The `with` loop of `lookupVar`. */
    method LookupWith(fuel: nat, b: nat, wr0: WithRef, x: Symbol, ghost f: nat)
      returns (r: Result<MValue>, ghost c: Closure)
      requires Valid() && Complete(cells, {}) && b < |cells|
      modifies this
      ensures Valid() && Complete(cells, {}) && Later(old(Now()), Now())
      ensures r.Ok? ==> Stands(w, r.value, c) && WithsDen(w.envs[b], wr0, x) == Some(c)
      ensures r.Err? && Genuine(r.error) ==> WithsFails(w.envs[b], wr0, x, r.error)
      ensures Unblocked(old(Now()), f) && Timely(WithsByChain(f, old(w).envs[b], wr0, x)) ==>
        && Agrees(r, WithsByChain(f, old(w).envs[b], wr0, x), f, fuel)
        && (r.Ok? ==> WithsByChain(f, old(w).envs[b], wr0, x) == Ok(c))
      decreases fuel, 3, 0
    {
      c := Done(VLit(LNull));
      var env, wr := b, wr0;
      ghost var s0 := Now();
      ghost var goal := Unblocked(s0, f) && Timely(WithsByChain(f, w.envs[b], wr0, x));
      while true
        invariant Valid() && Complete(cells, {}) && Later(s0, Now()) && b < |cells| && 0 <= env < |cells|
        invariant WithsTrack(w.envs[b], wr0, x, f, goal, w.envs[env], wr)
        decreases wr
      {
        hide WithsTrack;
        ghost var s1 := Now();
        UnblockedLater(s0, s1, f);
        ghost var n;
        var scope;
        scope, n := WithScope(fuel, env, wr, f);
        LaterTrans(s0, s1, Now());
        if scope.Err? {
          WithsStop(w.envs[b], wr0, x, f, goal, w.envs[env], wr, scope.error, fuel);
          return Err(scope.error), c;
        }
        var m := scope.value;
        if x in m {
          WithsFound(w.envs[b], wr0, x, f, goal, w.envs[env], wr, n);
          return Ok(m[x]), n[x];
        }
        if wr.parentWith == NoWith {
          WithsEnd(w.envs[b], wr0, x, f, goal, w.envs[env], wr, n, UndefinedVar);
          return Err(UndefinedVar), c;
        }
        var up := UpEnv(env, wr.prevWith);
        if up.None? {
          WithsEnd(w.envs[b], wr0, x, f, goal, w.envs[env], wr, n, Internal);
          return Err(Internal), c;
        }
        WithsGoOn(w.envs[b], wr0, x, f, goal, w.envs[env], wr, n);
        env, wr := up.value, wr.parentWith;
      }
    }

    /** The set of one `with`, forced. */
    method WithScope(fuel: nat, env: nat, wr: WithRef, ghost f: nat)
      returns (r: Result<map<Symbol, MValue>>, ghost n: map<Symbol, Closure>)
      requires Valid() && Complete(cells, {}) && env < |cells|
      modifies this
      ensures Valid() && Complete(cells, {}) && Later(old(Now()), Now())
      ensures r.Ok? ==>
        && wr != NoWith && SlotCount(w.envs[env]) > 0
        && Den(Slot(w.envs[env], 0)) == Some(VAttrs(n)) && MapStands(w, r.value, n)
      ensures r.Err? && Genuine(r.error) ==> BadScope(w.envs[env], wr, r.error)
      ensures Unblocked(old(Now()), f) ==> forall x :: Timely(WithsByChain(f, old(w).envs[env], wr, x)) ==>
        if r == Err(Timeout) then f > fuel
        else if r.Err? then WithsByChain(f, old(w).envs[env], wr, x) == Err(r.error)
        else Semantics.Force(f, ByDispl, Slot(old(w).envs[env], 0)) == Ok(VAttrs(n))
      decreases fuel, 2, 1
    {
      n := map[];
      assert SlotsOk(w, cells[env].values, w.envs[env]);
      if wr == NoWith || |cells[env].values| == 0 { return Err(Internal), n; }
      var scope := ForceSlot(fuel, env, 0, f);
      if scope.Err? { return Err(scope.error), n; }
      if Timely(Semantics.Force(f, ByDispl, Slot(w.envs[env], 0))) { TimelyDen(f, Slot(w.envs[env], 0)); }
      if !scope.value.MAttrs? { return Err(TypeErr), n; }
      n := Den(Slot(w.envs[env], 0)).value.attrs;
      return Ok(scope.value.attrs), n;
    }

    method EvalInheritFrom(fuel: nat, a: nat, e: Expr, ghost f: nat) returns (r: Result<MValue>)
      requires Valid() && Complete(cells, {}) && a < |cells| && fuel > 0 && e.InheritFrom?
      modifies this
      ensures Valid() && Complete(cells, {}) && Later(old(Now()), Now())
      ensures r.Ok? ==> Whnf(r.value) && Stands(w, r.value, Closure(w.envs[a], e))
      ensures r.Err? && Genuine(r.error) ==> Fails(Closure(w.envs[a], e), r.error)
      ensures Unblocked(old(Now()), Pred(f)) && Timely(Eval(f, ByDispl, old(w).envs[a], e)) ==>
              Agrees(r, Eval(f, ByDispl, old(w).envs[a], e), f, fuel)
      decreases fuel - 1, 4, 0
    {
      assert SlotsOk(w, cells[a].values, w.envs[a]);
      if e.displ >= |cells[a].values| {
        InheritFromFails(w.envs[a], e.displ, Internal);
        return Err(Internal);
      }
      r := ForceSlot(fuel - 1, a, e.displ, Pred(f));
      if r.Ok? { InheritFromRule(w.envs[a], e.displ); }
      else if Genuine(r.error) { InheritFromFails(w.envs[a], e.displ, r.error); }
    }

    method EvalSelect(fuel: nat, a: nat, e: Expr, ghost f: nat) returns (r: Result<MValue>)
      requires Valid() && Complete(cells, {}) && a < |cells| && fuel > 0 && e.Select?
      modifies this
      ensures Valid() && Complete(cells, {}) && Later(old(Now()), Now())
      ensures r.Ok? ==> Whnf(r.value) && Stands(w, r.value, Closure(w.envs[a], e))
      ensures r.Err? && Genuine(r.error) ==> Fails(Closure(w.envs[a], e), r.error)
      ensures Unblocked(old(Now()), Pred(f)) && Timely(Eval(f, ByDispl, old(w).envs[a], e)) ==>
              Agrees(r, Eval(f, ByDispl, old(w).envs[a], e), f, fuel)
      decreases fuel - 1, 4, 0
    {
      ghost var s0, g := Now(), Pred(f);
      UnblockedDown(s0, Pred(g), g);
      r := Evaluate(fuel - 1, a, e.e, g);
      if r.Err? {
        if Genuine(r.error) { FirstFails(w.envs[a], e.e, e, r.error); }
        return r;
      }
      ghost var s1 := Now();
      UnblockedLater(s0, s1, g);
      UnblockedLater(s0, s1, Pred(g));
      ghost var n := Den(Closure(w.envs[a], e.e)).value;
      EvalTimely(g, w.envs[a], e.e);
      DoneRule(n);
      ghost var c;
      var p;
      p, c := WalkPath(fuel - 1, a, true, e.path, r.value, Done(n), g);
      ghost var s2 := Now();
      LaterTrans(s0, s1, s2);
      if p.Err? {
        if Genuine(p.error) { SelectFails(w.envs[a], e.e, e.path, e.def, n, p.error); }
        return Err(p.error);
      }
      r := SelectEnd(fuel, a, e, n, p.value, c, s0, f);
    }

    /** The end of a selection: the value reached, or the default. */
    method SelectEnd(fuel: nat, a: nat, e: Expr, ghost n: Value, p: MReached, ghost c: Closure, ghost s0: Snapshot,
                     ghost f: nat)
      returns (r: Result<MValue>)
      requires Valid() && Complete(cells, {}) && a < |cells| && fuel > 0 && e.Select? && Later(s0, Now())
      requires StackOk(s0.thunks, s0.forcing) && |s0.thunks| == |s0.w.thunks|
      requires Den(Closure(w.envs[a], e.e)) == Some(n) && PathDen(w.envs[a], e.path, Done(n)) == Some(Reaches(p, c))
      requires p.MThere? ==> Stands(w, p.v, c)
      requires Unblocked(s0, Pred(f)) && Timely(Eval(f, ByDispl, w.envs[a], e)) ==>
        && f > 0 && Eval(f - 1, ByDispl, w.envs[a], e.e) == Ok(n)
        && Semantics.WalkPath(f - 1, ByDispl, w.envs[a], true, e.path, Done(n)) == Ok(Reaches(p, c))
      modifies this
      ensures Valid() && Complete(cells, {}) && Later(s0, Now()) && a < |cells|
      ensures r.Ok? ==> Whnf(r.value) && Stands(w, r.value, Closure(w.envs[a], e))
      ensures r.Err? && Genuine(r.error) ==> Fails(Closure(w.envs[a], e), r.error)
      ensures Unblocked(s0, Pred(f)) && Timely(Eval(f, ByDispl, w.envs[a], e)) ==>
              Agrees(r, Eval(f, ByDispl, w.envs[a], e), f, fuel)
      decreases fuel - 1, 3, 0
    {
      ghost var s1, g := Now(), Pred(f);
      UnblockedLater(s0, s1, g);
      UnblockedDown(s1, Pred(g), g);
      if p.MThere? {
        r := Force(fuel - 1, p.v, c, g);
        LaterTrans(s0, s1, Now());
        if r.Ok? { SelectRule(w.envs[a], e.e, e.path, e.def, n, c); }
        else if Genuine(r.error) { SelectFails(w.envs[a], e.e, e.path, e.def, n, r.error); }
      } else if e.def.Some? {
        r := Evaluate(fuel - 1, a, e.def.value, g);
        LaterTrans(s0, s1, Now());
        if r.Ok? { DefaultRule(w.envs[a], e.e, e.path, e.def.value, n); }
        else if Genuine(r.error) { SelectFails(w.envs[a], e.e, e.path, e.def, n, r.error); }
      } else {
        SelectFails(w.envs[a], e.e, e.path, e.def, n, if p.isSet then MissingAttr else TypeErr);
        return Err(if p.isSet then MissingAttr else TypeErr);
      }
    }

    /** The walk along an attribute path, of a selection or of `?`. */
    method WalkPath(fuel: nat, a: nat, nameFirst: bool, path: seq<AttrName>, v0: MValue, ghost c0: Closure,
                    ghost f: nat)
      returns (r: Result<MReached>, ghost c: Closure)
      requires Valid() && Complete(cells, {}) && a < |cells| && Stands(w, v0, c0)
      modifies this
      ensures Valid() && Complete(cells, {}) && Later(old(Now()), Now())
      ensures r.Ok? ==>
        PathDen(w.envs[a], path, c0) == Some(Reaches(r.value, c)) && (r.value.MThere? ==> Stands(w, r.value.v, c))
      ensures r.Err? && Genuine(r.error) ==> PathFails(w.envs[a], nameFirst, path, c0, r.error)
      ensures
        Unblocked(old(Now()), f) && Timely(Semantics.WalkPath(f, ByDispl, old(w).envs[a], nameFirst, path, c0)) ==>
          AgreesOn(r, c, Semantics.WalkPath(f, ByDispl, old(w).envs[a], nameFirst, path, c0), f, fuel)
      decreases fuel, 3, 0
    {
      ghost var s0 := Now();
      ghost var goal := Unblocked(s0, f) && Timely(Semantics.WalkPath(f, ByDispl, w.envs[a], nameFirst, path, c0));
      var v := v0;
      c := c0;
      assert path[0..] == path;
      for i := 0 to |path|
        invariant Valid() && Complete(cells, {}) && a < |cells| && Later(s0, Now()) && Stands(w, v, c)
        invariant PathTrack(w.envs[a], nameFirst, path, c0, f, goal, i, c)
      {
        hide PathTrack;
        ghost var s1, c1 := Now(), c;
        UnblockedLater(s0, s1, f);
        r, c := WalkOne(fuel, a, nameFirst, path[i], v, c1, f);
        LaterTrans(s0, s1, Now());
        if r.Err? {
          PathStops(w.envs[a], nameFirst, path, c0, f, goal, i, c1, r, c, fuel);
          return;
        }
        if r.value.MNotThere? {
          PathStops(w.envs[a], nameFirst, path, c0, f, goal, i, c1, r, c, fuel);
          return;
        }
        PathGoesOn(w.envs[a], nameFirst, path, c0, f, goal, i, c1, c);
        v := r.value.v;
      }
      assert path[|path|..] == [];
      return Ok(MThere(v)), c;
    }

    /** One component of an attribute path. */
    method WalkOne(fuel: nat, a: nat, nameFirst: bool, name: AttrName, v: MValue, ghost c: Closure, ghost f: nat)
      returns (r: Result<MReached>, ghost c': Closure)
      requires Valid() && Complete(cells, {}) && a < |cells| && Stands(w, v, c)
      modifies this
      ensures Valid() && Complete(cells, {}) && Later(old(Now()), Now())
      ensures r.Ok? ==>
        WalkOneDen(w.envs[a], name, c) == Some(Reaches(r.value, c')) && (r.value.MThere? ==> Stands(w, r.value.v, c'))
      ensures r.Err? && Genuine(r.error) ==> WalkOneFails(w.envs[a], nameFirst, name, c, r.error)
      ensures Unblocked(old(Now()), f) && Timely(Semantics.WalkOne(f, ByDispl, old(w).envs[a], nameFirst, name, c)) ==>
              AgreesOn(r, c', Semantics.WalkOne(f, ByDispl, old(w).envs[a], nameFirst, name, c), f, fuel)
      decreases fuel, 2, 0
    {
      hide HeapRelation.Stands, HeapRelation.UpOk, HeapRelation.SlotsOk, HeapRelation.ThunkOk, StackOk, Unblocked;
      hide Equations.NameDen;
      hide Failures.NameFails, Failures.Fails, Denotation.Den, Semantics.GetName;
      ghost var s0 := Now();
      c' := c;
      var x: Result<Symbol> := Ok("");
      if nameFirst {
        x := GetName(fuel, a, name, f);
        if x.Err? { return Err(x.error), c'; }
        StandsMono(s0.w, w, v, c);
        UnblockedLater(s0, Now(), f);
      }
      ghost var s1 := Now();
      var u := Force(fuel, v, c, f);
      ghost var s2 := Now();
      LaterTrans(s0, s1, s2);
      WalkOneTimely(f, w.envs[a], nameFirst, name, c);
      if u.Err? { return Err(u.error), c'; }
      WhnfDen(w, u.value, c);
      if !nameFirst {
        UnblockedLater(s0, s2, f);
        x := GetName(fuel, a, name, f);
        LaterTrans(s0, s2, Now());
        if x.Err? { return Err(x.error), c'; }
        StandsMono(s2.w, w, u.value, c);
      }
      WhnfDen(w, u.value, c);
      if u.value.MAttrs? && x.value in u.value.attrs {
        return Ok(MThere(u.value.attrs[x.value])), Den(c).value.attrs[x.value];
      }
      return Ok(MNotThere(u.value.MAttrs?)), c';
    }

    /** `getName`. */
    method GetName(fuel: nat, a: nat, name: AttrName, ghost f: nat) returns (r: Result<Symbol>)
      requires Valid() && Complete(cells, {}) && a < |cells|
      modifies this
      ensures Valid() && Complete(cells, {}) && Later(old(Now()), Now())
      ensures r.Ok? ==> NameDen(w.envs[a], name) == Some(r.value)
      ensures r.Err? && Genuine(r.error) ==> NameFails(w.envs[a], name, r.error)
      ensures Unblocked(old(Now()), f) && Timely(Semantics.GetName(f, ByDispl, old(w).envs[a], name)) ==>
              Agrees(r, Semantics.GetName(f, ByDispl, old(w).envs[a], name), f, fuel)
      decreases fuel, 1, 0
    {
      if name.StaticName? { return Ok(name.name); }
      UnblockedDown(Now(), Pred(f), f);
      var v := Evaluate(fuel, a, name.e, f);
      if v.Err? { return Err(v.error); }
      EvalTimely(f, w.envs[a], name.e);
      if !(v.value.MLit? && v.value.lit.LStr?) { return Err(TypeErr); }
      return Ok(v.value.lit.s);
    }

    method EvalHasAttr(fuel: nat, a: nat, e: Expr, ghost f: nat) returns (r: Result<MValue>)
      requires Valid() && Complete(cells, {}) && a < |cells| && fuel > 0 && e.HasAttr?
      modifies this
      ensures Valid() && Complete(cells, {}) && Later(old(Now()), Now())
      ensures r.Ok? ==> Whnf(r.value) && Stands(w, r.value, Closure(w.envs[a], e))
      ensures r.Err? && Genuine(r.error) ==> Fails(Closure(w.envs[a], e), r.error)
      ensures Unblocked(old(Now()), Pred(f)) && Timely(Eval(f, ByDispl, old(w).envs[a], e)) ==>
              Agrees(r, Eval(f, ByDispl, old(w).envs[a], e), f, fuel)
      decreases fuel - 1, 4, 0
    {
      ghost var s0, g := Now(), Pred(f);
      UnblockedDown(s0, Pred(g), g);
      r := Evaluate(fuel - 1, a, e.e, g);
      if r.Err? {
        if Genuine(r.error) { FirstFails(w.envs[a], e.e, e, r.error); }
        return r;
      }
      ghost var s1, n := Now(), Den(Closure(w.envs[a], e.e)).value;
      UnblockedLater(s0, s1, g);
      EvalTimely(g, w.envs[a], e.e);
      DoneRule(n);
      ghost var c;
      var p;
      p, c := WalkPath(fuel - 1, a, false, e.path, r.value, Done(n), g);
      LaterTrans(s0, s1, Now());
      if p.Err? {
        if Genuine(p.error) { HasAttrFails(w.envs[a], e.e, e.path, n, p.error); }
        return Err(p.error);
      }
      HasAttrRule(w.envs[a], e.e, e.path, n);
      return Ok(MLit(LBool(p.value.MThere?)));
    }

    method EvalIf(fuel: nat, a: nat, e: Expr, ghost f: nat) returns (r: Result<MValue>)
      requires Valid() && Complete(cells, {}) && a < |cells| && fuel > 0 && e.If?
      modifies this
      ensures Valid() && Complete(cells, {}) && Later(old(Now()), Now())
      ensures r.Ok? ==> Whnf(r.value) && Stands(w, r.value, Closure(w.envs[a], e))
      ensures r.Err? && Genuine(r.error) ==> Fails(Closure(w.envs[a], e), r.error)
      ensures Unblocked(old(Now()), Pred(f)) && Timely(Eval(f, ByDispl, old(w).envs[a], e)) ==>
              Agrees(r, Eval(f, ByDispl, old(w).envs[a], e), f, fuel)
      decreases fuel - 1, 4, 0
    {
      ghost var s0, g := Now(), Pred(f);
      UnblockedDown(s0, Pred(g), g);
      r := Evaluate(fuel - 1, a, e.cond, g);
      if r.Err? {
        if Genuine(r.error) { FirstFails(w.envs[a], e.cond, e, r.error); }
        return r;
      }
      EvalTimely(g, w.envs[a], e.cond);
      ghost var n := Den(Closure(w.envs[a], e.cond)).value;
      if !(r.value.MLit? && r.value.lit.LBool?) {
        IfFails(w.envs[a], e.cond, e.thn, e.els, n, TypeErr);
        return Err(TypeErr);
      }
      ghost var s1 := Now();
      UnblockedLater(s0, s1, Pred(g));
      var b := r.value.lit.b;
      r := Evaluate(fuel - 1, a, if b then e.thn else e.els, g);
      LaterTrans(s0, s1, Now());
      if r.Ok? { IfRule(w.envs[a], e.cond, e.thn, e.els, b); }
      else if Genuine(r.error) { IfFails(w.envs[a], e.cond, e.thn, e.els, n, r.error); }
    }

    method EvalUpdate(fuel: nat, a: nat, e: Expr, ghost f: nat) returns (r: Result<MValue>)
      requires Valid() && Complete(cells, {}) && a < |cells| && fuel > 0 && e.Update?
      modifies this
      ensures Valid() && Complete(cells, {}) && Later(old(Now()), Now())
      ensures r.Ok? ==> Whnf(r.value) && Stands(w, r.value, Closure(w.envs[a], e))
      ensures r.Err? && Genuine(r.error) ==> Fails(Closure(w.envs[a], e), r.error)
      ensures Unblocked(old(Now()), Pred(f)) && Timely(Eval(f, ByDispl, old(w).envs[a], e)) ==>
              Agrees(r, Eval(f, ByDispl, old(w).envs[a], e), f, fuel)
      decreases fuel - 1, 4, 0
    {
      hide HeapRelation.UpOk, HeapRelation.SlotsOk, HeapRelation.ThunkOk, HeapRelation.ThunksEvolve;
      hide HeapRelation.Stands, HeapRelation.MapStands, Denotation.Den, Failures.Fails, Failures.NotASet, StackOk;
      hide Unblocked;
      ghost var s0, g := Now(), Pred(f);
      UnblockedDown(s0, Pred(g), g);
      ghost var n1, n2;
      var m1, m2;
      m1, n1 := EvalToSet(fuel - 1, a, e.lhs, g);
      if m1.Err? {
        if Genuine(m1.error) { LeftFails(w.envs[a], e.lhs, e.rhs, m1.error); }
        return Err(m1.error);
      }
      ghost var s1 := Now();
      UnblockedLater(s0, s1, Pred(g));
      m2, n2 := EvalToSet(fuel - 1, a, e.rhs, g);
      LaterTrans(s0, s1, Now());
      if m2.Err? {
        if Genuine(m2.error) { UpdateFails(w.envs[a], e.lhs, e.rhs, VAttrs(n1), m2.error); }
        return Err(m2.error);
      }
      MapMono(s1.w, w, m1.value, n1);
      UpdateStands(w, w.envs[a], e.lhs, e.rhs, m1.value, n1, m2.value, n2);
      return Ok(MAttrs(m1.value + m2.value));
    }

    /** Evaluates an operand that must be a set. */
    method EvalToSet(fuel: nat, a: nat, e: Expr, ghost f: nat)
      returns (r: Result<map<Symbol, MValue>>, ghost n: map<Symbol, Closure>)
      requires Valid() && Complete(cells, {}) && a < |cells|
      modifies this
      ensures Valid() && Complete(cells, {}) && Later(old(Now()), Now())
      ensures r.Ok? ==> MapStands(w, r.value, n) && Den(Closure(w.envs[a], e)) == Some(VAttrs(n))
      ensures r.Err? && Genuine(r.error) ==> NotASet(w.envs[a], e, r.error)
      ensures Unblocked(old(Now()), Pred(f)) && Timely(Eval(f, ByDispl, old(w).envs[a], e)) ==>
        AgreesOnSet(r, n, Eval(f, ByDispl, old(w).envs[a], e), f, fuel)
      decreases fuel, 1, 0
    {
      n := map[];
      var v := Evaluate(fuel, a, e, f);
      if v.Err? { return Err(v.error), n; }
      EvalTimely(f, w.envs[a], e);
      if !v.value.MAttrs? { return Err(TypeErr), n; }
      return Ok(v.value.attrs), Den(Closure(w.envs[a], e)).value.attrs;
    }

    method EvalLet(fuel: nat, a: nat, e: Expr, ghost f: nat) returns (r: Result<MValue>)
      requires Valid() && Complete(cells, {}) && a < |cells| && fuel > 0 && e.Let?
      modifies this
      ensures Valid() && Complete(cells, {}) && Later(old(Now()), Now())
      ensures r.Ok? ==> Whnf(r.value) && Stands(w, r.value, Closure(w.envs[a], e))
      ensures r.Err? && Genuine(r.error) ==> Fails(Closure(w.envs[a], e), r.error)
      ensures Unblocked(old(Now()), Pred(f)) && Timely(Eval(f, ByDispl, old(w).envs[a], e)) ==>
              Agrees(r, Eval(f, ByDispl, old(w).envs[a], e), f, fuel)
      decreases fuel - 1, 4, 0
    {
      ghost var s0, g := Now(), Pred(f);
      UnblockedDown(s0, Pred(g), g);
      ghost var rho := Cons(RecFrame(e.attrs, e.froms), w.envs[a]);
      var b := AllocEnv(a, |e.attrs|, rho);
      ghost var s1 := Now();
      var _ := BuildAttrs(b, a, e.attrs, e.froms, true);
      ghost var s2 := Now();
      LaterTrans(s0, s1, s2);
      UnblockedLater(s0, s2, Pred(g));
      r := Evaluate(fuel - 1, b, e.body, g);
      LaterTrans(s0, s2, Now());
      if r.Ok? { LetRule(w.envs[a], e.attrs, e.froms, e.body); }
      else if Genuine(r.error) { LetFails(w.envs[a], e.attrs, e.froms, e.body, r.error); }
    }

    method EvalWith(fuel: nat, a: nat, e: Expr, ghost f: nat) returns (r: Result<MValue>)
      requires Valid() && Complete(cells, {}) && a < |cells| && fuel > 0 && e.With?
      modifies this
      ensures Valid() && Complete(cells, {}) && Later(old(Now()), Now())
      ensures r.Ok? ==> Whnf(r.value) && Stands(w, r.value, Closure(w.envs[a], e))
      ensures r.Err? && Genuine(r.error) ==> Fails(Closure(w.envs[a], e), r.error)
      ensures Unblocked(old(Now()), Pred(f)) && Timely(Eval(f, ByDispl, old(w).envs[a], e)) ==>
              Agrees(r, Eval(f, ByDispl, old(w).envs[a], e), f, fuel)
      decreases fuel - 1, 4, 0
    {
      hide HeapRelation.UpOk, HeapRelation.SlotsOk, HeapRelation.ThunkOk, HeapRelation.ThunksEvolve;
      ghost var s0, g := Now(), Pred(f);
      UnblockedDown(s0, Pred(g), g);
      ghost var rho := Cons(WithFrame(Closure(w.envs[a], e.scope)), w.envs[a]);
      var b := AllocEnv(a, 1, rho);
      ghost var s1 := Now();
      var v := MaybeThunk(a, e.scope);
      SetSlot(b, 0, v);
      ghost var s2 := Now();
      LaterTrans(s0, s1, s2);
      UnblockedLater(s0, s2, Pred(g));
      r := Evaluate(fuel - 1, b, e.body, g);
      LaterTrans(s0, s2, Now());
      if r.Ok? { WithRule(w.envs[a], e.scope, e.body, e.node); }
      else if Genuine(r.error) { WithBodyFails(w.envs[a], e.scope, e.body, e.node, r.error); }
    }

    method EvalCall(fuel: nat, a: nat, e: Expr, ghost f: nat) returns (r: Result<MValue>)
      requires Valid() && Complete(cells, {}) && a < |cells| && fuel > 0 && e.Call?
      modifies this
      ensures Valid() && Complete(cells, {}) && Later(old(Now()), Now())
      ensures r.Ok? ==> Whnf(r.value) && Stands(w, r.value, Closure(w.envs[a], e))
      ensures r.Err? && Genuine(r.error) ==> Fails(Closure(w.envs[a], e), r.error)
      ensures Unblocked(old(Now()), Pred(f)) && Timely(Eval(f, ByDispl, old(w).envs[a], e)) ==>
              Agrees(r, Eval(f, ByDispl, old(w).envs[a], e), f, fuel)
      decreases fuel - 1, 4, 0
    {
      ghost var s0, g := Now(), Pred(f);
      UnblockedDown(s0, Pred(g), g);
      r := Evaluate(fuel - 1, a, e.fun, g);
      if r.Err? {
        if Genuine(r.error) { FirstFails(w.envs[a], e.fun, e, r.error); }
        return r;
      }
      ghost var s1 := Now();
      EvalTimely(g, w.envs[a], e.fun);
      ghost var n := Den(Closure(w.envs[a], e.fun)).value;
      var vs := SuspendAll(a, e.args);
      ghost var s2 := Now();
      LaterTrans(s0, s1, s2);
      RepresentsMono(s1.w, s2.w, r.value, n);
      UnblockedLater(s0, s2, g);
      r := CallFunction(fuel - 1, r.value, vs, n, Closures(w.envs[a], e.args), g);
      LaterTrans(s0, s2, Now());
      if r.Ok? { CallRule(w.envs[a], e.fun, e.args, n); }
      else if Genuine(r.error) { CallFails(w.envs[a], e.fun, e.args, n, r.error); }
    }

    method EvalSet(fuel: nat, a: nat, e: Expr, ghost f: nat) returns (r: Result<MValue>)
      requires Valid() && Complete(cells, {}) && a < |cells| && fuel > 0 && e.Set?
      modifies this
      ensures Valid() && Complete(cells, {}) && Later(old(Now()), Now())
      ensures r.Ok? ==> Whnf(r.value) && Stands(w, r.value, Closure(w.envs[a], e))
      ensures r.Err? && Genuine(r.error) ==> Fails(Closure(w.envs[a], e), r.error)
      ensures Unblocked(old(Now()), Pred(f)) && Timely(Eval(f, ByDispl, old(w).envs[a], e)) ==>
              Agrees(r, Eval(f, ByDispl, old(w).envs[a], e), f, fuel)
      decreases fuel - 1, 4, 0
    {
      if e.recursive && IsOverriding(e.attrs) {
        SetFails(w.envs[a], e, Unsupported);
        return Err(Unsupported);
      }
      ghost var s0, g := Now(), Pred(f);
      UnblockedDown(s0, Pred(g), g);
      ghost var rho := InnerEnv(w.envs[a], e);
      var b := a;
      if e.recursive { b := AllocEnv(a, |e.attrs|, rho); }
      ghost var s1 := Now();
      var m := BuildAttrs(b, a, e.attrs, e.froms, e.recursive);
      ghost var s2 := Now();
      if e.recursive { LaterTrans(s0, s1, s2); }
      UnblockedLater(s0, s2, Pred(g));
      ghost var n := AttrMap(w.envs[b], w.envs[a], e.froms, e.attrs);
      r := AddDynamicAttrs(fuel - 1, b, e.dyns, m, n, g);
      LaterTrans(s0, s2, Now());
      if r.Ok? { SetRule(w.envs[a], e); }
      else if Genuine(r.error) { SetFails(w.envs[a], e, r.error); }
    }

    /** `buildInheritFromEnv`: the sources of `inherit (from)` in a frame of their own. */
    method BuildInheritFromEnv(up: nat, froms: seq<Expr>, ghost holes: set<nat>) returns (b: nat)
      requires Valid() && up < |cells| && Complete(cells, holes)
      requires forall a :: a in holes ==> a < |cells|
      modifies this
      ensures Valid() && Later(old(Now()), Now()) && Complete(cells, holes)
      ensures b == |old(cells)| && |cells| == b + 1 && cells[..b] == old(cells)
      ensures w.envs[b] == FromEnv(froms, w.envs[up])
    {
      ghost var s0, cells0 := Now(), cells;
      b := AllocEnv(up, |froms|, FromEnv(froms, w.envs[up]));
      for i := 0 to |froms|
        invariant Valid() && Later(s0, Now())
        invariant |cells| == b + 1 && cells[..b] == cells0 && |cells[b].values| == |froms|
        invariant w.envs[b] == FromEnv(froms, w.envs[up])
        invariant forall j :: 0 <= j < i ==> cells[b].values[j] != Invalid
      {
        ghost var s1 := Now();
        var v := MaybeThunk(up, froms[i]);
        LaterTrans(s0, s1, Now());
        SetSlot(b, i, v);
      }
      CompleteLast(cells0, cells, holes);
    }

    /** The static attributes of a set or `let`; fills the slots of the recursive frame
        `inner` if there is one. */
    method BuildAttrs(inner: nat, outer: nat, attrs: seq<AttrDef>, froms: seq<Expr>, fill: bool)
      returns (m: map<Symbol, MValue>)
      requires Valid() && inner < |cells| && outer < |cells|
      requires Complete(cells, if fill then {inner} else {})
      requires fill ==> w.envs[inner] == Cons(RecFrame(attrs, froms), w.envs[outer])
      modifies this
      ensures Valid() && Later(old(Now()), Now()) && Complete(cells, {})
      ensures MapStands(w, m, AttrMap(w.envs[inner], w.envs[outer], froms, attrs))
    {
      assert fill ==> SlotsOk(w, cells[inner].values, w.envs[inner]);
      ghost var s0 := Now();
      var f := BuildInheritFromEnv(inner, froms, if fill then {inner} else {});
      m := map[];
      assert attrs[..0] == [];
      assert Building(inner, outer, f, attrs, froms, fill, 0, m);
      hide Building;
      for i := 0 to |attrs|
        invariant Later(s0, Now()) && Building(inner, outer, f, attrs, froms, fill, i, m)
      {
        ghost var s1 := Now();
        m := BuildAttr(inner, outer, f, attrs, froms, fill, i, m);
        LaterTrans(s0, s1, Now());
      }
      BuildingDone(inner, outer, f, attrs, froms, fill, m);
    }

    /** The state after the first `i` attributes. */
    ghost predicate Building(inner: nat, outer: nat, f: nat, attrs: seq<AttrDef>, froms: seq<Expr>, fill: bool,
                             i: nat, m: map<Symbol, MValue>)
      reads this
    {
      && Valid() && Complete(cells, if fill then {inner} else {})
      && inner < |cells| && outer < |cells| && f < |cells| && w.envs[f] == FromEnv(froms, w.envs[inner])
      && i <= |attrs| && MapStands(w, m, AttrMap(w.envs[inner], w.envs[outer], froms, attrs[..i]))
      && (fill ==>
            && w.envs[inner] == Cons(RecFrame(attrs, froms), w.envs[outer])
            && |cells[inner].values| == |attrs|
            && forall j :: 0 <= j < i ==> cells[inner].values[j] != Invalid)
    }

    lemma BuildingDone(inner: nat, outer: nat, f: nat, attrs: seq<AttrDef>, froms: seq<Expr>, fill: bool,
                       m: map<Symbol, MValue>)
      requires Building(inner, outer, f, attrs, froms, fill, |attrs|, m)
      ensures Valid() && Complete(cells, {}) && inner < |w.envs| && outer < |w.envs|
      ensures MapStands(w, m, AttrMap(w.envs[inner], w.envs[outer], froms, attrs))
    {
      assert attrs[..|attrs|] == attrs;
    }

    method BuildAttr(inner: nat, outer: nat, f: nat, attrs: seq<AttrDef>, froms: seq<Expr>, fill: bool,
                     i: nat, m0: map<Symbol, MValue>)
      returns (m: map<Symbol, MValue>)
      requires Building(inner, outer, f, attrs, froms, fill, i, m0) && i < |attrs|
      modifies this
      ensures Later(old(Now()), Now()) && Building(inner, outer, f, attrs, froms, fill, i + 1, m)
    {
      hide HeapRelation.UpOk, HeapRelation.SlotsOk, HeapRelation.ThunkOk, HeapRelation.ThunksEvolve;
      hide HeapRelation.Stands, StackOk;
      hide Semantics.AttrMap, Semantics.AttrClosure;
      ghost var s1 := Now();
      var v := SuspendAttr(inner, outer, f, attrs, froms, i, fill);
      MapMono(s1.w, w, m0, AttrMap(w.envs[inner], w.envs[outer], froms, attrs[..i]));
      AttrMapSnoc(w.envs[inner], w.envs[outer], froms, attrs, i);
      m := m0[attrs[i].name := v];
    }

    /** One attribute definition, suspended in the environment its kind calls for. */
    method SuspendAttr(inner: nat, outer: nat, f: nat, attrs: seq<AttrDef>, froms: seq<Expr>, i: nat, fill: bool)
      returns (v: MValue)
      requires Valid() && inner < |cells| && outer < |cells| && f < |cells| && i < |attrs|
      requires w.envs[f] == FromEnv(froms, w.envs[inner])
      requires fill ==> w.envs[inner] == Cons(RecFrame(attrs, froms), w.envs[outer]) && |cells[inner].values| == |attrs|
      modifies this
      ensures Valid() && Later(old(Now()), Now()) && w.envs == old(w).envs && v != Invalid
      ensures Stands(w, v, AttrClosure(w.envs[inner], w.envs[outer], froms, attrs[i]))
      ensures cells ==
        if !fill then old(cells)
        else old(cells)[inner := EnvCell(old(cells)[inner].up, old(cells)[inner].values[i := v])]
    {
      v := MaybeThunk(ChooseByKind(attrs[i].kind, inner, outer, f), attrs[i].e);
      if fill { SetSlot(inner, i, v); }
    }

    /** Dynamic attributes, after the static ones; a null name adds nothing. */
    method AddDynamicAttrs(fuel: nat, b: nat, dyns: seq<DynamicDef>, m0: map<Symbol, MValue>,
                           ghost n0: map<Symbol, Closure>, ghost f: nat)
      returns (r: Result<MValue>)
      requires Valid() && Complete(cells, {}) && b < |cells| && MapStands(w, m0, n0)
      modifies this
      ensures Valid() && Complete(cells, {}) && Later(old(Now()), Now())
      ensures r.Ok? ==> r.value.MAttrs? && DynsDen(w.envs[b], dyns, n0).Some? &&
                        Represents(w, r.value, DynsDen(w.envs[b], dyns, n0).value)
      ensures r.Err? && Genuine(r.error) ==> DynsFails(w.envs[b], dyns, n0, r.error)
      ensures Unblocked(old(Now()), Pred(f)) && Timely(EvalDyns(f, ByDispl, old(w).envs[b], dyns, n0)) ==>
              Agrees(r, EvalDyns(f, ByDispl, old(w).envs[b], dyns, n0), f, fuel)
      decreases fuel, 1, |dyns|
    {
      ghost var s0 := Now();
      var m := m0;
      ghost var n := n0;
      ghost var goal := Unblocked(s0, Pred(f)) && Timely(EvalDyns(f, ByDispl, w.envs[b], dyns, n0));
      assert dyns[0..] == dyns;
      assert Adding(b, dyns, n0, f, goal, 0, m, n);
      hide Adding;
      for i := 0 to |dyns|
        invariant b < |cells| && Later(s0, Now()) && Adding(b, dyns, n0, f, goal, i, m, n)
      {
        var err;
        err, m, n := AddDynamicAttr(fuel, b, dyns, n0, f, goal, i, m, n, s0);
        if err.Some? { return Err(err.value); }
      }
      AddingDone(b, dyns, n0, f, goal, m, n);
      return Ok(MAttrs(m));
    }

    /** The state after the first `i` dynamic attributes. */
    ghost predicate Adding(b: nat, dyns: seq<DynamicDef>, n0: map<Symbol, Closure>, f: nat, goal: bool,
                           i: nat, m: map<Symbol, MValue>, n: map<Symbol, Closure>)
      reads this
    {
      && Valid() && Complete(cells, {}) && b < |cells| && MapStands(w, m, n) && i <= |dyns|
      && DynsTrack(w.envs[b], dyns, n0, f, goal, i, n)
    }

    lemma AddingDone(b: nat, dyns: seq<DynamicDef>, n0: map<Symbol, Closure>, f: nat, goal: bool,
                     m: map<Symbol, MValue>, n: map<Symbol, Closure>)
      requires Adding(b, dyns, n0, f, goal, |dyns|, m, n)
      ensures Valid() && Complete(cells, {}) && b < |w.envs|
      ensures DynsDen(w.envs[b], dyns, n0) == Some(VAttrs(n)) && Represents(w, MAttrs(m), VAttrs(n))
      ensures goal ==> EvalDyns(f, ByDispl, w.envs[b], dyns, n0).Ok?
    {
      assert dyns[|dyns|..] == [];
      DynsNilRule(w.envs[b], n);
    }

    method AddDynamicAttr(fuel: nat, b: nat, dyns: seq<DynamicDef>, ghost n0: map<Symbol, Closure>, ghost f: nat,
                          ghost goal: bool, i: nat, m: map<Symbol, MValue>, ghost n: map<Symbol, Closure>,
                          ghost s0: Snapshot)
      returns (err: Option<Error>, m': map<Symbol, MValue>, ghost n': map<Symbol, Closure>)
      requires Adding(b, dyns, n0, f, goal, i, m, n) && i < |dyns|
      requires Later(s0, Now()) && StackOk(s0.thunks, s0.forcing) && |s0.thunks| == |s0.w.thunks|
      requires goal ==> Unblocked(s0, Pred(f))
      modifies this
      ensures Valid() && Complete(cells, {}) && b < |cells| && Later(s0, Now())
      ensures err.None? ==> Adding(b, dyns, n0, f, goal, i + 1, m', n')
      ensures err.Some? && Genuine(err.value) ==> DynsFails(w.envs[b], dyns, n0, err.value)
      ensures err.Some? && goal ==>
        Agrees<MValue, Value>(Err(err.value), EvalDyns(f, ByDispl, w.envs[b], dyns, n0), f, fuel)
      decreases fuel, 1, 0
    {
      hide DynsTrack;
      ghost var s1 := Now();
      UnblockedLater(s0, s1, Pred(f));
      err, m', n' := None, m, n;
      var x := Evaluate(fuel, b, dyns[i].nameExpr, f);
      LaterTrans(s0, s1, Now());
      MapMono(s1.w, w, m, n);
      if x.Err? {
        DynsNameError(w.envs[b], dyns, n0, f, goal, i, n, x.error, fuel);
        return Some(x.error), m', n';
      }
      if x.value == MLit(LNull) {
        AddingOn(w.envs[b], dyns, n0, f, goal, i, n, n);
        return;
      }
      if !(x.value.MLit? && x.value.lit.LStr?) {
        DynsBadName(w.envs[b], dyns, n0, f, goal, i, n, TypeErr);
        return Some(TypeErr), m', n';
      }
      if x.value.lit.s in m {
        DynsBadName(w.envs[b], dyns, n0, f, goal, i, n, DuplicateAttr);
        return Some(DuplicateAttr), m', n';
      }
      n' := n[x.value.lit.s := Closure(w.envs[b], dyns[i].valueExpr)];
      AddingOn(w.envs[b], dyns, n0, f, goal, i, n, n');
      m' := AddEntry(b, dyns[i].valueExpr, x.value.lit.s, m, n, s0);
    }

    /** One more entry, suspended. */
    method AddEntry(b: nat, e: Expr, x: Symbol, m: map<Symbol, MValue>, ghost n: map<Symbol, Closure>,
                    ghost s0: Snapshot)
      returns (m': map<Symbol, MValue>)
      requires Valid() && b < |cells| && MapStands(w, m, n) && Later(s0, Now())
      modifies this`thunks, this`w
      ensures Valid() && Later(s0, Now()) && w.envs == old(w).envs
      ensures MapStands(w, m', n[x := Closure(w.envs[b], e)])
    {
      ghost var s2 := Now();
      var v := MaybeThunk(b, e);
      LaterTrans(s0, s2, Now());
      MapMono(s2.w, w, m, n);
      m' := m[x := v];
    }

    // --- calls ---

    /** The loop of `callFunction`. */
    method CallFunction(fuel: nat, fun: MValue, args: seq<MValue>, ghost nf: Value, ghost cs: seq<Closure>,
                        ghost f: nat)
      returns (r: Result<MValue>)
      requires Valid() && Complete(cells, {}) && Represents(w, fun, nf) && SeqStands(w, args, cs)
      modifies this
      ensures Valid() && Complete(cells, {}) && Later(old(Now()), Now())
      ensures r.Ok? ==> Whnf(r.value) && ApplyDen(nf, cs).Some? && Represents(w, r.value, ApplyDen(nf, cs).value)
      ensures r.Err? && Genuine(r.error) ==> ApplyFails(nf, cs, r.error)
      ensures Unblocked(old(Now()), f) && Timely(Apply(f, ByDispl, nf, cs)) ==>
              Agrees(r, Apply(f, ByDispl, nf, cs), f, fuel)
      decreases fuel, 0, 2
    {
      ghost var s0 := Now();
      var cur := fun;
      ghost var n := nf;
      ghost var goal := Unblocked(s0, f) && Timely(Apply(f, ByDispl, nf, cs));
      assert cs[0..] == cs;
      assert Calling(args, nf, cs, f, goal, 0, cur, n);
      hide Calling;
      for i := 0 to |args|
        invariant Later(s0, Now()) && Calling(args, nf, cs, f, goal, i, cur, n)
      {
        CallingOn(args, nf, cs, f, goal, i, cur, n);
        if fuel == 0 { return Err(Timeout); }
        r, n := CallOne(fuel, args, nf, cs, f, goal, i, cur, n, s0);
        if r.Err? { return r; }
        cur := r.value;
      }
      CallingDone(args, nf, cs, f, goal, cur, n);
      return Ok(cur);
    }

    /** The state after the first `i` arguments. */
    ghost predicate Calling(args: seq<MValue>, nf: Value, cs: seq<Closure>, f: nat, goal: bool, i: nat, cur: MValue,
                            n: Value)
      reads this
    {
      && Valid() && Complete(cells, {}) && Represents(w, cur, n) && SeqStands(w, args, cs) && i <= |cs|
      && CallsTrack(nf, cs, f, goal, i, n)
    }

    lemma CallingOn(args: seq<MValue>, nf: Value, cs: seq<Closure>, f: nat, goal: bool, i: nat, cur: MValue, n: Value)
      requires Calling(args, nf, cs, f, goal, i, cur, n) && i < |args|
      ensures Valid() && Complete(cells, {}) && (goal ==> f > 0)
    {
    }

    lemma CallingDone(args: seq<MValue>, nf: Value, cs: seq<Closure>, f: nat, goal: bool, cur: MValue, n: Value)
      requires Calling(args, nf, cs, f, goal, |args|, cur, n)
      ensures Valid() && Complete(cells, {}) && Whnf(cur)
      ensures ApplyDen(nf, cs) == Some(n) && Represents(w, cur, n)
      ensures goal ==> Apply(f, ByDispl, nf, cs).Ok?
    {
      assert cs[|args|..] == [];
      ApplyNilRule(n);
    }

    method CallOne(fuel: nat, args: seq<MValue>, ghost nf: Value, ghost cs: seq<Closure>, ghost f: nat,
                   ghost goal: bool, i: nat, cur: MValue, ghost n: Value, ghost s0: Snapshot)
      returns (r: Result<MValue>, ghost n': Value)
      requires Calling(args, nf, cs, f, goal, i, cur, n) && i < |args| && fuel > 0
      requires Later(s0, Now()) && StackOk(s0.thunks, s0.forcing) && |s0.thunks| == |s0.w.thunks|
      requires goal ==> Unblocked(s0, f)
      modifies this
      ensures Valid() && Complete(cells, {}) && Later(s0, Now())
      ensures r.Ok? ==> Calling(args, nf, cs, f, goal, i + 1, r.value, n')
      ensures r.Err? && Genuine(r.error) ==> ApplyFails(nf, cs, r.error)
      ensures r.Err? && goal ==> Agrees(r, Apply(f, ByDispl, nf, cs), f, fuel)
      decreases fuel, 0, 1
    {
      ghost var s1 := Now();
      ghost var g := if goal then f - i else 0;
      UnblockedLater(s0, s1, f);
      UnblockedDown(s1, Pred(g), f);
      hide CallsTrack, HeapRelation.UpOk, HeapRelation.SlotsOk, HeapRelation.ThunkOk, HeapRelation.ThunksEvolve;
      hide HeapRelation.Represents;
      r := ApplyOneArg(fuel, cur, args[i], n, cs[i], g);
      LaterTrans(s0, s1, Now());
      SeqMono(s1.w, w, args, cs);
      n' := n;
      if r.Ok? {
        n' := ApplyOneDen(n, cs[i]).value;
        CallGoesOn(nf, cs, f, goal, i, n, n');
      } else {
        CallStops(nf, cs, f, goal, i, n, r.error, fuel);
      }
    }

    method ApplyOneArg(fuel: nat, fun: MValue, arg: MValue, ghost n: Value, ghost c: Closure, ghost f: nat)
      returns (r: Result<MValue>)
      requires Valid() && Complete(cells, {}) && fuel > 0 && Represents(w, fun, n) && Stands(w, arg, c)
      modifies this
      ensures Valid() && Complete(cells, {}) && Later(old(Now()), Now())
      ensures r.Ok? ==> Whnf(r.value) && ApplyOneDen(n, c).Some? && Represents(w, r.value, ApplyOneDen(n, c).value)
      ensures r.Err? && Genuine(r.error) ==> ApplyOneFails(n, c, r.error)
      ensures f > 0 && Unblocked(old(Now()), Pred(f)) && Timely(ApplyOne(f, ByDispl, n, c)) ==>
              Agrees(r, ApplyOne(f, ByDispl, n, c), f, fuel)
      decreases fuel, 0, 0
    {
      match fun {
        case MLambda(a, pat, body) =>
          ghost var s0, g := Now(), Pred(f);
          UnblockedDown(s0, Pred(g), g);
          var b := MatchPattern(fuel - 1, a, pat, arg, c, g);
          if b.Err? {
            if Genuine(b.error) { ArgumentFails(w.envs[a], pat, body, c, b.error); }
            return Err(b.error);
          }
          ghost var s1 := Now();
          UnblockedLater(s0, s1, Pred(g));
          r := Evaluate(fuel - 1, b.value, body, g);
          LaterTrans(s0, s1, Now());
          if r.Ok? { BetaRule(w.envs[a], pat, body, c, w.envs[b.value]); }
          else if Genuine(r.error) { BodyFails(w.envs[a], pat, body, c, w.envs[b.value], r.error); }
        case MAttrs(m) =>
          if SYM_FUNCTOR !in m {
            NotAFunctionFails(n, c);
            return Err(NotAFunction);
          }
          r := CallFunctor(fuel, m, arg, n.attrs, c, f);
        case _ =>
          NotAFunctionFails(n, c);
          return Err(NotAFunction);
      }
    }

    method CallFunctor(fuel: nat, m: map<Symbol, MValue>, arg: MValue, ghost n: map<Symbol, Closure>, ghost c: Closure,
                       ghost f: nat)
      returns (r: Result<MValue>)
      requires Valid() && Complete(cells, {}) && fuel > 0 && MapStands(w, m, n) && Stands(w, arg, c) && SYM_FUNCTOR in m
      modifies this
      ensures Valid() && Complete(cells, {}) && Later(old(Now()), Now())
      ensures r.Ok? ==> Whnf(r.value) && ApplyOneDen(VAttrs(n), c).Some? &&
                        Represents(w, r.value, ApplyOneDen(VAttrs(n), c).value)
      ensures r.Err? && Genuine(r.error) ==> ApplyOneFails(VAttrs(n), c, r.error)
      ensures f > 0 && Unblocked(old(Now()), Pred(f)) && Timely(ApplyOne(f, ByDispl, VAttrs(n), c)) ==>
              Agrees(r, ApplyOne(f, ByDispl, VAttrs(n), c), f, fuel)
      decreases fuel - 1, 4, 0
    {
      ghost var s0, g := Now(), Pred(f);
      r := Force(fuel - 1, m[SYM_FUNCTOR], n[SYM_FUNCTOR], g);
      if r.Err? {
        if Genuine(r.error) { FunctorFails(n, c, r.error); }
        return r;
      }
      ghost var s1 := Now();
      UnblockedLater(s0, s1, g);
      ghost var fv := Den(n[SYM_FUNCTOR]).value;
      if Timely(Semantics.Force(g, ByDispl, n[SYM_FUNCTOR])) { TimelyDen(g, n[SYM_FUNCTOR]); }
      MapMono(s0.w, w, m, n);
      StandsMono(s0.w, w, arg, c);
      DoneRule(VAttrs(n));
      assert Stands(w, MAttrs(m), Done(VAttrs(n)));
      r := CallFunction(fuel - 1, r.value, [MAttrs(m), arg], fv, [Done(VAttrs(n)), c], g);
      LaterTrans(s0, s1, Now());
      if r.Ok? { FunctorRule(n, c, fv); }
      else if Genuine(r.error) { FunctorFails(n, c, r.error); }
    }

    /** `Pattern::match`: the environment in which the function body runs. */
    method MatchPattern(fuel: nat, a: nat, pat: Pattern, arg: MValue, ghost c: Closure, ghost f: nat)
      returns (r: Result<nat>)
      requires Valid() && Complete(cells, {}) && a < |cells| && Stands(w, arg, c)
      modifies this
      ensures Valid() && Complete(cells, {}) && Later(old(Now()), Now())
      ensures r.Ok? ==> r.value < |cells| && MatchDen(w.envs[a], pat, c) == Some(w.envs[r.value])
      ensures r.Err? && Genuine(r.error) ==> MatchFails(w.envs[a], pat, c, r.error)
      ensures Unblocked(old(Now()), f) && Timely(Semantics.MatchPattern(f, ByDispl, old(w).envs[a], pat, c)) ==>
              Agrees(r, Semantics.MatchPattern(f, ByDispl, old(w).envs[a], pat, c), f, fuel)
      ensures r.Ok? && Timely(Semantics.MatchPattern(f, ByDispl, old(w).envs[a], pat, c)) ==>
              Semantics.MatchPattern(f, ByDispl, old(w).envs[a], pat, c) == Ok(w.envs[r.value])
      decreases fuel, 2, 0
    {
      ghost var s0 := Now();
      match pat {
        case SimplePattern(x) =>
          SimpleMatchRule(w.envs[a], x, c);
          var b := AllocEnv(a, 1, Cons(ArgFrame([Given(x, c)]), w.envs[a]));
          StandsMono(s0.w, w, arg, c);
          SetSlot(b, 0, arg);
          return Ok(b);
        case AttrsPattern(_, _, _) => r := MatchAttrs(fuel, a, pat, arg, c, f);
      }
    }

    method MatchAttrs(fuel: nat, a: nat, pat: Pattern, arg: MValue, ghost c: Closure, ghost f: nat)
      returns (r: Result<nat>)
      requires Valid() && Complete(cells, {}) && a < |cells| && Stands(w, arg, c) && pat.AttrsPattern?
      modifies this
      ensures Valid() && Complete(cells, {}) && Later(old(Now()), Now())
      ensures r.Ok? ==> r.value < |cells| && MatchDen(w.envs[a], pat, c) == Some(w.envs[r.value])
      ensures r.Err? && Genuine(r.error) ==> MatchFails(w.envs[a], pat, c, r.error)
      ensures Unblocked(old(Now()), f) && Timely(Semantics.MatchPattern(f, ByDispl, old(w).envs[a], pat, c)) ==>
              Agrees(r, Semantics.MatchPattern(f, ByDispl, old(w).envs[a], pat, c), f, fuel)
      ensures r.Ok? && Timely(Semantics.MatchPattern(f, ByDispl, old(w).envs[a], pat, c)) ==>
              Semantics.MatchPattern(f, ByDispl, old(w).envs[a], pat, c) == Ok(w.envs[r.value])
      decreases fuel, 1, 1
    {
      ghost var s0 := Now();
      var v := Force(fuel, arg, c, f);
      if v.Err? {
        if Genuine(v.error) { AttrsMatchFails(w.envs[a], pat, c, v.error); }
        return Err(v.error);
      }
      if Timely(Semantics.Force(f, ByDispl, c)) { TimelyDen(f, c); }
      if !v.value.MAttrs? {
        AttrsMatchFails(w.envs[a], pat, c, TypeErr);
        return Err(TypeErr);
      }
      var m := v.value.attrs;
      ghost var n := Den(c).value.attrs;
      SameGiven(pat.formals, m, n);
      if !EveryFormalGiven(pat.formals, m) {
        AttrsMatchFails(w.envs[a], pat, c, MissingArg);
        return Err(MissingArg);
      }
      if !pat.ellipsis && !(m.Keys <= FormalNames(pat.formals)) {
        AttrsMatchFails(w.envs[a], pat, c, UnexpectedArg);
        return Err(UnexpectedArg);
      }
      AttrsMatchRule(w.envs[a], pat, c, n);
      ghost var s1 := Now();
      var b := FillArgs(a, pat, v.value, c, n);
      LaterTrans(s0, s1, Now());
      return Ok(b);
    }

    method FillArgs(a: nat, pat: Pattern, arg: MValue, ghost c: Closure, ghost n: map<Symbol, Closure>) returns (b: nat)
      requires Valid() && Complete(cells, {}) && a < |cells| && pat.AttrsPattern? && arg.MAttrs?
      requires Stands(w, arg, c) && MapStands(w, arg.attrs, n) && AllGiven(pat.formals, n)
      modifies this
      ensures Valid() && Complete(cells, {}) && Later(old(Now()), Now())
      ensures b < |cells| && w.envs[b] == Cons(ArgFrame(ArgSlots(pat.arg, pat.formals, c, n)), w.envs[a])
    {
      hide HeapRelation.UpOk, HeapRelation.SlotsOk, HeapRelation.ThunkOk, HeapRelation.ThunksEvolve;
      hide HeapRelation.Stands, StackOk;
      ghost var s0, cells0 := Now(), cells;
      ghost var slots := ArgSlots(pat.arg, pat.formals, c, n);
      ghost var rho := Cons(ArgFrame(slots), w.envs[a]);
      var displ := if pat.arg.Some? then 1 else 0;
      b := AllocEnv(a, |pat.formals| + displ, rho);
      if pat.arg.Some? {
        StandsMono(s0.w, w, arg, c);
        SetSlot(b, 0, arg);
      }
      MapMono(s0.w, w, arg.attrs, n);
      for i := 0 to |pat.formals|
        invariant Valid() && Later(s0, Now()) && MapStands(w, arg.attrs, n)
        invariant |cells| == b + 1 && cells[..b] == cells0 && w.envs[b] == rho
        invariant |cells[b].values| == |pat.formals| + displ
        invariant forall j :: 0 <= j < i + displ ==> cells[b].values[j] != Invalid
      {
        ghost var s1 := Now();
        FillFormal(b, displ + i, pat.formals[i], arg.attrs, n);
        LaterTrans(s0, s1, Now());
        MapMono(s1.w, w, arg.attrs, n);
      }
      CompleteLast(cells0, cells, {});
    }

    /** One iteration of `matchupLambdaAttrs` for a formal that is given or has a default. */
    method FillFormal(b: nat, k: nat, formal: Formal, m: map<Symbol, MValue>, ghost n: map<Symbol, Closure>)
      requires Valid() && b < |cells| && k < |cells[b].values| && MapStands(w, m, n) && !IsMissing(formal, n)
      requires w.envs[b].Cons? && w.envs[b].frame.ArgFrame? && k < |w.envs[b].frame.slots|
      requires w.envs[b].frame.slots[k] == FormalSlot(formal, n)
      modifies this
      ensures Valid() && Later(old(Now()), Now()) && w.envs == old(w).envs
      ensures cells[b].values[k] != Invalid
      ensures cells == old(cells)[b := EnvCell(old(cells)[b].up, old(cells)[b].values[k := cells[b].values[k]])]
    {
      if formal.name in m {
        SetSlot(b, k, m[formal.name]);
      } else {
        var v := MaybeThunk(b, formal.def.value);
        SetSlot(b, k, v);
      }
    }
  }

  /** The walk over `with` frames from `env` finds what the walk from `env0` finds: the same
      computation, the same errors, and the same at fuel `f`. */
  ghost predicate WithsTrack(env0: Env, wr0: WithRef, x: Symbol, f: nat, goal: bool, env: Env, wr: WithRef) {
    && (WithsDen(env, wr, x).Some? ==> WithsDen(env0, wr0, x) == WithsDen(env, wr, x))
    && (forall err :: WithsFails(env, wr, x, err) ==> WithsFails(env0, wr0, x, err))
    && (goal ==> Timely(WithsByChain(f, env0, wr0, x)) && WithsByChain(f, env0, wr0, x) == WithsByChain(f, env, wr, x))
  }

  lemma WithsStop(env0: Env, wr0: WithRef, x: Symbol, f: nat, goal: bool, env: Env, wr: WithRef, err: Error, fuel: nat)
    requires WithsTrack(env0, wr0, x, f, goal, env, wr) && (Genuine(err) ==> BadScope(env, wr, err))
    requires goal && Timely(WithsByChain(f, env, wr, x)) ==>
      if err == Timeout then f > fuel else WithsByChain(f, env, wr, x) == Err(err)
    ensures Genuine(err) ==> WithsFails(env0, wr0, x, err)
    ensures goal ==> Agrees<MValue, Closure>(Err(err), WithsByChain(f, env0, wr0, x), f, fuel)
  {
    if Genuine(err) { ScopeFails(env, wr, x, err); }
  }

  /** The set of a `with` frame, and what forcing it with fuel `f` gives. */
  ghost predicate IsScope(env: Env, wr: WithRef, x: Symbol, f: nat, goal: bool, n: map<Symbol, Closure>) {
    && wr != NoWith && SlotCount(env) > 0 && Den(Slot(env, 0)) == Some(VAttrs(n))
    && (goal && Timely(WithsByChain(f, env, wr, x)) ==> Force(f, ByDispl, Slot(env, 0)) == Ok(VAttrs(n)))
  }

  lemma WithsFound(env0: Env, wr0: WithRef, x: Symbol, f: nat, goal: bool, env: Env, wr: WithRef,
                   n: map<Symbol, Closure>)
    requires WithsTrack(env0, wr0, x, f, goal, env, wr) && IsScope(env, wr, x, f, goal, n) && x in n
    ensures WithsDen(env0, wr0, x) == Some(n[x])
    ensures goal ==> WithsByChain(f, env0, wr0, x) == Ok(n[x])
  {
    WithFoundRule(env, wr, x, n);
  }

  lemma WithsEnd(env0: Env, wr0: WithRef, x: Symbol, f: nat, goal: bool, env: Env, wr: WithRef,
                 n: map<Symbol, Closure>, err: Error)
    requires WithsTrack(env0, wr0, x, f, goal, env, wr) && IsScope(env, wr, x, f, goal, n) && x !in n
    requires if wr.parentWith == NoWith then err == UndefinedVar else UpN(env, wr.prevWith).None? && err == Internal
    ensures WithsFails(env0, wr0, x, err)
    ensures goal ==> WithsByChain(f, env0, wr0, x) == Err(err)
  {
    NextScopeFails(env, wr, x, n, err);
  }

  lemma WithsGoOn(env0: Env, wr0: WithRef, x: Symbol, f: nat, goal: bool, env: Env, wr: WithRef,
                  n: map<Symbol, Closure>)
    requires WithsTrack(env0, wr0, x, f, goal, env, wr) && IsScope(env, wr, x, f, goal, n) && x !in n
    requires wr.parentWith != NoWith && UpN(env, wr.prevWith).Some?
    ensures WithsTrack(env0, wr0, x, f, goal, UpN(env, wr.prevWith).value, wr.parentWith)
  {
    var up := UpN(env, wr.prevWith).value;
    forall err | WithsFails(up, wr.parentWith, x, err)
      ensures WithsFails(env0, wr0, x, err)
    {
      NextScopeFails(env, wr, x, n, err);
    }
    if WithsDen(up, wr.parentWith, x).Some? { WithNextRule(env, wr, x, n); }
  }

  /** From the `i`-th component on, the path leads from `c` where the whole path leads from
      `c0`: the same end, the same errors, and the same at fuel `f`. */
  ghost predicate PathTrack(env: Env, nameFirst: bool, path: seq<AttrName>, c0: Closure, f: nat, goal: bool, i: nat,
                            c: Closure)
    requires i <= |path|
  {
    && PathDen(env, path, c0) == PathDen(env, path[i..], c)
    && (forall err :: PathFails(env, nameFirst, path[i..], c, err) ==> PathFails(env, nameFirst, path, c0, err))
    && (goal ==>
          && Timely(Semantics.WalkPath(f, ByDispl, env, nameFirst, path, c0))
          && Semantics.WalkPath(f, ByDispl, env, nameFirst, path, c0)
             == Semantics.WalkPath(f, ByDispl, env, nameFirst, path[i..], c))
  }

  lemma PathGoesOn(env: Env, nameFirst: bool, path: seq<AttrName>, c0: Closure, f: nat, goal: bool, i: nat, c: Closure,
                   c': Closure)
    requires i < |path| && PathTrack(env, nameFirst, path, c0, f, goal, i, c)
    requires WalkOneDen(env, path[i], c) == Some(There(c'))
    requires goal && Timely(Semantics.WalkOne(f, ByDispl, env, nameFirst, path[i], c)) ==>
      Semantics.WalkOne(f, ByDispl, env, nameFirst, path[i], c) == Ok(There(c'))
    ensures PathTrack(env, nameFirst, path, c0, f, goal, i + 1, c')
  {
    assert path[i..][0] == path[i] && path[i..][1..] == path[i + 1..];
  }

  /** The walk ends at the `i`-th component, with an error or because it is not there. */
  lemma PathStops(env: Env, nameFirst: bool, path: seq<AttrName>, c0: Closure, f: nat, goal: bool, i: nat, c: Closure,
                  r: Result<MReached>, c': Closure, fuel: nat)
    requires i < |path| && PathTrack(env, nameFirst, path, c0, f, goal, i, c)
    requires r.Ok? ==> r.value.MNotThere? && WalkOneDen(env, path[i], c) == Some(Reaches(r.value, c'))
    requires r.Err? && Genuine(r.error) ==> WalkOneFails(env, nameFirst, path[i], c, r.error)
    requires goal && Timely(Semantics.WalkOne(f, ByDispl, env, nameFirst, path[i], c)) ==>
      AgreesOn(r, c', Semantics.WalkOne(f, ByDispl, env, nameFirst, path[i], c), f, fuel)
    ensures r.Ok? ==> PathDen(env, path, c0) == Some(Reaches(r.value, c'))
    ensures r.Err? && Genuine(r.error) ==> PathFails(env, nameFirst, path, c0, r.error)
    ensures goal ==> AgreesOn(r, c', Semantics.WalkPath(f, ByDispl, env, nameFirst, path, c0), f, fuel)
  {
    assert path[i..][0] == path[i];
  }

  lemma UpdateStands(w: World, env: Env, l: Expr, r: Expr, m1: map<Symbol, MValue>, n1: map<Symbol, Closure>,
                     m2: map<Symbol, MValue>, n2: map<Symbol, Closure>)
    requires MapStands(w, m1, n1) && Den(Closure(env, l)) == Some(VAttrs(n1))
    requires MapStands(w, m2, n2) && Den(Closure(env, r)) == Some(VAttrs(n2))
    ensures Stands(w, MAttrs(m1 + m2), Closure(env, Update(l, r)))
  {
    UpdateRule(env, l, r, n1, n2);
  }

  /** What a forced word says about the value it stands for. */
  lemma WhnfDen(w: World, u: MValue, c: Closure)
    requires Whnf(u) && Stands(w, u, c)
    ensures Den(c).Some? && (u.MAttrs? <==> Den(c).value.VAttrs?)
    ensures u.MAttrs? ==> MapStands(w, u.attrs, Den(c).value.attrs)
  {
  }

  /** A component whose name and value have meanings gives them or runs out of fuel. */
  lemma WalkOneTimely(f: nat, env: Env, nameFirst: bool, a: AttrName, c: Closure)
    ensures Den(c).Some? && Timely(Force(f, ByDispl, c)) ==> Force(f, ByDispl, c) == Ok(Den(c).value)
    ensures NameDen(env, a).Some? && Timely(Semantics.GetName(f, ByDispl, env, a)) ==>
      Semantics.GetName(f, ByDispl, env, a) == Ok(NameDen(env, a).value)
  {
    if Den(c).Some? && Timely(Force(f, ByDispl, c)) { TimelyDen(f, c); }
    if NameDen(env, a).Some? && a.DynamicName? { EvalTimely(f, env, a.e); }
  }

  /** Adding the dynamic attributes from the `i`-th on to `n` gives what adding all of them
      to `n0` gives: the same value, the same errors, and the same at fuel `f`. */
  ghost predicate DynsTrack(env: Env, dyns: seq<DynamicDef>, n0: map<Symbol, Closure>, f: nat, goal: bool,
                            i: nat, n: map<Symbol, Closure>)
    requires i <= |dyns|
  {
    && (DynsDen(env, dyns[i..], n).Some? ==> DynsDen(env, dyns, n0) == DynsDen(env, dyns[i..], n))
    && (forall err :: DynsFails(env, dyns[i..], n, err) ==> DynsFails(env, dyns, n0, err))
    && (goal ==>
          && Timely(EvalDyns(f, ByDispl, env, dyns, n0))
          && EvalDyns(f, ByDispl, env, dyns, n0) == EvalDyns(f, ByDispl, env, dyns[i..], n))
  }

  /** A name that is null or new: what follows continues from the set with its entry. */
  lemma AddingOn(env: Env, dyns: seq<DynamicDef>, n0: map<Symbol, Closure>, f: nat, goal: bool,
                 i: nat, n: map<Symbol, Closure>, n': map<Symbol, Closure>)
    requires i < |dyns| && Den(Closure(env, dyns[i].nameExpr)).Some?
    requires var v := Den(Closure(env, dyns[i].nameExpr)).value;
      if v == VLit(LNull) then n' == n
      else v.VLit? && v.lit.LStr? && v.lit.s !in n && n' == n[v.lit.s := Closure(env, dyns[i].valueExpr)]
    requires DynsTrack(env, dyns, n0, f, goal, i, n)
    ensures DynsTrack(env, dyns, n0, f, goal, i + 1, n')
  {
    var v := Den(Closure(env, dyns[i].nameExpr)).value;
    assert dyns[i..][0] == dyns[i] && dyns[i..][1..] == dyns[i + 1..];
    EvalTimely(f, env, dyns[i].nameExpr);
    if DynsDen(env, dyns[i + 1..], n').Some? {
      if v == VLit(LNull) { DynsSkipRule(env, dyns[i..], n); } else { DynsAddRule(env, dyns[i..], n, v.lit.s); }
    }
    forall err | DynsFails(env, dyns[i + 1..], n', err)
      ensures DynsFails(env, dyns, n0, err)
    {
      DynsRestFails(env, dyns[i..], n, n', err);
    }
  }

  /** The evaluation of a name failed on the machine. */
  lemma DynsNameError(env: Env, dyns: seq<DynamicDef>, n0: map<Symbol, Closure>, f: nat, goal: bool,
                      i: nat, n: map<Symbol, Closure>, err: Error, fuel: nat)
    requires i < |dyns| && DynsTrack(env, dyns, n0, f, goal, i, n)
    requires Genuine(err) ==> Fails(Closure(env, dyns[i].nameExpr), err)
    requires goal && Timely(Eval(f, ByDispl, env, dyns[i].nameExpr)) ==>
             Agrees<MValue, Value>(Err(err), Eval(f, ByDispl, env, dyns[i].nameExpr), f, fuel)
    ensures Genuine(err) ==> DynsFails(env, dyns, n0, err)
    ensures goal ==> Agrees<MValue, Value>(Err(err), EvalDyns(f, ByDispl, env, dyns, n0), f, fuel)
  {
    assert dyns[i..][0] == dyns[i];
    if Genuine(err) { DynNameFails(env, dyns[i..], n, err); }
  }

  /** A name that is neither null nor a string, or is taken. */
  lemma DynsBadName(env: Env, dyns: seq<DynamicDef>, n0: map<Symbol, Closure>, f: nat, goal: bool,
                    i: nat, n: map<Symbol, Closure>, err: Error)
    requires i < |dyns| && DynsTrack(env, dyns, n0, f, goal, i, n) && Den(Closure(env, dyns[i].nameExpr)).Some?
    requires var v := Den(Closure(env, dyns[i].nameExpr)).value;
      v != VLit(LNull) && if v.VLit? && v.lit.LStr? then v.lit.s in n && err == DuplicateAttr else err == TypeErr
    ensures DynsFails(env, dyns, n0, err)
    ensures goal ==> EvalDyns(f, ByDispl, env, dyns, n0) == Err(err)
  {
    assert dyns[i..][0] == dyns[i];
    DynNameFails(env, dyns[i..], n, err);
    EvalTimely(f, env, dyns[i].nameExpr);
  }

  /** As the machine sees it: every formal without a default is given. */
  predicate EveryFormalGiven(formals: seq<Formal>, m: map<Symbol, MValue>) {
    forall i :: 0 <= i < |formals| ==> formals[i].name in m || formals[i].def.Some?
  }

  lemma SameGiven(formals: seq<Formal>, m: map<Symbol, MValue>, n: map<Symbol, Closure>)
    requires m.Keys == n.Keys
    ensures EveryFormalGiven(formals, m) == AllGiven(formals, n)
  {
    if EveryFormalGiven(formals, m) {
      forall i | 0 <= i < |formals| ensures !IsMissing(formals[i], n) {
        assert formals[i].name in m || formals[i].def.Some?;
      }
    }
    if AllGiven(formals, n) {
      forall i | 0 <= i < |formals| ensures formals[i].name in m || formals[i].def.Some? {
        assert !IsMissing(formals[i], n);
      }
    }
  }

  /** Applying `n` to the arguments from the `i`-th on gives what applying `nf` to all of
      them gives: the same value, the same errors, and the same at fuel `f`. */
  ghost predicate CallsTrack(nf: Value, cs: seq<Closure>, f: nat, goal: bool, i: nat, n: Value)
    requires i <= |cs|
  {
    && (ApplyDen(n, cs[i..]).Some? ==> ApplyDen(nf, cs) == ApplyDen(n, cs[i..]))
    && (forall err :: ApplyFails(n, cs[i..], err) ==> ApplyFails(nf, cs, err))
    && (goal ==>
          && i <= f && Timely(Apply(f, ByDispl, nf, cs))
          && Apply(f, ByDispl, nf, cs) == Apply(f - i, ByDispl, n, cs[i..]))
  }

  lemma CallGoesOn(nf: Value, cs: seq<Closure>, f: nat, goal: bool, i: nat, n: Value, n': Value)
    requires i < |cs| && CallsTrack(nf, cs, f, goal, i, n) && ApplyOneDen(n, cs[i]) == Some(n')
    ensures CallsTrack(nf, cs, f, goal, i + 1, n')
  {
    assert cs[i..][0] == cs[i] && cs[i..][1..] == cs[i + 1..];
    if ApplyDen(n', cs[i + 1..]).Some? { ApplyConsRule(n, cs[i..], n'); }
    if goal && f > i { ApplyOneTimely(f - i, n, cs[i]); }
    forall err | ApplyFails(n', cs[i + 1..], err)
      ensures ApplyFails(nf, cs, err)
    {
      ApplyRestFails(n, cs[i..], n', err);
    }
  }

  lemma CallStops(nf: Value, cs: seq<Closure>, f: nat, goal: bool, i: nat, n: Value, err: Error, fuel: nat)
    requires i < |cs| && CallsTrack(nf, cs, f, goal, i, n)
    requires Genuine(err) ==> ApplyOneFails(n, cs[i], err)
    requires goal && f > i && Timely(ApplyOne(f - i, ByDispl, n, cs[i])) ==>
      Agrees<MValue, Value>(Err(err), ApplyOne(f - i, ByDispl, n, cs[i]), f - i, fuel)
    ensures Genuine(err) ==> ApplyFails(nf, cs, err)
    ensures goal ==> Agrees<MValue, Value>(Err(err), Apply(f, ByDispl, nf, cs), f, fuel)
  {
    assert cs[i..][0] == cs[i];
    if Genuine(err) { ApplyFirstFails(n, cs[i..], err); }
  }

  lemma EnterUnblocked(s: Snapshot, t: nat, f: nat, k: nat)
    requires t < |s.w.thunks| && Unblocked(s, f) && k <= f
    requires k > 0 ==> !Timely(Semantics.Force(k - 1, ByDispl, s.w.thunks[t]))
    requires !Timely(Semantics.Force(0, ByDispl, s.w.thunks[t]))
    ensures Unblocked(Snapshot(s.w, s.thunks, s.forcing + [t]), Pred(k))
  {
    UnblockedDown(s, Pred(k), f);
  }

  /** A finished evaluation with fuel `f` gives the meaning, if there is one. */
  lemma EvalTimely(f: nat, env: Env, e: Expr)
    requires Den(Closure(env, e)).Some?
    ensures Timely(Eval(f, ByDispl, env, e)) ==> Eval(f, ByDispl, env, e) == Ok(Den(Closure(env, e)).value)
  {
    if Timely(Eval(f, ByDispl, env, e)) { TimelyDen(f, Closure(env, e)); }
  }

  lemma ApplyOneTimely(f: nat, v: Value, c: Closure)
    requires f > 0 && ApplyOneDen(v, c).Some?
    ensures Timely(ApplyOne(f, ByDispl, v, c)) ==> ApplyOne(f, ByDispl, v, c) == Ok(ApplyOneDen(v, c).value)
  {
    if Timely(ApplyOne(f, ByDispl, v, c)) {
      var g := ApplyOneFuel(f, v, c);
      ApplyOneMono(f, g, ByDispl, v, c);
    }
  }

  lemma CompleteLast(before: seq<EnvCell>, after: seq<EnvCell>, holes: set<nat>)
    requires |after| == |before| + 1 && after[..|before|] == before && Complete(before, holes)
    requires forall j :: 0 <= j < |after[|before|].values| ==> after[|before|].values[j] != Invalid
    ensures Complete(after, holes)
  {
    forall a, i | 0 <= a < |after| && a !in holes && 0 <= i < |after[a].values| ensures after[a].values[i] != Invalid {
      if a < |before| { assert after[a] == after[..|before|][a]; }
    }
  }

  lemma AttrMapSnoc(inner: Env, outer: Env, froms: seq<Expr>, attrs: seq<AttrDef>, i: nat)
    requires i < |attrs|
    ensures AttrMap(inner, outer, froms, attrs[..i + 1]) ==
            AttrMap(inner, outer, froms, attrs[..i])[attrs[i].name := AttrClosure(inner, outer, froms, attrs[i])]
  {
    assert attrs[..i + 1][..i] == attrs[..i];
  }
}
