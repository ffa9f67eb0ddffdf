/** `forceValueDeep` with its memory of visited values: it forces everything inside a
    value, and ends on cyclic values as well. */
module DeepForcing {
  import opened Syntax
  import opened Binder
  import opened Semantics
  import opened BindingTheorem
  import opened Denotation
  import opened HeapRelation
  import opened Machine
  import opened Programs
  import opened DeepResults

  // --- values of any depth, cyclic ones included ---

  /** The computations inside a value. */
  function Parts(v: Value): set<Closure> {
    match v
    case VList(cs) => set c | c in cs
    case VAttrs(m) => m.Values
    case _ => {}
  }

  /** `p` is inside the value that `c` has with fuel `f`. */
  predicate IsPart(f: nat, mode: Mode, c: Closure, p: Closure) {
    Semantics.Force(f, mode, c).Ok? && p in Parts(Semantics.Force(f, mode, c).value)
  }

  /** `c` has a value, and so has everything up to `d` levels inside it. */
  ghost predicate HasParts(d: nat, mode: Mode, c: Closure) {
    && (exists f: nat :: Semantics.Force(f, mode, c).Ok?)
    && (d > 0 ==> forall f: nat, p :: IsPart(f, mode, c, p) ==> HasParts(d - 1, mode, p))
  }

  /** Why forcing `c` reports `e`: it has that error, it has no result at all, or none
      within the fuel. */
  ghost predicate Fault(fuel: nat, mode: Mode, c: Closure, e: Error) {
    match e
    case InfiniteRecursion => forall f: nat :: !Timely(Semantics.Force(f, mode, c))
    case Timeout => forall f: nat :: f <= fuel ==> !Timely(Semantics.Force(f, mode, c))
    case _ => exists f: nat :: Semantics.Force(f, mode, c) == Err(e)
  }

  /** The same of something `d` levels inside `c`. */
  ghost predicate PartFault(d: nat, fuel: nat, mode: Mode, c: Closure, e: Error) {
    if d == 0 then Fault(fuel, mode, c, e)
    else exists f: nat, p :: IsPart(f, mode, c, p) && PartFault(d - 1, fuel, mode, p, e)
  }

  // --- binding ---

  lemma PartsBound(v: Value, q: Closure)
    ensures q in Parts(BoundValue(v)) <==> exists p :: p in Parts(v) && q == BoundClosure(p)
  {
    match v
    case VList(cs) =>
      if q in Parts(BoundValue(v)) {
        var i :| 0 <= i < |cs| && BoundSeq(cs)[i] == q;
        assert cs[i] in Parts(v);
      }
      forall p | p in Parts(v)
        ensures BoundClosure(p) in Parts(BoundValue(v))
      {
        var i :| 0 <= i < |cs| && cs[i] == p;
        assert BoundSeq(cs)[i] in BoundSeq(cs);
      }
    case VAttrs(m) =>
      if q in Parts(BoundValue(v)) {
        var x :| x in BoundMap(m) && BoundMap(m)[x] == q;
        assert m[x] in Parts(v);
      }
      forall p | p in Parts(v)
        ensures BoundClosure(p) in Parts(BoundValue(v))
      {
        var x :| x in m && m[x] == p;
        assert BoundMap(m)[x] in BoundMap(m).Values;
      }
    case _ =>
  }

  lemma IsPartBound(f: nat, c: Closure, q: Closure)
    ensures IsPart(f, ByDispl, BoundClosure(c), q) <==> exists p :: IsPart(f, ByName, c, p) && q == BoundClosure(p)
  {
    ForceAgrees(f, c);
    var r := Semantics.Force(f, ByName, c);
    if r.Ok? { PartsBound(r.value, q); }
  }

  /** Binding preserves what a value has inside, to any depth. */
  lemma {:induction false} PartsAgree(d: nat, c: Closure)
    ensures HasParts(d, ByDispl, BoundClosure(c)) <==> HasParts(d, ByName, c)
  {
    forall f: nat
      ensures Semantics.Force(f, ByDispl, BoundClosure(c)).Ok? <==> Semantics.Force(f, ByName, c).Ok?
    {
      ForceAgrees(f, c);
    }
    if d > 0 {
      forall f: nat, p | IsPart(f, ByName, c, p)
        ensures IsPart(f, ByDispl, BoundClosure(c), BoundClosure(p))
        ensures HasParts(d - 1, ByDispl, BoundClosure(p)) <==> HasParts(d - 1, ByName, p)
      {
        IsPartBound(f, c, BoundClosure(p));
        PartsAgree(d - 1, p);
      }
      forall f: nat, q | IsPart(f, ByDispl, BoundClosure(c), q)
        ensures exists p :: IsPart(f, ByName, c, p) && q == BoundClosure(p)
      {
        IsPartBound(f, c, q);
      }
    }
  }

  lemma {:induction false} FaultAgrees(d: nat, fuel: nat, c: Closure, e: Error)
    requires PartFault(d, fuel, ByDispl, BoundClosure(c), e)
    ensures PartFault(d, fuel, ByName, c, e)
  {
    if d == 0 {
      forall f: nat
        ensures Semantics.Force(f, ByDispl, BoundClosure(c)) == BoundResult(Semantics.Force(f, ByName, c))
      {
        ForceAgrees(f, c);
      }
    } else {
      var f: nat, q :| IsPart(f, ByDispl, BoundClosure(c), q) && PartFault(d - 1, fuel, ByDispl, q, e);
      IsPartBound(f, c, q);
      var p :| IsPart(f, ByName, c, p) && q == BoundClosure(p);
      FaultAgrees(d - 1, fuel, p, e);
    }
  }

  // --- what the traversal has seen ---

  /** Every thunk in the word has been visited. */
  predicate Settled(v: MValue, seen: set<nat>) {
    match v
    case MThunk(t) => t in seen
    case MList(vs) => forall i :: 0 <= i < |vs| ==> Settled(vs[i], seen)
    case MAttrs(m) => forall x :: x in m ==> Settled(m[x], seen)
    case _ => true
  }

  /** Visited thunks have results, and everything in those has been visited, except where
      the traversal still is. */
  ghost predicate Explored(thunks: seq<Thunk>, seen: set<nat>, open: set<nat>) {
    forall t :: t in seen ==> t < |thunks| && thunks[t].Resolved? && (t !in open ==> Settled(thunks[t].v, seen))
  }

  lemma {:induction false} SettledMono(v: MValue, seen: set<nat>, seen': set<nat>)
    requires seen <= seen' && Settled(v, seen)
    ensures Settled(v, seen')
  {
    match v
    case MList(vs) => forall i | 0 <= i < |vs| { SettledMono(vs[i], seen, seen'); }
    case MAttrs(m) => forall x | x in m { SettledMono(m[x], seen, seen'); }
    case _ =>
  }

  /** A traversal that has come to its end has reached everything, however deep. */
  lemma {:induction false} SettledHasParts(d: nat, w: World, thunks: seq<Thunk>, seen: set<nat>, v: MValue, c: Closure)
    requires ThunksOk(w, thunks) && Explored(thunks, seen, {}) && Settled(v, seen) && Stands(w, v, c)
    ensures HasParts(d, ByDispl, c)
    decreases d
  {
    var u := if v.MThunk? then thunks[v.id].v else v;
    if v.MThunk? { assert ThunkOk(w, thunks[v.id], w.thunks[v.id]); }
    assert Den(c).Some? && Represents(w, u, Den(c).value) && Settled(u, seen);
    var f := DenFuel(0, c);
    if d > 0 {
      forall g: nat, p | IsPart(g, ByDispl, c, p)
        ensures HasParts(d - 1, ByDispl, p)
      {
        DenIs(g, c);
        var q := PartWord(w, u, Den(c).value, seen, p);
        SettledHasParts(d - 1, w, thunks, seen, q, p);
      }
    }
  }

  /** The word for a part of a value. */
  lemma PartWord(w: World, u: MValue, n: Value, seen: set<nat>, p: Closure) returns (q: MValue)
    requires Represents(w, u, n) && Settled(u, seen) && p in Parts(n)
    ensures Stands(w, q, p) && Settled(q, seen)
  {
    match n
    case VList(cs) =>
      var i :| 0 <= i < |cs| && cs[i] == p;
      q := u.elems[i];
    case VAttrs(m) =>
      var x :| x in m && m[x] == p;
      q := u.attrs[x];
  }

  // --- the traversal ---

  datatype Outcome = Finished | Failed(error: Error) | TooDeep

  /** What a traversal of `c` from `seen` to `seen'` has done, with `depth` thunks allowed on
      the way down. */
  ghost predicate Traversed(fuel: nat, depth: nat, c: Closure, r: Outcome, seen: set<nat>, seen': set<nat>) {
    && seen <= seen'
    && (r.Failed? ==> exists d: nat :: PartFault(d, fuel, ByDispl, c, r.error))
    && (r.TooDeep? ==> |seen'| >= |seen| + depth)
  }

  ghost predicate TraversedParts(fuel: nat, depth: nat, n: Value, r: Outcome, seen: set<nat>, seen': set<nat>) {
    && seen <= seen'
    && (r.Failed? ==> exists d: nat, p :: p in Parts(n) && PartFault(d, fuel, ByDispl, p, r.error))
    && (r.TooDeep? ==> |seen'| >= |seen| + depth)
  }

  ghost predicate Steady(ev: Evaluator, seen: set<nat>, open: set<nat>)
    reads ev
  {
    Ready(ev) && Explored(ev.thunks, seen, open)
  }

  /** `forceValueDeep`. */
  method ForceValueDeep(ev: Evaluator, fuel: nat, depth: nat, v: MValue, seen: set<nat>, ghost c: Closure,
                        ghost open: set<nat>)
    returns (r: Outcome, seen': set<nat>)
    requires Steady(ev, seen, open) && Stands(ev.w, v, c)
    modifies ev
    ensures Ready(ev) && Later(old(ev.Now()), ev.Now()) && Traversed(fuel, depth, c, r, seen, seen')
    ensures forall t :: t in seen' ==> t < |ev.thunks|
    ensures r.Finished? ==> Steady(ev, seen', open) && Settled(v, seen')
    decreases depth, v, 2
  {
    if !v.MThunk? {
      r, seen' := ForceParts(ev, fuel, depth, v, seen, Den(c).value, open);
      FaultInside(fuel, c, r);
    } else if v.id in seen {
      return Finished, seen;
    } else if depth == 0 {
      return TooDeep, seen;
    } else {
      r, seen' := VisitThunk(ev, fuel, depth, v, seen, c, open);
    }
  }

  /** Forces a thunk that has not been visited, and everything inside its result. */
  method VisitThunk(ev: Evaluator, fuel: nat, depth: nat, v: MValue, seen: set<nat>, ghost c: Closure,
                    ghost open: set<nat>)
    returns (r: Outcome, seen': set<nat>)
    requires Steady(ev, seen, open) && Stands(ev.w, v, c) && v.MThunk? && v.id !in seen && depth > 0
    modifies ev
    ensures Ready(ev) && Later(old(ev.Now()), ev.Now()) && Traversed(fuel, depth, c, r, seen, seen')
    ensures forall t :: t in seen' ==> t < |ev.thunks|
    ensures r.Finished? ==> Steady(ev, seen', open) && Settled(v, seen')
    decreases depth, v, 0
  {
    hide PartFault, Parts, Settled;
    ghost var s0 := ev.Now();
    ghost var k := FindLeastForce(c);
    var u := ev.Force(fuel, v, c, k);
    ghost var s1 := ev.Now();
    ExploredLater(s0, s1, seen, open);
    if u.Err? {
      FaultHere(fuel, c, u.error, k);
      return Failed(u.error), seen;
    }
    ExploredMore(s1.thunks, seen, open, v.id);
    hide Explored;
    r, seen' := ForceParts(ev, fuel, depth - 1, u.value, seen + {v.id}, Den(c).value, open + {v.id});
    LaterTrans(s0, s1, ev.Now());
    FaultInside(fuel, c, r);
    if r.Finished? { ExploredClosed(s1, ev.Now(), seen', open, v.id); }
  }

  /** Once everything inside the result of a thunk is visited, its visit is over. */
  lemma ExploredClosed(s0: Snapshot, s1: Snapshot, seen: set<nat>, open: set<nat>, t: nat)
    requires Later(s0, s1) && t < |s0.thunks| && s0.thunks[t].Resolved? && Settled(s0.thunks[t].v, seen)
    requires t in seen && Explored(s1.thunks, seen, open + {t})
    ensures Explored(s1.thunks, seen, open) && Settled(MThunk(t), seen)
  {
    assert ThunkEvolves(s0.thunks[t], s1.thunks[t]);
  }

  /** Everything inside a forced word. */
  method ForceParts(ev: Evaluator, fuel: nat, depth: nat, v: MValue, seen: set<nat>, ghost n: Value,
                    ghost open: set<nat>)
    returns (r: Outcome, seen': set<nat>)
    requires Steady(ev, seen, open) && Represents(ev.w, v, n)
    modifies ev
    ensures Ready(ev) && Later(old(ev.Now()), ev.Now()) && TraversedParts(fuel, depth, n, r, seen, seen')
    ensures forall t :: t in seen' ==> t < |ev.thunks|
    ensures r.Finished? ==> Steady(ev, seen', open) && Settled(v, seen')
    decreases depth, v, 1
  {
    match v {
      case MList(vs) => r, seen' := ForceElems(ev, fuel, depth, v, seen, n, open);
      case MAttrs(m) => r, seen' := ForceEntries(ev, fuel, depth, v, seen, n, open);
      case _ => r, seen' := Finished, seen;
    }
  }

  method ForceElems(ev: Evaluator, fuel: nat, depth: nat, v: MValue, seen: set<nat>, ghost n: Value,
                    ghost open: set<nat>)
    returns (r: Outcome, seen': set<nat>)
    requires Steady(ev, seen, open) && Represents(ev.w, v, n) && v.MList?
    modifies ev
    ensures Ready(ev) && Later(old(ev.Now()), ev.Now()) && TraversedParts(fuel, depth, n, r, seen, seen')
    ensures forall t :: t in seen' ==> t < |ev.thunks|
    ensures r.Finished? ==> Steady(ev, seen', open) && Settled(v, seen')
    decreases depth, v, 0
  {
    hide PartFault, Explored, HeapOk, HeapRelation.Stands, Later;
    var vs := v.elems;
    seen' := seen;
    ghost var s0 := ev.Now();
    LaterRefl(s0);
    for i := 0 to |vs|
      invariant Steady(ev, seen', open) && Later(s0, ev.Now()) && SeqStands(ev.w, vs, n.elems) && seen <= seen'
      invariant forall j :: 0 <= j < i ==> Settled(vs[j], seen')
    {
      ghost var s1, before := ev.Now(), seen';
      r, seen' := ForceValueDeep(ev, fuel, depth, vs[i], seen', n.elems[i], open);
      LaterTrans(s0, s1, ev.Now());
      WorldsGrow(s1, ev.Now());
      SeqMono(s1.w, ev.w, vs, n.elems);
      if !r.Finished? {
        StopsInside(fuel, depth, n, n.elems[i], r, seen, before, seen');
        return;
      }
      forall j | 0 <= j < i { SettledMono(vs[j], before, seen'); }
    }
    SteadyBounds(ev, seen', open);
    r := Finished;
  }

  method ForceEntries(ev: Evaluator, fuel: nat, depth: nat, v: MValue, seen: set<nat>, ghost n: Value,
                      ghost open: set<nat>)
    returns (r: Outcome, seen': set<nat>)
    requires Steady(ev, seen, open) && Represents(ev.w, v, n) && v.MAttrs?
    modifies ev
    ensures Ready(ev) && Later(old(ev.Now()), ev.Now()) && TraversedParts(fuel, depth, n, r, seen, seen')
    ensures forall t :: t in seen' ==> t < |ev.thunks|
    ensures r.Finished? ==> Steady(ev, seen', open) && Settled(v, seen')
    decreases depth, v, 0
  {
    hide PartFault, Explored, HeapOk, HeapRelation.Stands, Later;
    var m := v.attrs;
    seen' := seen;
    ghost var s0 := ev.Now();
    LaterRefl(s0);
    var rest := m.Keys;
    while rest != {}
      invariant Steady(ev, seen', open) && Later(s0, ev.Now()) && MapStands(ev.w, m, n.attrs) && seen <= seen'
      invariant rest <= m.Keys && forall x :: x in m && x !in rest ==> Settled(m[x], seen')
      decreases rest
    {
      var x :| x in rest;
      ghost var s1, before := ev.Now(), seen';
      r, seen' := ForceValueDeep(ev, fuel, depth, m[x], seen', n.attrs[x], open);
      LaterTrans(s0, s1, ev.Now());
      WorldsGrow(s1, ev.Now());
      MapMono(s1.w, ev.w, m, n.attrs);
      if !r.Finished? {
        StopsInside(fuel, depth, n, n.attrs[x], r, seen, before, seen');
        return;
      }
      forall y | y in m && y !in rest { SettledMono(m[y], before, seen'); }
      rest := rest - {x};
    }
    SteadyBounds(ev, seen', open);
    r := Finished;
  }

  lemma LaterRefl(s: Snapshot)
    ensures Later(s, s)
  {
  }

  lemma WorldsGrow(s0: Snapshot, s1: Snapshot)
    requires Later(s0, s1)
    ensures Extends(s0.w, s1.w)
  {
  }

  lemma SteadyBounds(ev: Evaluator, seen: set<nat>, open: set<nat>)
    requires Steady(ev, seen, open)
    ensures forall t :: t in seen ==> t < |ev.thunks|
  {
  }

  /** The traversal of one part ends the traversal of the whole. */
  lemma StopsInside(fuel: nat, depth: nat, n: Value, p: Closure, r: Outcome, seen: set<nat>, before: set<nat>,
                    after: set<nat>)
    requires p in Parts(n) && seen <= before && Traversed(fuel, depth, p, r, before, after) && !r.Finished?
    ensures TraversedParts(fuel, depth, n, r, seen, after)
  {
    hide PartFault;
    Subsets(seen, before);
  }

  lemma {:induction false} Subsets(a: set<nat>, b: set<nat>)
    requires a <= b
    ensures |a| <= |b|
  {
    if a != {} {
      var x :| x in a;
      Subsets(a - {x}, b - {x});
    }
  }

  lemma ExploredLater(s0: Snapshot, s1: Snapshot, seen: set<nat>, open: set<nat>)
    requires Later(s0, s1) && Explored(s0.thunks, seen, open)
    ensures Explored(s1.thunks, seen, open)
  {
    forall t | t in seen
      ensures s1.thunks[t] == s0.thunks[t]
    {
      assert ThunkEvolves(s0.thunks[t], s1.thunks[t]);
    }
  }

  lemma ExploredMore(thunks: seq<Thunk>, seen: set<nat>, open: set<nat>, t: nat)
    requires Explored(thunks, seen, open) && t < |thunks| && thunks[t].Resolved?
    ensures Explored(thunks, seen + {t}, open + {t})
  {
    forall u | u in seen && u !in open + {t}
      ensures Settled(thunks[u].v, seen + {t})
    {
      SettledMono(thunks[u].v, seen, seen + {t});
    }
  }

  lemma FaultHere(fuel: nat, c: Closure, e: Error, k: nat)
    requires forall f: nat :: Timely(Semantics.Force(f, ByDispl, c)) ==>
      k <= f && Timely(Semantics.Force(k, ByDispl, c))
    requires Timely(Semantics.Force(k, ByDispl, c)) ==>
      Agrees<MValue, Value>(Err(e), Semantics.Force(k, ByDispl, c), k, fuel)
    requires e != Timeout && e != InfiniteRecursion ==> exists f: nat :: Semantics.Force(f, ByDispl, c) == Err(e)
    ensures PartFault(0, fuel, ByDispl, c, e)
  {
  }

  lemma FaultInside(fuel: nat, c: Closure, r: Outcome)
    requires Den(c).Some?
    requires r.Failed? ==> exists d: nat, p :: p in Parts(Den(c).value) && PartFault(d, fuel, ByDispl, p, r.error)
    ensures r.Failed? ==> exists d: nat :: PartFault(d, fuel, ByDispl, c, r.error)
  {
    if r.Failed? {
      var d: nat, p :| p in Parts(Den(c).value) && PartFault(d, fuel, ByDispl, p, r.error);
      var f := DenFuel(0, c);
      assert IsPart(f, ByDispl, c, p);
      assert PartFault(d + 1, fuel, ByDispl, c, r.error);
    }
  }

  lemma {:induction false} Below(s: set<nat>, n: nat)
    requires forall t :: t in s ==> t < n
    ensures |s| <= n
  {
    if n > 0 {
      Below(s - {n - 1}, n - 1);
    } else {
      assert s == {};
    }
  }

  /** Binds a program and forces its value with everything inside. If that ends well, the
      by-name interpreter of the unbound program finds a value at every depth, on cyclic
      values too. If it fails, something inside the by-name value has that error or no
      result. It gives up only after meeting `depth` thunks. */
  method RunForced(fuel: nat, depth: nat, base: seq<(Symbol, Literal)>, e: Expr) returns (r: Outcome, ev: Evaluator)
    ensures r.Finished? ==> forall d: nat :: HasParts(d, ByName, Closure(BaseEnv(base), e))
    ensures r.Failed? ==> exists d: nat :: PartFault(d, fuel, ByName, Closure(BaseEnv(base), e), r.error)
    ensures r.TooDeep? ==> |ev.thunks| >= depth
  {
    hide HasParts, PartFault;
    ghost var c := Closure(BaseEnv(base), e);
    var bound := Bind(SVars(Displacements(FrameNames(ArgFrame(BaseSlots(base)))), SNil), e);
    BaseIsBound(base);
    assert BoundClosure(c) == Closure(BaseEnv(base), bound);
    ev := new Evaluator(base);
    var v := ev.MakeThunk(1, bound);
    var seen;
    r, seen := ForceValueDeep(ev, fuel, depth, v, {}, BoundClosure(c), {});
    Below(seen, |ev.thunks|);
    if r.Finished? {
      forall d: nat
        ensures HasParts(d, ByName, c)
      {
        SettledHasParts(d, ev.w, ev.thunks, seen, v, BoundClosure(c));
        PartsAgree(d, c);
      }
    } else if r.Failed? {
      ghost var d: nat :| PartFault(d, fuel, ByDispl, BoundClosure(c), r.error);
      FaultAgrees(d, fuel, c, r.error);
    }
  }
}
