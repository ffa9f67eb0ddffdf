/** Whole programs: binding followed by call-by-need evaluation, compared with the
    interpreter that looks names up by name and never memoises. */
module Programs {
  import opened Syntax
  import opened Binder
  import opened Semantics
  import opened BindingTheorem
  import opened Denotation
  import opened Failures
  import opened HeapRelation
  import opened Machine

  lemma BaseIsBound(base: seq<(Symbol, Literal)>)
    ensures BoundEnv(BaseEnv(base)) == BaseEnv(base)
  {
    var slots, self := BaseSlots(base), Static(BaseEnv(base));
    forall i | 0 <= i < |slots| ensures BoundSlot(self, slots[i]) == slots[i] {
      assert BoundClosure(slots[i].c) == slots[i].c;
    }
    assert BoundSlots(self, slots) == slots;
  }

  /** The by-name result of a program and the displacement result of the bound program. */
  lemma ProgramAgrees(f: nat, base: seq<(Symbol, Literal)>, e: Expr)
    ensures
      var bound := Bind(Static(BaseEnv(base)), e);
      Eval(f, ByDispl, BaseEnv(base), bound) == BoundResult(Eval(f, ByName, BaseEnv(base), e))
  {
    BaseIsBound(base);
    EvalAgrees(f, BaseEnv(base), e);
  }

  /** What a machine value shows without forcing anything further. */
  ghost predicate SameShape(v: MValue, n: Value) {
    match v
    case MLit(l) => n == VLit(l)
    case MList(vs) => n.VList? && |vs| == |n.elems|
    case MAttrs(m) => n.VAttrs? && m.Keys == n.attrs.Keys
    case MLambda(_, _, _) => n.VLambda?
    case _ => false
  }

  /** `r` reports the outcome `n` of the by-name interpreter. */
  ghost predicate Reports(r: Result<MValue>, n: Result<Value>) {
    if n.Ok? then r.Ok? && SameShape(r.value, n.value) else r == Err(n.error)
  }

  /** Fuel `k` is the least with a by-name result, if there is any. */
  ghost predicate IsLeast(k: nat, env: Env, e: Expr) {
    forall f: nat :: Timely(Eval(f, ByName, env, e)) ==> k <= f && Eval(k, ByName, env, e) == Eval(f, ByName, env, e)
  }

  /** Binds and runs a program. A value is the by-name value and an error other than running
      out of fuel or infinite recursion is the by-name error; a by-name outcome is reported
      unless the fuel runs out, and then it needs more fuel; infinite recursion is reported
      only of programs that have no by-name outcome; no black hole is left behind. */
  method Run(fuel: nat, base: seq<(Symbol, Literal)>, e: Expr) returns (r: Result<MValue>, ev: Evaluator)
    ensures r.Ok? ==>
      exists f: nat :: Eval(f, ByName, BaseEnv(base), e).Ok? && Reports(r, Eval(f, ByName, BaseEnv(base), e))
    ensures r.Err? && Genuine(r.error) ==> exists f: nat :: Eval(f, ByName, BaseEnv(base), e) == Err(r.error)
    ensures forall f: nat :: Timely(Eval(f, ByName, BaseEnv(base), e)) && (f <= fuel || r != Err(Timeout)) ==>
              Reports(r, Eval(f, ByName, BaseEnv(base), e))
    ensures r == Err(InfiniteRecursion) ==> forall f: nat :: Eval(f, ByName, BaseEnv(base), e) == Err(Timeout)
    ensures fresh(ev) && ev.Valid() && forall t :: 0 <= t < |ev.thunks| ==> !ev.thunks[t].BlackHole?
  {
    ghost var env := BaseEnv(base);
    var bound := Bind(SVars(Displacements(FrameNames(ArgFrame(BaseSlots(base)))), SNil), e);
    ev := new Evaluator(base);
    ghost var k := FindLeast(env, e);
    r := ev.Evaluate(fuel, 1, bound, k);
    ProgramAgrees(k, base, e);
    if r.Ok? {
      ResultIsByName(base, e, ev.w, r.value, k);
    } else if Genuine(r.error) {
      ErrorIsByName(base, e, r.error);
    }
  }

  /** A machine result is the by-name result. */
  lemma ResultIsByName(base: seq<(Symbol, Literal)>, e: Expr, w: World, v: MValue, k: nat)
    requires Whnf(v) && Stands(w, v, Closure(BaseEnv(base), Bind(Static(BaseEnv(base)), e)))
    requires IsLeast(k, BaseEnv(base), e)
    ensures Eval(k, ByName, BaseEnv(base), e).Ok? && SameShape(v, Eval(k, ByName, BaseEnv(base), e).value)
  {
    var c := Closure(BaseEnv(base), Bind(Static(BaseEnv(base)), e));
    var g := DenFuel(0, c);
    ProgramAgrees(g, base, e);
    assert Timely(Eval(g, ByName, BaseEnv(base), e));
    RepresentsShape(w, v, Den(c).value);
  }

  /** A machine error is the by-name error. */
  lemma ErrorIsByName(base: seq<(Symbol, Literal)>, e: Expr, err: Error)
    requires Fails(Closure(BaseEnv(base), Bind(Static(BaseEnv(base)), e)), err)
    ensures exists f: nat :: Eval(f, ByName, BaseEnv(base), e) == Err(err)
  {
    var f := FailFuel(0, Closure(BaseEnv(base), Bind(Static(BaseEnv(base)), e)), err);
    ProgramAgrees(f, base, e);
  }

  lemma FindLeast(env: Env, e: Expr) returns (k: nat)
    ensures IsLeast(k, env, e)
  {
    k := 0;
    if f: nat :| Timely(Eval(f, ByName, env, e)) {
      k := LeastByName(f, env, e);
      forall f: nat | Timely(Eval(f, ByName, env, e))
        ensures k <= f && Eval(k, ByName, env, e) == Eval(f, ByName, env, e)
      {
        if f < k { EvalMono(f, k - 1, ByName, env, e); }
        EvalMono(k, f, ByName, env, e);
      }
    }
  }

  lemma RepresentsShape(w: World, v: MValue, n: Value)
    requires Represents(w, v, n)
    ensures forall n' :: BoundValue(n') == n ==> SameShape(v, n')
  {
  }

  lemma {:induction false} LeastByName(f: nat, env: Env, e: Expr) returns (k: nat)
    requires Timely(Eval(f, ByName, env, e))
    ensures k <= f && Timely(Eval(k, ByName, env, e))
    ensures k > 0 ==> !Timely(Eval(k - 1, ByName, env, e))
  {
    if f == 0 || !Timely(Eval(f - 1, ByName, env, e)) {
      k := f;
    } else {
      k := LeastByName(f - 1, env, e);
    }
  }
}
