/** The evaluator's heap, and what it means for heap contents to stand for the
    suspended computations and values of the call-by-name semantics. */
module HeapRelation {
  import opened Options
  import opened Syntax
  import opened Semantics
  import opened Denotation
  import opened Failures

  /** Machine values. `Invalid` is the content of a slot not yet filled. */
  datatype MValue =
    | Invalid
    | MLit(lit: Literal)
    | MList(elems: seq<MValue>)
    | MAttrs(attrs: map<Symbol, MValue>)
    | MLambda(env: nat, pat: Pattern, body: Expr)
    | MThunk(id: nat)

  datatype EnvCell = EnvCell(up: Option<nat>, values: seq<MValue>)

  datatype Thunk = Pending(env: nat, e: Expr) | BlackHole | Resolved(v: MValue)

  /** For every heap environment and thunk, what it stands for. */
  datatype World = World(envs: seq<Env>, thunks: seq<Closure>)

  predicate Whnf(v: MValue) {
    !v.Invalid? && !v.MThunk?
  }

  /** Every error of `d` is an error of `c`. */
  ghost predicate FailsToo(d: Closure, c: Closure) {
    forall e :: Fails(d, e) ==> Fails(c, e)
  }

  /** `v`, found in a slot, stands for the suspended computation `c`. */
  ghost predicate Stands(w: World, v: MValue, c: Closure)
    decreases v, 1
  {
    match v
    case Invalid => false
    case MThunk(t) =>
      t < |w.thunks| && (Den(w.thunks[t]).Some? ==> Den(c) == Den(w.thunks[t])) && Within(w.thunks[t], c) &&
      FailsToo(w.thunks[t], c)
    case _ => Den(c).Some? && Represents(w, v, Den(c).value)
  }

  /** `v` is the machine form of the value `n`. */
  ghost predicate Represents(w: World, v: MValue, n: Value)
    decreases v, 0
  {
    match v
    case Invalid => false
    case MThunk(_) => false
    case MLit(l) => n == VLit(l)
    case MList(vs) =>
      n.VList? && |vs| == |n.elems| && forall i :: 0 <= i < |vs| ==> Stands(w, vs[i], n.elems[i])
    case MAttrs(m) =>
      n.VAttrs? && m.Keys == n.attrs.Keys && forall x :: x in m ==> Stands(w, m[x], n.attrs[x])
    case MLambda(a, pat, body) => a < |w.envs| && n == VLambda(w.envs[a], pat, body)
  }

  ghost predicate SeqStands(w: World, vs: seq<MValue>, cs: seq<Closure>) {
    |vs| == |cs| && forall i :: 0 <= i < |vs| ==> Stands(w, vs[i], cs[i])
  }

  ghost predicate MapStands(w: World, m: map<Symbol, MValue>, n: map<Symbol, Closure>) {
    m.Keys == n.Keys && forall x :: x in m ==> Stands(w, m[x], n[x])
  }

  ghost predicate Extends(w: World, w': World) {
    w.envs <= w'.envs && w.thunks <= w'.thunks
  }

  lemma {:induction false} StandsMono(w: World, w': World, v: MValue, c: Closure)
    requires Extends(w, w') && Stands(w, v, c)
    ensures Stands(w', v, c)
    decreases v, 1
  {
    if Whnf(v) { RepresentsMono(w, w', v, Den(c).value); }
  }

  lemma {:induction false} RepresentsMono(w: World, w': World, v: MValue, n: Value)
    requires Extends(w, w') && Represents(w, v, n)
    ensures Represents(w', v, n)
    decreases v, 0
  {
    match v
    case MList(vs) =>
      forall i | 0 <= i < |vs| ensures Stands(w', vs[i], n.elems[i]) { StandsMono(w, w', vs[i], n.elems[i]); }
    case MAttrs(m) =>
      forall x | x in m ensures Stands(w', m[x], n.attrs[x]) { StandsMono(w, w', m[x], n.attrs[x]); }
    case _ =>
  }

  lemma SeqMono(w: World, w': World, vs: seq<MValue>, cs: seq<Closure>)
    requires Extends(w, w') && SeqStands(w, vs, cs)
    ensures SeqStands(w', vs, cs)
  {
    forall i | 0 <= i < |vs| ensures Stands(w', vs[i], cs[i]) { StandsMono(w, w', vs[i], cs[i]); }
  }

  lemma MapMono(w: World, w': World, m: map<Symbol, MValue>, n: map<Symbol, Closure>)
    requires Extends(w, w') && MapStands(w, m, n)
    ensures MapStands(w', m, n)
  {
    forall x | x in m ensures Stands(w', m[x], n[x]) { StandsMono(w, w', m[x], n[x]); }
  }

  // --- heap invariants ---

  ghost predicate SlotsOk(w: World, values: seq<MValue>, env: Env) {
    |values| == SlotCount(env) &&
    forall i :: 0 <= i < |values| ==> values[i] == Invalid || Stands(w, values[i], Slot(env, i))
  }

  ghost predicate UpOk(w: World, up: Option<nat>, env: Env, a: nat) {
    match up
    case None => env == Nil
    case Some(u) => u < a && u < |w.envs| && env.Cons? && env.up == w.envs[u]
  }

  ghost predicate EnvsOk(w: World, cells: seq<EnvCell>) {
    |cells| == |w.envs| &&
    (forall a :: 0 <= a < |cells| ==> UpOk(w, cells[a].up, w.envs[a], a)) &&
    (forall a :: 0 <= a < |cells| ==> SlotsOk(w, cells[a].values, w.envs[a]))
  }

  ghost predicate ThunkOk(w: World, th: Thunk, c: Closure) {
    match th
    case Pending(a, e) => a < |w.envs| && c == Closure(w.envs[a], e)
    case BlackHole => true
    case Resolved(v) => Whnf(v) && Stands(w, v, c)
  }

  ghost predicate ThunksOk(w: World, thunks: seq<Thunk>) {
    |thunks| == |w.thunks| && forall t :: 0 <= t < |thunks| ==> ThunkOk(w, thunks[t], w.thunks[t])
  }

  /** No slot is left unfilled, except in the environments listed. */
  ghost predicate Complete(cells: seq<EnvCell>, except: set<nat>) {
    forall a, i :: 0 <= a < |cells| && a !in except && 0 <= i < |cells[a].values| ==> cells[a].values[i] != Invalid
  }

  /** How thunks may change: black holes stay, results stay, a suspended
      computation stays as it was or gets its result, new thunks are no black holes. */
  ghost predicate ThunksEvolve(a: seq<Thunk>, b: seq<Thunk>) {
    |a| <= |b| &&
    (forall t :: 0 <= t < |a| ==> ThunkEvolves(a[t], b[t])) &&
    (forall t :: |a| <= t < |b| ==> !b[t].BlackHole?)
  }

  predicate ThunkEvolves(a: Thunk, b: Thunk) {
    b == a || (a.Pending? && b.Resolved?)
  }

  lemma EnvsMono(w: World, w': World, cells: seq<EnvCell>, a: nat)
    requires Extends(w, w') && a < |cells| <= |w.envs| && UpOk(w, cells[a].up, w.envs[a], a)
    requires SlotsOk(w, cells[a].values, w.envs[a])
    ensures UpOk(w', cells[a].up, w'.envs[a], a) && SlotsOk(w', cells[a].values, w'.envs[a])
  {
    var env, values := w.envs[a], cells[a].values;
    forall i | 0 <= i < |values| && values[i] != Invalid ensures Stands(w', values[i], Slot(env, i)) {
      StandsMono(w, w', values[i], Slot(env, i));
    }
  }

  lemma ThunkMono(w: World, w': World, th: Thunk, c: Closure)
    requires Extends(w, w') && ThunkOk(w, th, c)
    ensures ThunkOk(w', th, c)
  {
    if th.Resolved? { StandsMono(w, w', th.v, c); }
  }

  lemma ThunksMono(w: World, w': World, thunks: seq<Thunk>)
    requires Extends(w, w') && w.thunks == w'.thunks && ThunksOk(w, thunks)
    ensures ThunksOk(w', thunks)
  {
    forall t | 0 <= t < |thunks| ensures ThunkOk(w', thunks[t], w'.thunks[t]) {
      ThunkMono(w, w', thunks[t], w.thunks[t]);
    }
  }
}
