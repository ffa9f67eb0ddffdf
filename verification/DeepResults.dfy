/** First-order results: forcing a value with everything inside it, compared with the
    data the by-name interpreter gives. */
module DeepResults {
  import opened Syntax
  import opened Binder
  import opened Semantics
  import opened BindingTheorem
  import opened Denotation
  import opened HeapRelation
  import opened Machine
  import opened Programs

  /** Fully forced values; a function shows only that it is one. */
  datatype Data = DLit(lit: Literal) | DList(elems: seq<Data>) | DAttrs(attrs: map<Symbol, Data>) | DFunction

  /** With fuel `f`, less one per level of nesting, re-evaluation of `c` and of
      everything inside it gives the data `d`. */
  ghost predicate DeepIs(f: nat, mode: Mode, c: Closure, d: Data)
    decreases d, 1
  {
    var r := Semantics.Force(f, mode, c);
    r.Ok? && ValueIs(f, mode, r.value, d)
  }

  ghost predicate ValueIs(f: nat, mode: Mode, v: Value, d: Data)
    decreases d, 0
  {
    match v
    case VLit(l) => d == DLit(l)
    case VLambda(_, _, _) => d == DFunction
    case VList(cs) =>
      d.DList? && f > 0 && |d.elems| == |cs| && forall i :: 0 <= i < |cs| ==> DeepIs(f - 1, mode, cs[i], d.elems[i])
    case VAttrs(m) =>
      d.DAttrs? && f > 0 && d.attrs.Keys == m.Keys && forall x :: x in m ==> DeepIs(f - 1, mode, m[x], d.attrs[x])
  }

  /** The same without fuel, for displacements. */
  ghost predicate DeepDen(c: Closure, d: Data)
    decreases d, 1
  {
    Den(c).Some? && ValueDen(Den(c).value, d)
  }

  ghost predicate ValueDen(v: Value, d: Data)
    decreases d, 0
  {
    match v
    case VLit(l) => d == DLit(l)
    case VLambda(_, _, _) => d == DFunction
    case VList(cs) => d.DList? && |d.elems| == |cs| && forall i :: 0 <= i < |cs| ==> DeepDen(cs[i], d.elems[i])
    case VAttrs(m) => d.DAttrs? && d.attrs.Keys == m.Keys && forall x :: x in m ==> DeepDen(m[x], d.attrs[x])
  }

  // --- binding ---

  /** Binding preserves first-order results exactly, at every fuel. */
  lemma {:induction false} DeepAgrees(f: nat, c: Closure, d: Data)
    ensures DeepIs(f, ByDispl, BoundClosure(c), d) <==> DeepIs(f, ByName, c, d)
    decreases d, 1
  {
    ForceAgrees(f, c);
    var r := Semantics.Force(f, ByName, c);
    if r.Ok? { ValueAgrees(f, r.value, d); }
  }

  lemma {:induction false} ValueAgrees(f: nat, v: Value, d: Data)
    ensures ValueIs(f, ByDispl, BoundValue(v), d) <==> ValueIs(f, ByName, v, d)
    decreases d, 0
  {
    hide BoundClosure, DeepIs;
    match v
    case VList(cs) =>
      if d.DList? && f > 0 && |d.elems| == |cs| {
        forall i | 0 <= i < |cs|
          ensures DeepIs(f - 1, ByDispl, BoundSeq(cs)[i], d.elems[i]) <==> DeepIs(f - 1, ByName, cs[i], d.elems[i])
        {
          DeepAgrees(f - 1, cs[i], d.elems[i]);
        }
      }
    case VAttrs(m) =>
      if d.DAttrs? && f > 0 && d.attrs.Keys == m.Keys {
        forall x | x in m
          ensures DeepIs(f - 1, ByDispl, BoundMap(m)[x], d.attrs[x]) <==> DeepIs(f - 1, ByName, m[x], d.attrs[x])
        {
          DeepAgrees(f - 1, m[x], d.attrs[x]);
        }
      }
    case _ =>
  }

  // --- fuel ---

  lemma {:induction false} DeepMono(f: nat, g: nat, c: Closure, d: Data)
    requires f <= g && DeepIs(f, ByDispl, c, d)
    ensures DeepIs(g, ByDispl, c, d)
    decreases d, 1
  {
    ForceMono(f, g, ByDispl, c);
    ValueMono(f, g, Semantics.Force(f, ByDispl, c).value, d);
  }

  lemma {:induction false} ValueMono(f: nat, g: nat, v: Value, d: Data)
    requires f <= g && ValueIs(f, ByDispl, v, d)
    ensures ValueIs(g, ByDispl, v, d)
    decreases d, 0
  {
    hide DeepIs;
    match v
    case VList(cs) => forall i | 0 <= i < |cs| { DeepMono(f - 1, g - 1, cs[i], d.elems[i]); }
    case VAttrs(m) => forall x | x in m { DeepMono(f - 1, g - 1, m[x], d.attrs[x]); }
    case _ =>
  }

  /** Data that exists is reached with some fuel. */
  lemma {:induction false} DeepFuel(c: Closure, d: Data) returns (f: nat)
    requires DeepDen(c, d)
    ensures DeepIs(f, ByDispl, c, d)
    decreases d, 1
  {
    var g := ValueFuel(Den(c).value, d);
    f := DenFuel(g, c);
    ValueMono(g, f, Den(c).value, d);
  }

  lemma {:induction false} ValueFuel(v: Value, d: Data) returns (f: nat)
    requires ValueDen(v, d)
    ensures ValueIs(f, ByDispl, v, d)
    decreases d, 0
  {
    hide DeepIs, DeepDen;
    f := 1;
    match v
    case VList(cs) =>
      for n := 0 to |cs|
        invariant f > 0 && forall i :: 0 <= i < n ==> DeepIs(f - 1, ByDispl, cs[i], d.elems[i])
      {
        var g := DeepFuel(cs[n], d.elems[n]);
        DeepMono(g, f + g, cs[n], d.elems[n]);
        forall i | 0 <= i < n { DeepMono(f - 1, f + g, cs[i], d.elems[i]); }
        f := f + g + 1;
      }
    case VAttrs(m) =>
      var rest := m.Keys;
      while rest != {}
        invariant f > 0 && rest <= m.Keys
        invariant forall x :: x in m && x !in rest ==> DeepIs(f - 1, ByDispl, m[x], d.attrs[x])
        decreases rest
      {
        var y :| y in rest;
        var g := DeepFuel(m[y], d.attrs[y]);
        DeepMono(g, f + g, m[y], d.attrs[y]);
        forall x | x in m && x !in rest { DeepMono(f - 1, f + g, m[x], d.attrs[x]); }
        f, rest := f + g + 1, rest - {y};
      }
    case _ =>
  }

  lemma FindLeastForce(c: Closure) returns (k: nat)
    ensures forall f: nat :: Timely(Semantics.Force(f, ByDispl, c)) ==> k <= f && Timely(Semantics.Force(k, ByDispl, c))
  {
    k := 0;
    if f: nat :| Timely(Semantics.Force(f, ByDispl, c)) {
      k := Least(f, c);
      forall g: nat | Timely(Semantics.Force(g, ByDispl, c))
        ensures k <= g
      {
        if g < k { ForceMono(g, k - 1, ByDispl, c); }
      }
    }
  }

  // --- the machine ---

  /** Whatever data `c`, a value or its parts have within the fuel is the result. */
  ghost predicate FindsDeep(fuel: nat, c: Closure, r: Result<Data>) {
    forall f: nat, d :: f <= fuel && DeepIs(f, ByDispl, c, d) ==> r == Ok(d)
  }

  ghost predicate FindsValue(fuel: nat, n: Value, r: Result<Data>) {
    forall f: nat, d :: f <= fuel && ValueIs(f, ByDispl, n, d) ==> r == Ok(d)
  }

  ghost predicate ElemsAre(f: nat, cs: seq<Closure>, ds: seq<Data>) {
    |ds| == |cs| && forall i :: 0 <= i < |cs| ==> DeepIs(f, ByDispl, cs[i], ds[i])
  }

  ghost predicate FindsElems(fuel: nat, cs: seq<Closure>, r: Result<seq<Data>>) {
    forall f: nat, ds :: f <= fuel && ElemsAre(f, cs, ds) ==> r == Ok(ds)
  }

  ghost predicate AttrsAre(f: nat, m: map<Symbol, Closure>, ds: map<Symbol, Data>) {
    ds.Keys == m.Keys && forall x :: x in m ==> DeepIs(f, ByDispl, m[x], ds[x])
  }

  ghost predicate FindsAttrs(fuel: nat, m: map<Symbol, Closure>, r: Result<map<Symbol, Data>>) {
    forall f: nat, ds :: f <= fuel && AttrsAre(f, m, ds) ==> r == Ok(ds)
  }

  ghost predicate Ready(ev: Evaluator)
    reads ev
  {
    ev.Valid() && Complete(ev.cells, {}) && ev.forcing == []
  }

  lemma ForceFailed(fuel: nat, c: Closure, k: nat, u: Result<MValue>)
    requires forall f: nat :: Timely(Semantics.Force(f, ByDispl, c)) ==>
      k <= f && Timely(Semantics.Force(k, ByDispl, c))
    requires u.Err? && (Timely(Semantics.Force(k, ByDispl, c)) ==> Agrees(u, Semantics.Force(k, ByDispl, c), k, fuel))
    ensures FindsDeep(fuel, c, Err(u.error))
  {
    forall f: nat, d | f <= fuel
      ensures !DeepIs(f, ByDispl, c, d)
    {
      if Timely(Semantics.Force(f, ByDispl, c)) { ForceMono(k, f, ByDispl, c); }
    }
  }

  lemma ForceSucceeded(fuel: nat, c: Closure, r: Result<Data>)
    requires Den(c).Some? && FindsValue(fuel, Den(c).value, r) && (r.Ok? ==> ValueDen(Den(c).value, r.value))
    ensures FindsDeep(fuel, c, r) && (r.Ok? ==> DeepDen(c, r.value))
  {
    forall f: nat, d | f <= fuel && DeepIs(f, ByDispl, c, d)
      ensures r == Ok(d)
    {
      DenIs(f, c);
      assert ValueIs(f, ByDispl, Den(c).value, d);
    }
  }

  /** `forceValueDeep`, returning what it has forced. */
  method ForceDeep(ev: Evaluator, fuel: nat, v: MValue, ghost c: Closure) returns (r: Result<Data>)
    requires Ready(ev) && Stands(ev.w, v, c)
    modifies ev
    ensures Ready(ev) && Later(old(ev.Now()), ev.Now())
    ensures r.Ok? ==> DeepDen(c, r.value)
    ensures FindsDeep(fuel, c, r)
    decreases fuel, 1
  {
    hide DeepIs, ValueIs, DeepDen, ValueDen, FindsDeep, FindsValue;
    ghost var k := FindLeastForce(c);
    ghost var s0 := ev.Now();
    var u := ev.Force(fuel, v, c, k);
    if u.Err? {
      ForceFailed(fuel, c, k, u);
      return Err(u.error);
    }
    ghost var s1 := ev.Now();
    r := ForceParts(ev, fuel, u.value, Den(c).value);
    LaterTrans(s0, s1, ev.Now());
    ForceSucceeded(fuel, c, r);
  }

  method ForceParts(ev: Evaluator, fuel: nat, v: MValue, ghost n: Value) returns (r: Result<Data>)
    requires Ready(ev) && Represents(ev.w, v, n)
    modifies ev
    ensures Ready(ev) && Later(old(ev.Now()), ev.Now())
    ensures r.Ok? ==> ValueDen(n, r.value)
    ensures FindsValue(fuel, n, r)
    decreases fuel, 0
  {
    hide DeepIs, DeepDen;
    match v {
      case MLit(l) => r := Ok(DLit(l));
      case MLambda(_, _, _) => r := Ok(DFunction);
      case MList(vs) =>
        if fuel == 0 { return Err(Timeout); }
        var ds := ForceElems(ev, fuel - 1, vs, n.elems);
        r := if ds.Ok? then Ok(DList(ds.value)) else Err(ds.error);
        ListFinds(fuel, n, ds, r);
      case MAttrs(m) =>
        if fuel == 0 { return Err(Timeout); }
        var ds := ForceAttrs(ev, fuel - 1, m, n.attrs);
        r := if ds.Ok? then Ok(DAttrs(ds.value)) else Err(ds.error);
        AttrsFinds(fuel, n, ds, r);
    }
  }

  lemma ListFinds(fuel: nat, n: Value, ds: Result<seq<Data>>, r: Result<Data>)
    requires n.VList? && fuel > 0 && FindsElems(fuel - 1, n.elems, ds)
    requires r == if ds.Ok? then Ok(DList(ds.value)) else Err(ds.error)
    ensures FindsValue(fuel, n, r)
  {
    hide DeepIs;
    forall f: nat, d | f <= fuel && ValueIs(f, ByDispl, n, d)
      ensures r == Ok(d)
    {
      assert ElemsAre(f - 1, n.elems, d.elems);
    }
  }

  lemma AttrsFinds(fuel: nat, n: Value, ds: Result<map<Symbol, Data>>, r: Result<Data>)
    requires n.VAttrs? && fuel > 0 && FindsAttrs(fuel - 1, n.attrs, ds)
    requires r == if ds.Ok? then Ok(DAttrs(ds.value)) else Err(ds.error)
    ensures FindsValue(fuel, n, r)
  {
    hide DeepIs;
    forall f: nat, d | f <= fuel && ValueIs(f, ByDispl, n, d)
      ensures r == Ok(d)
    {
      assert AttrsAre(f - 1, n.attrs, d.attrs);
    }
  }

  method ForceElems(ev: Evaluator, fuel: nat, vs: seq<MValue>, ghost cs: seq<Closure>) returns (r: Result<seq<Data>>)
    requires Ready(ev) && SeqStands(ev.w, vs, cs)
    modifies ev
    ensures Ready(ev) && Later(old(ev.Now()), ev.Now())
    ensures r.Ok? ==> |r.value| == |cs| && forall i :: 0 <= i < |cs| ==> DeepDen(cs[i], r.value[i])
    ensures FindsElems(fuel, cs, r)
    decreases fuel, 2
  {
    hide DeepIs, DeepDen;
    ghost var s0 := ev.Now();
    var out: seq<Data> := [];
    for n := 0 to |vs|
      invariant Ready(ev) && Later(s0, ev.Now()) && SeqStands(ev.w, vs, cs) && |out| == n
      invariant forall i :: 0 <= i < n ==> DeepDen(cs[i], out[i]) && FindsDeep(fuel, cs[i], Ok(out[i]))
    {
      ghost var s1 := ev.Now();
      var d := ForceDeep(ev, fuel, vs[n], cs[n]);
      LaterTrans(s0, s1, ev.Now());
      SeqMono(s1.w, ev.w, vs, cs);
      if d.Err? {
        ElemFailed(fuel, cs, n, d.error);
        return Err(d.error);
      }
      out := out + [d.value];
    }
    ElemsFound(fuel, cs, out);
    return Ok(out);
  }

  lemma ElemFailed(fuel: nat, cs: seq<Closure>, i: nat, e: Error)
    requires i < |cs| && FindsDeep(fuel, cs[i], Err(e))
    ensures FindsElems(fuel, cs, Err(e))
  {
    hide DeepIs;
    forall f: nat, ds | f <= fuel && |ds| == |cs|
      ensures !ElemsAre(f, cs, ds)
    {
      assert DeepIs(f, ByDispl, cs[i], ds[i]) ==> false;
    }
  }

  lemma ElemsFound(fuel: nat, cs: seq<Closure>, out: seq<Data>)
    requires |out| == |cs| && forall i :: 0 <= i < |cs| ==> FindsDeep(fuel, cs[i], Ok(out[i]))
    ensures FindsElems(fuel, cs, Ok(out))
  {
    hide DeepIs;
    forall f: nat, ds | f <= fuel && ElemsAre(f, cs, ds)
      ensures out == ds
    {
      forall i | 0 <= i < |cs|
        ensures out[i] == ds[i]
      {
        assert FindsDeep(fuel, cs[i], Ok(out[i])) && DeepIs(f, ByDispl, cs[i], ds[i]);
      }
    }
  }

  method ForceAttrs(ev: Evaluator, fuel: nat, m: map<Symbol, MValue>, ghost n: map<Symbol, Closure>)
    returns (r: Result<map<Symbol, Data>>)
    requires Ready(ev) && MapStands(ev.w, m, n)
    modifies ev
    ensures Ready(ev) && Later(old(ev.Now()), ev.Now())
    ensures r.Ok? ==> r.value.Keys == n.Keys && forall x :: x in n ==> DeepDen(n[x], r.value[x])
    ensures FindsAttrs(fuel, n, r)
    decreases fuel, 2
  {
    hide DeepIs, DeepDen;
    ghost var s0 := ev.Now();
    var out: map<Symbol, Data> := map[];
    var rest := m.Keys;
    while rest != {}
      invariant Ready(ev) && Later(s0, ev.Now()) && MapStands(ev.w, m, n)
      invariant rest <= m.Keys && out.Keys == m.Keys - rest
      invariant forall x :: x in out ==> DeepDen(n[x], out[x]) && FindsDeep(fuel, n[x], Ok(out[x]))
      decreases rest
    {
      var x :| x in rest;
      ghost var s1 := ev.Now();
      var d := ForceDeep(ev, fuel, m[x], n[x]);
      LaterTrans(s0, s1, ev.Now());
      MapMono(s1.w, ev.w, m, n);
      if d.Err? {
        AttrFailed(fuel, n, x, d.error);
        return Err(d.error);
      }
      out, rest := out[x := d.value], rest - {x};
    }
    AttrsFound(fuel, n, out);
    return Ok(out);
  }

  lemma AttrFailed(fuel: nat, m: map<Symbol, Closure>, x: Symbol, e: Error)
    requires x in m && FindsDeep(fuel, m[x], Err(e))
    ensures FindsAttrs(fuel, m, Err(e))
  {
    hide DeepIs;
    forall f: nat, ds: map<Symbol, Data> | f <= fuel && ds.Keys == m.Keys
      ensures !AttrsAre(f, m, ds)
    {
      assert DeepIs(f, ByDispl, m[x], ds[x]) ==> false;
    }
  }

  lemma AttrsFound(fuel: nat, m: map<Symbol, Closure>, out: map<Symbol, Data>)
    requires out.Keys == m.Keys && forall x :: x in m ==> FindsDeep(fuel, m[x], Ok(out[x]))
    ensures FindsAttrs(fuel, m, Ok(out))
  {
    hide DeepIs;
    forall f: nat, ds | f <= fuel && AttrsAre(f, m, ds)
      ensures out == ds
    {
      forall x | x in m
        ensures out[x] == ds[x]
      {
        assert FindsDeep(fuel, m[x], Ok(out[x])) && DeepIs(f, ByDispl, m[x], ds[x]);
      }
    }
  }

  /** Binds a program and evaluates it completely. The data that the interpreter without
      displacements and memoisation gives is the only result, and is found whenever the
      fuel allows. */
  method RunDeep(fuel: nat, base: seq<(Symbol, Literal)>, e: Expr) returns (r: Result<Data>)
    ensures r.Ok? ==> exists f: nat :: DeepIs(f, ByName, Closure(BaseEnv(base), e), r.value)
    ensures forall f: nat, d :: f <= fuel && DeepIs(f, ByName, Closure(BaseEnv(base), e), d) ==> r == Ok(d)
  {
    hide DeepIs, DeepDen;
    ghost var c := Closure(BaseEnv(base), e);
    var bound := Bind(SVars(Displacements(FrameNames(ArgFrame(BaseSlots(base)))), SNil), e);
    BaseIsBound(base);
    assert BoundClosure(c) == Closure(BaseEnv(base), bound);
    var ev := new Evaluator(base);
    var v := ev.MakeThunk(1, bound);
    r := ForceDeep(ev, fuel, v, BoundClosure(c));
    if r.Ok? {
      ghost var f := DeepFuel(BoundClosure(c), r.value);
      DeepAgrees(f, c, r.value);
    }
    forall f: nat, d | f <= fuel && DeepIs(f, ByName, c, d)
      ensures r == Ok(d)
    {
      DeepAgrees(f, c, d);
    }
  }
}
