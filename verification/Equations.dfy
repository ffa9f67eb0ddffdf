/** Big-step equations for meanings, one per evaluation rule. */
module Equations {
  import opened Options
  import opened Syntax
  import opened Semantics
  import opened Denotation

  lemma LitRule(env: Env, l: Literal)
    ensures Den(Closure(env, Lit(l))) == Some(VLit(l))
  {
    DenIs(1, Closure(env, Lit(l)));
  }

  lemma ListRule(env: Env, es: seq<Expr>)
    ensures Den(Closure(env, List(es))) == Some(VList(Closures(env, es)))
  {
    DenIs(1, Closure(env, List(es)));
  }

  lemma LambdaRule(env: Env, pat: Pattern, body: Expr)
    ensures Den(Closure(env, Lambda(pat, body))) == Some(VLambda(env, pat, body))
  {
    DenIs(1, Closure(env, Lambda(pat, body)));
  }

  lemma DoneRule(v: Value)
    ensures Den(Done(v)) == Some(v)
  {
    DenIs(0, Done(v));
  }

  lemma VarRule(env: Env, x: Symbol, ref: VarRef, c: Closure)
    requires LookupDen(env, x, ref) == Some(c) && Den(c).Some?
    ensures Den(Closure(env, Var(x, ref))) == Den(c)
  {
    var f := LookupFuel(0, env, x, ref);
    var g := DenFuel(f, c);
    LookupMono(f, g, ByDispl, env, x, ref);
    DenIs(g + 1, Closure(env, Var(x, ref)));
  }

  lemma LexicalRule(env: Env, x: Symbol, level: nat, displ: nat)
    requires UpN(env, level).Some? && displ < SlotCount(UpN(env, level).value)
    ensures LookupDen(env, x, Lexical(level, displ)) == Some(Slot(UpN(env, level).value, displ))
  {
    LookupIs(0, env, x, Lexical(level, displ));
  }

  lemma FromWithRule(env: Env, x: Symbol, level: nat, w: WithRef)
    requires UpN(env, level).Some? && WithsDen(UpN(env, level).value, w, x).Some?
    ensures LookupDen(env, x, FromWith(level, w)) == WithsDen(UpN(env, level).value, w, x)
  {
    var f := WithsFuel(0, UpN(env, level).value, w, x);
    LookupIs(f, env, x, FromWith(level, w));
  }

  lemma WithFoundRule(env: Env, w: WithRef, x: Symbol, m: map<Symbol, Closure>)
    requires w != NoWith && SlotCount(env) > 0
    requires Den(Slot(env, 0)) == Some(VAttrs(m)) && x in m
    ensures WithsDen(env, w, x) == Some(m[x])
  {
    var f := DenFuel(0, Slot(env, 0));
    WithsIs(f, env, w, x);
  }

  lemma WithNextRule(env: Env, w: WithRef, x: Symbol, m: map<Symbol, Closure>)
    requires w != NoWith && w.parentWith != NoWith && SlotCount(env) > 0
    requires Den(Slot(env, 0)) == Some(VAttrs(m)) && x !in m
    requires UpN(env, w.prevWith).Some? && WithsDen(UpN(env, w.prevWith).value, w.parentWith, x).Some?
    ensures WithsDen(env, w, x) == WithsDen(UpN(env, w.prevWith).value, w.parentWith, x)
  {
    var up := UpN(env, w.prevWith).value;
    var f := WithsFuel(0, up, w.parentWith, x);
    var g := DenFuel(f, Slot(env, 0));
    WithsByChainMono(f, g, up, w.parentWith, x);
    WithsIs(g, env, w, x);
  }

  lemma InheritFromRule(env: Env, i: nat)
    requires i < SlotCount(env) && Den(Slot(env, i)).Some?
    ensures Den(Closure(env, InheritFrom(i))) == Den(Slot(env, i))
  {
    var f := DenFuel(0, Slot(env, i));
    DenIs(f + 1, Closure(env, InheritFrom(i)));
  }

  // --- attribute paths ---

  /** The name a path component stands for. */
  ghost function NameDen(env: Env, a: AttrName): Option<Symbol> {
    if a.StaticName? then Some(a.name)
    else
      var v := Den(Closure(env, a.e));
      if v.Some? && v.value.VLit? && v.value.lit.LStr? then Some(v.value.lit.s) else None
  }

  ghost function WalkOneDen(env: Env, a: AttrName, c: Closure): Option<Reached> {
    if NameDen(env, a).Some? && Den(c).Some? then Some(LookInto(Den(c).value, NameDen(env, a).value)) else None
  }

  /** Where a path leads from `c`; the order of evaluation does not matter. */
  ghost function PathDen(env: Env, path: seq<AttrName>, c: Closure): Option<Reached>
    decreases |path|
  {
    if path == [] then Some(There(c))
    else
      var r := WalkOneDen(env, path[0], c);
      if r.Some? && r.value.There? then PathDen(env, path[1..], r.value.c) else r
  }

  lemma NameFuel(lo: nat, env: Env, a: AttrName) returns (f: nat)
    requires NameDen(env, a).Some?
    ensures f >= lo && GetName(f, ByDispl, env, a) == Ok(NameDen(env, a).value)
  {
    f := lo;
    if a.DynamicName? { f := DenFuel(lo, Closure(env, a.e)); }
  }

  lemma WalkOneFuel(lo: nat, env: Env, nameFirst: bool, a: AttrName, c: Closure) returns (f: nat)
    requires WalkOneDen(env, a, c).Some?
    ensures f >= lo && WalkOne(f, ByDispl, env, nameFirst, a, c) == Ok(WalkOneDen(env, a, c).value)
  {
    var g := NameFuel(lo, env, a);
    f := DenFuel(g, c);
    NameMono(g, f, ByDispl, env, a);
  }

  lemma {:induction false} PathFuel(lo: nat, env: Env, nameFirst: bool, path: seq<AttrName>, c: Closure)
    returns (f: nat)
    requires PathDen(env, path, c).Some?
    ensures f >= lo && WalkPath(f, ByDispl, env, nameFirst, path, c) == Ok(PathDen(env, path, c).value)
    decreases |path|
  {
    f := lo;
    if path != [] {
      var r := WalkOneDen(env, path[0], c).value;
      var g := lo;
      if r.There? { g := PathFuel(lo, env, nameFirst, path[1..], r.c); }
      f := WalkOneFuel(g, env, nameFirst, path[0], c);
      if r.There? { PathMono(g, f, ByDispl, env, nameFirst, path[1..], r.c); }
    }
  }

  lemma SelectRule(env: Env, s: Expr, path: seq<AttrName>, def: Option<Expr>, v: Value, c: Closure)
    requires Den(Closure(env, s)) == Some(v) && PathDen(env, path, Done(v)) == Some(There(c)) && Den(c).Some?
    ensures Den(Closure(env, Select(s, path, def))) == Den(c)
  {
    var f := DenFuel(0, Closure(env, s));
    var g := DenFuel(f, c);
    var h := PathFuel(g, env, true, path, Done(v));
    ForceMono(f, h, ByDispl, Closure(env, s));
    ForceMono(g, h, ByDispl, c);
    DenIs(h + 1, Closure(env, Select(s, path, def)));
  }

  lemma DefaultRule(env: Env, s: Expr, path: seq<AttrName>, def: Expr, v: Value)
    requires Den(Closure(env, s)) == Some(v)
    requires PathDen(env, path, Done(v)).Some? && PathDen(env, path, Done(v)).value.NotThere?
    requires Den(Closure(env, def)).Some?
    ensures Den(Closure(env, Select(s, path, Some(def)))) == Den(Closure(env, def))
  {
    var f := DenFuel(0, Closure(env, s));
    var g := DenFuel(f, Closure(env, def));
    var h := PathFuel(g, env, true, path, Done(v));
    ForceMono(f, h, ByDispl, Closure(env, s));
    ForceMono(g, h, ByDispl, Closure(env, def));
    DenIs(h + 1, Closure(env, Select(s, path, Some(def))));
  }

  lemma HasAttrRule(env: Env, s: Expr, path: seq<AttrName>, v: Value)
    requires Den(Closure(env, s)) == Some(v) && PathDen(env, path, Done(v)).Some?
    ensures Den(Closure(env, HasAttr(s, path))) == Some(VLit(LBool(PathDen(env, path, Done(v)).value.There?)))
  {
    var f := DenFuel(0, Closure(env, s));
    var h := PathFuel(f, env, false, path, Done(v));
    ForceMono(f, h, ByDispl, Closure(env, s));
    DenIs(h + 1, Closure(env, HasAttr(s, path)));
  }

  // --- sets and functions ---

  function InnerEnv(env: Env, e: Expr): Env
    requires e.Set?
  {
    if e.recursive then Cons(RecFrame(e.attrs, e.froms), env) else env
  }

  lemma SetRule(env: Env, e: Expr)
    requires e.Set? && !(e.recursive && IsOverriding(e.attrs))
    requires DynsDen(InnerEnv(env, e), e.dyns, AttrMap(InnerEnv(env, e), env, e.froms, e.attrs)).Some?
    ensures Den(Closure(env, e)) == DynsDen(InnerEnv(env, e), e.dyns, AttrMap(InnerEnv(env, e), env, e.froms, e.attrs))
  {
    var f := DynsFuel(0, InnerEnv(env, e), e.dyns, AttrMap(InnerEnv(env, e), env, e.froms, e.attrs));
    DenIs(f + 1, Closure(env, e));
  }

  lemma DynsNilRule(env: Env, m: map<Symbol, Closure>)
    ensures DynsDen(env, [], m) == Some(VAttrs(m))
  {
    DynsIs(0, env, [], m);
  }

  lemma DynsSkipRule(env: Env, dyns: seq<DynamicDef>, m: map<Symbol, Closure>)
    requires dyns != [] && Den(Closure(env, dyns[0].nameExpr)) == Some(VLit(LNull))
    requires DynsDen(env, dyns[1..], m).Some?
    ensures DynsDen(env, dyns, m) == DynsDen(env, dyns[1..], m)
  {
    var f := DynsFuel(0, env, dyns[1..], m);
    var g := DenFuel(f, Closure(env, dyns[0].nameExpr));
    DynsMono(f, g, ByDispl, env, dyns[1..], m);
    DynsIs(g, env, dyns, m);
  }

  lemma DynsAddRule(env: Env, dyns: seq<DynamicDef>, m: map<Symbol, Closure>, x: Symbol)
    requires dyns != [] && Den(Closure(env, dyns[0].nameExpr)) == Some(VLit(LStr(x))) && x !in m
    requires DynsDen(env, dyns[1..], m[x := Closure(env, dyns[0].valueExpr)]).Some?
    ensures DynsDen(env, dyns, m) == DynsDen(env, dyns[1..], m[x := Closure(env, dyns[0].valueExpr)])
  {
    var m' := m[x := Closure(env, dyns[0].valueExpr)];
    var f := DynsFuel(0, env, dyns[1..], m');
    var g := DenFuel(f, Closure(env, dyns[0].nameExpr));
    DynsMono(f, g, ByDispl, env, dyns[1..], m');
    DynsIs(g, env, dyns, m);
  }

  lemma CallRule(env: Env, fun: Expr, args: seq<Expr>, v: Value)
    requires Den(Closure(env, fun)) == Some(v) && ApplyDen(v, Closures(env, args)).Some?
    ensures Den(Closure(env, Call(fun, args))) == ApplyDen(v, Closures(env, args))
  {
    var f := ApplyFuel(0, v, Closures(env, args));
    var g := DenFuel(f, Closure(env, fun));
    ApplyMono(f, g, ByDispl, v, Closures(env, args));
    DenIs(g + 1, Closure(env, Call(fun, args)));
  }

  lemma ApplyNilRule(v: Value)
    ensures ApplyDen(v, []) == Some(v)
  {
    ApplyIs(0, v, []);
  }

  lemma ApplyConsRule(v: Value, args: seq<Closure>, r: Value)
    requires args != [] && ApplyOneDen(v, args[0]) == Some(r) && ApplyDen(r, args[1..]).Some?
    ensures ApplyDen(v, args) == ApplyDen(r, args[1..])
  {
    var f := ApplyFuel(0, r, args[1..]);
    var g := ApplyOneFuel(f + 1, v, args[0]);
    ApplyMono(f, g - 1, ByDispl, r, args[1..]);
    ApplyIs(g, v, args);
  }

  lemma BetaRule(env: Env, pat: Pattern, body: Expr, arg: Closure, env2: Env)
    requires MatchDen(env, pat, arg) == Some(env2) && Den(Closure(env2, body)).Some?
    ensures ApplyOneDen(VLambda(env, pat, body), arg) == Den(Closure(env2, body))
  {
    var f := MatchFuel(0, env, pat, arg);
    var g := DenFuel(f, Closure(env2, body));
    MatchMono(f, g, ByDispl, env, pat, arg);
    ApplyOneIs(g + 1, VLambda(env, pat, body), arg);
  }

  lemma FunctorRule(m: map<Symbol, Closure>, arg: Closure, fv: Value)
    requires SYM_FUNCTOR in m && Den(m[SYM_FUNCTOR]) == Some(fv)
    requires ApplyDen(fv, [Done(VAttrs(m)), arg]).Some?
    ensures ApplyOneDen(VAttrs(m), arg) == ApplyDen(fv, [Done(VAttrs(m)), arg])
  {
    var args := [Done(VAttrs(m)), arg];
    var f := ApplyFuel(0, fv, args);
    var g := DenFuel(f, m[SYM_FUNCTOR]);
    ApplyMono(f, g, ByDispl, fv, args);
    ApplyOneIs(g + 1, VAttrs(m), arg);
  }

  lemma SimpleMatchRule(env: Env, x: Symbol, arg: Closure)
    ensures MatchDen(env, SimplePattern(x), arg) == Some(Cons(ArgFrame([Given(x, arg)]), env))
  {
    MatchIs(0, env, SimplePattern(x), arg);
  }

  lemma AttrsMatchRule(env: Env, pat: Pattern, arg: Closure, m: map<Symbol, Closure>)
    requires pat.AttrsPattern? && Den(arg) == Some(VAttrs(m)) && AllGiven(pat.formals, m)
    requires pat.ellipsis || m.Keys <= FormalNames(pat.formals)
    ensures MatchDen(env, pat, arg) == Some(Cons(ArgFrame(ArgSlots(pat.arg, pat.formals, arg, m)), env))
  {
    var f := DenFuel(0, arg);
    MatchIs(f, env, pat, arg);
  }

  lemma LetRule(env: Env, attrs: seq<AttrDef>, froms: seq<Expr>, body: Expr)
    requires Den(Closure(Cons(RecFrame(attrs, froms), env), body)).Some?
    ensures Den(Closure(env, Let(attrs, froms, body))) == Den(Closure(Cons(RecFrame(attrs, froms), env), body))
  {
    var f := DenFuel(0, Closure(Cons(RecFrame(attrs, froms), env), body));
    DenIs(f + 1, Closure(env, Let(attrs, froms, body)));
  }

  lemma WithRule(env: Env, s: Expr, body: Expr, node: WithRef)
    requires Den(Closure(Cons(WithFrame(Closure(env, s)), env), body)).Some?
    ensures Den(Closure(env, With(s, body, node))) == Den(Closure(Cons(WithFrame(Closure(env, s)), env), body))
  {
    var f := DenFuel(0, Closure(Cons(WithFrame(Closure(env, s)), env), body));
    DenIs(f + 1, Closure(env, With(s, body, node)));
  }

  lemma IfRule(env: Env, c: Expr, t: Expr, e: Expr, b: bool)
    requires Den(Closure(env, c)) == Some(VLit(LBool(b)))
    requires Den(Closure(env, if b then t else e)).Some?
    ensures Den(Closure(env, If(c, t, e))) == Den(Closure(env, if b then t else e))
  {
    var f := DenFuel(0, Closure(env, c));
    var g := DenFuel(f, Closure(env, if b then t else e));
    ForceMono(f, g, ByDispl, Closure(env, c));
    DenIs(g + 1, Closure(env, If(c, t, e)));
  }

  lemma UpdateRule(env: Env, l: Expr, r: Expr, m1: map<Symbol, Closure>, m2: map<Symbol, Closure>)
    requires Den(Closure(env, l)) == Some(VAttrs(m1)) && Den(Closure(env, r)) == Some(VAttrs(m2))
    ensures Den(Closure(env, Update(l, r))) == Some(VAttrs(m1 + m2))
  {
    var f := DenFuel(0, Closure(env, l));
    var g := DenFuel(f, Closure(env, r));
    ForceMono(f, g, ByDispl, Closure(env, l));
    DenIs(g + 1, Closure(env, Update(l, r)));
  }

  // --- variables at a given fuel ---

  lemma LexicalEval(f: nat, env: Env, x: Symbol, ref: VarRef)
    requires f > 0 && ref.Lexical?
    ensures
      var up := UpN(env, ref.level);
      Eval(f, ByDispl, env, Var(x, ref)) ==
        if up.Some? && ref.displ < SlotCount(up.value) then Force(f - 1, ByDispl, Slot(up.value, ref.displ))
        else Err(Internal)
  {
    var r := Lookup(f - 1, ByDispl, env, x, ref);
    assert Eval(f, ByDispl, env, Var(x, ref)) == if r.Ok? then Force(f - 1, ByDispl, r.value) else Err(r.error);
  }

  lemma FromWithEval(f: nat, env: Env, x: Symbol, ref: VarRef)
    requires f > 0 && ref.FromWith? && UpN(env, ref.level).Some?
    ensures
      var r := WithsByChain(f - 1, UpN(env, ref.level).value, ref.fromWith, x);
      Eval(f, ByDispl, env, Var(x, ref)) == if r.Ok? then Force(f - 1, ByDispl, r.value) else Err(r.error)
  {
    var r := Lookup(f - 1, ByDispl, env, x, ref);
    assert r == WithsByChain(f - 1, UpN(env, ref.level).value, ref.fromWith, x);
    assert Eval(f, ByDispl, env, Var(x, ref)) == if r.Ok? then Force(f - 1, ByDispl, r.value) else Err(r.error);
  }
}
