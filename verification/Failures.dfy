/** Computations that end in an error, and one rule per way in which an error arises or
    is passed on. */
module Failures {
  import opened Options
  import opened Syntax
  import opened Semantics
  import opened Denotation
  import opened Equations

  /** Errors other than running out of fuel and meeting a black hole. */
  predicate Genuine(e: Error) {
    e != Timeout && e != InfiniteRecursion
  }

  // --- what it means to fail ---

  ghost predicate Fails(c: Closure, e: Error) {
    e != Timeout && exists f: nat :: Force(f, ByDispl, c) == Err(e)
  }

  lemma FailFuel(lo: nat, c: Closure, e: Error) returns (f: nat)
    requires Fails(c, e)
    ensures f >= lo && Force(f, ByDispl, c) == Err(e)
  {
    f :| Force(f, ByDispl, c) == Err(e);
    if f < lo { ForceMono(f, lo, ByDispl, c); f := lo; }
  }

  ghost predicate WithsFails(env: Env, w: WithRef, x: Symbol, e: Error) {
    e != Timeout && exists f: nat :: WithsByChain(f, env, w, x) == Err(e)
  }

  lemma WithsFailFuel(lo: nat, env: Env, w: WithRef, x: Symbol, e: Error) returns (f: nat)
    requires WithsFails(env, w, x, e)
    ensures f >= lo && WithsByChain(f, env, w, x) == Err(e)
  {
    f :| WithsByChain(f, env, w, x) == Err(e);
    if f < lo { WithsByChainMono(f, lo, env, w, x); f := lo; }
  }

  ghost predicate DynsFails(env: Env, dyns: seq<DynamicDef>, m: map<Symbol, Closure>, e: Error) {
    e != Timeout && exists f: nat :: EvalDyns(f, ByDispl, env, dyns, m) == Err(e)
  }

  lemma DynsFailFuel(lo: nat, env: Env, dyns: seq<DynamicDef>, m: map<Symbol, Closure>, e: Error) returns (f: nat)
    requires DynsFails(env, dyns, m, e)
    ensures f >= lo && EvalDyns(f, ByDispl, env, dyns, m) == Err(e)
  {
    f :| EvalDyns(f, ByDispl, env, dyns, m) == Err(e);
    if f < lo { DynsMono(f, lo, ByDispl, env, dyns, m); f := lo; }
  }

  ghost predicate ApplyFails(v: Value, args: seq<Closure>, e: Error) {
    e != Timeout && exists f: nat :: Apply(f, ByDispl, v, args) == Err(e)
  }

  lemma ApplyFailFuel(lo: nat, v: Value, args: seq<Closure>, e: Error) returns (f: nat)
    requires ApplyFails(v, args, e)
    ensures f >= lo && Apply(f, ByDispl, v, args) == Err(e)
  {
    f :| Apply(f, ByDispl, v, args) == Err(e);
    if f < lo { ApplyMono(f, lo, ByDispl, v, args); f := lo; }
  }

  ghost predicate ApplyOneFails(v: Value, arg: Closure, e: Error) {
    e != Timeout && exists f: nat :: f > 0 && ApplyOne(f, ByDispl, v, arg) == Err(e)
  }

  lemma ApplyOneFailFuel(lo: nat, v: Value, arg: Closure, e: Error) returns (f: nat)
    requires ApplyOneFails(v, arg, e)
    ensures f > 0 && f >= lo && ApplyOne(f, ByDispl, v, arg) == Err(e)
  {
    f :| f > 0 && ApplyOne(f, ByDispl, v, arg) == Err(e);
    if f < lo { ApplyOneMono(f, lo, ByDispl, v, arg); f := lo; }
  }

  ghost predicate MatchFails(env: Env, pat: Pattern, arg: Closure, e: Error) {
    e != Timeout && exists f: nat :: MatchPattern(f, ByDispl, env, pat, arg) == Err(e)
  }

  lemma MatchFailFuel(lo: nat, env: Env, pat: Pattern, arg: Closure, e: Error) returns (f: nat)
    requires MatchFails(env, pat, arg, e)
    ensures f >= lo && MatchPattern(f, ByDispl, env, pat, arg) == Err(e)
  {
    f :| MatchPattern(f, ByDispl, env, pat, arg) == Err(e);
    if f < lo { MatchMono(f, lo, ByDispl, env, pat, arg); f := lo; }
  }

  // --- variables ---

  lemma UnresolvedFails(env: Env, x: Symbol)
    ensures Fails(Closure(env, Var(x, Unresolved)), UndefinedVar)
  {
    assert Lookup(0, ByDispl, env, x, Unresolved) == Err(UndefinedVar);
    assert Force(1, ByDispl, Closure(env, Var(x, Unresolved))) == Err(UndefinedVar);
  }

  lemma LexicalFails(env: Env, x: Symbol, ref: VarRef, e: Error)
    requires ref.Lexical?
    requires var up := UpN(env, ref.level);
      if up.Some? && ref.displ < SlotCount(up.value) then Fails(Slot(up.value, ref.displ), e) else e == Internal
    ensures Fails(Closure(env, Var(x, ref)), e)
  {
    var up := UpN(env, ref.level);
    var f: nat := 0;
    if up.Some? && ref.displ < SlotCount(up.value) { f := FailFuel(0, Slot(up.value, ref.displ), e); }
    LexicalEval(f + 1, env, x, ref);
    assert Force(f + 1, ByDispl, Closure(env, Var(x, ref))) == Err(e);
  }

  lemma NoFrameFails(env: Env, x: Symbol, ref: VarRef)
    requires ref.FromWith? && UpN(env, ref.level).None?
    ensures Fails(Closure(env, Var(x, ref)), Internal)
  {
    assert Lookup(0, ByDispl, env, x, ref) == Err(Internal);
    assert Force(1, ByDispl, Closure(env, Var(x, ref))) == Err(Internal);
  }

  lemma FromWithFails(env: Env, x: Symbol, ref: VarRef, e: Error)
    requires ref.FromWith? && UpN(env, ref.level).Some?
    requires WithsFails(UpN(env, ref.level).value, ref.fromWith, x, e)
    ensures Fails(Closure(env, Var(x, ref)), e)
  {
    var f := WithsFailFuel(0, UpN(env, ref.level).value, ref.fromWith, x, e);
    FromWithEval(f + 1, env, x, ref);
    assert Force(f + 1, ByDispl, Closure(env, Var(x, ref))) == Err(e);
  }

  lemma FoundFails(env: Env, x: Symbol, ref: VarRef, c: Closure, e: Error)
    requires ref.FromWith? && UpN(env, ref.level).Some?
    requires WithsDen(UpN(env, ref.level).value, ref.fromWith, x) == Some(c) && Fails(c, e)
    ensures Fails(Closure(env, Var(x, ref)), e)
  {
    var up := UpN(env, ref.level).value;
    var f := WithsFuel(0, up, ref.fromWith, x);
    var g := FailFuel(f, c, e);
    WithsByChainMono(f, g, up, ref.fromWith, x);
    FromWithEval(g + 1, env, x, ref);
    assert Force(g + 1, ByDispl, Closure(env, Var(x, ref))) == Err(e);
  }

  /** The scope is missing, fails or is no set. */
  ghost predicate BadScope(env: Env, w: WithRef, e: Error) {
    if w == NoWith || SlotCount(env) == 0 then e == Internal
    else Fails(Slot(env, 0), e) || (e == TypeErr && Den(Slot(env, 0)).Some? && !Den(Slot(env, 0)).value.VAttrs?)
  }

  lemma ScopeFails(env: Env, w: WithRef, x: Symbol, e: Error)
    requires BadScope(env, w, e)
    ensures WithsFails(env, w, x, e)
  {
    var f: nat := 0;
    if w != NoWith && SlotCount(env) > 0 {
      if Fails(Slot(env, 0), e) { f := FailFuel(0, Slot(env, 0), e); } else { f := DenFuel(0, Slot(env, 0)); }
    }
    assert WithsByChain(f, env, w, x) == Err(e);
  }

  /** A walk past a scope without the name fails as its continuation does. */
  lemma NextScopeFails(env: Env, w: WithRef, x: Symbol, m: map<Symbol, Closure>, e: Error)
    requires w != NoWith && SlotCount(env) > 0 && Den(Slot(env, 0)) == Some(VAttrs(m)) && x !in m
    requires if w.parentWith == NoWith then e == UndefinedVar
      else if UpN(env, w.prevWith).None? then e == Internal
      else WithsFails(UpN(env, w.prevWith).value, w.parentWith, x, e)
    ensures WithsFails(env, w, x, e)
  {
    var f: nat := 0;
    if w.parentWith != NoWith && UpN(env, w.prevWith).Some? {
      f := WithsFailFuel(0, UpN(env, w.prevWith).value, w.parentWith, x, e);
    }
    var g := DenFuel(f, Slot(env, 0));
    if w.parentWith != NoWith && UpN(env, w.prevWith).Some? {
      WithsByChainMono(f, g, UpN(env, w.prevWith).value, w.parentWith, x);
    }
    assert WithsByChain(g, env, w, x) == Err(e);
  }

  // --- expressions ---

  lemma InheritFromFails(env: Env, i: nat, e: Error)
    requires if i < SlotCount(env) then Fails(Slot(env, i), e) else e == Internal
    ensures Fails(Closure(env, InheritFrom(i)), e)
  {
    var f: nat := 0;
    if i < SlotCount(env) { f := FailFuel(0, Slot(env, i), e); }
    assert Force(f + 1, ByDispl, Closure(env, InheritFrom(i))) == Err(e);
  }

  /** The expression that is evaluated first fails. */
  lemma FirstFails(env: Env, s: Expr, e: Expr, err: Error)
    requires Fails(Closure(env, s), err)
    requires match e
      case Select(s', _, _) => s' == s
      case HasAttr(s', _) => s' == s
      case If(c, _, _) => c == s
      case Update(l, _) => l == s
      case Call(fun, _) => fun == s
      case _ => false
    ensures Fails(Closure(env, e), err)
  {
    var f := FailFuel(0, Closure(env, s), err);
    assert Eval(f, ByDispl, env, s) == Err(err);
    assert Force(f + 1, ByDispl, Closure(env, e)) == Err(err);
  }

  /** What a path leads to fails, or its default, or there is none. */
  ghost predicate EndFails(env: Env, def: Option<Expr>, r: Reached, e: Error) {
    if r.There? then Fails(r.c, e)
    else if def.Some? then Fails(Closure(env, def.value), e)
    else e == if r.isSet then MissingAttr else TypeErr
  }

  lemma SelectFails(env: Env, s: Expr, path: seq<AttrName>, def: Option<Expr>, v: Value, e: Error)
    requires Den(Closure(env, s)) == Some(v)
    requires PathFails(env, true, path, Done(v), e) ||
      (PathDen(env, path, Done(v)).Some? && EndFails(env, def, PathDen(env, path, Done(v)).value, e))
    ensures Fails(Closure(env, Select(s, path, def)), e)
  {
    var f := DenFuel(0, Closure(env, s));
    var h;
    if PathFails(env, true, path, Done(v), e) {
      h := PathFailFuel(f, env, true, path, Done(v), e);
    } else {
      var r, g := PathDen(env, path, Done(v)).value, f;
      if r.There? { g := FailFuel(f, r.c, e); } else if def.Some? { g := FailFuel(f, Closure(env, def.value), e); }
      h := PathFuel(g, env, true, path, Done(v));
      if r.There? { ForceMono(g, h, ByDispl, r.c); }
      else if def.Some? { ForceMono(g, h, ByDispl, Closure(env, def.value)); }
    }
    ForceMono(f, h, ByDispl, Closure(env, s));
    assert Force(h + 1, ByDispl, Closure(env, Select(s, path, def))) == Err(e);
  }

  lemma HasAttrFails(env: Env, s: Expr, path: seq<AttrName>, v: Value, e: Error)
    requires Den(Closure(env, s)) == Some(v) && PathFails(env, false, path, Done(v), e)
    ensures Fails(Closure(env, HasAttr(s, path)), e)
  {
    var f := DenFuel(0, Closure(env, s));
    var h := PathFailFuel(f, env, false, path, Done(v), e);
    ForceMono(f, h, ByDispl, Closure(env, s));
    assert Force(h + 1, ByDispl, Closure(env, HasAttr(s, path))) == Err(e);
  }

  // --- attribute paths ---

  /** A name fails or is no string. */
  ghost predicate NameFails(env: Env, a: AttrName, e: Error) {
    a.DynamicName? &&
    var c := Closure(env, a.e);
    Fails(c, e) || (e == TypeErr && Den(c).Some? && NameDen(env, a).None?)
  }

  ghost predicate WalkOneFails(env: Env, nameFirst: bool, a: AttrName, c: Closure, e: Error) {
    if nameFirst then NameFails(env, a, e) || (NameDen(env, a).Some? && Fails(c, e))
    else Fails(c, e) || (Den(c).Some? && NameFails(env, a, e))
  }

  ghost predicate PathFails(env: Env, nameFirst: bool, path: seq<AttrName>, c: Closure, e: Error)
    decreases |path|
  {
    path != [] &&
    (WalkOneFails(env, nameFirst, path[0], c, e) ||
     var r := WalkOneDen(env, path[0], c);
     r.Some? && r.value.There? && PathFails(env, nameFirst, path[1..], r.value.c, e))
  }

  lemma NameFailFuel(lo: nat, env: Env, a: AttrName, e: Error) returns (f: nat)
    requires NameFails(env, a, e)
    ensures f >= lo && GetName(f, ByDispl, env, a) == Err(e)
  {
    var c := Closure(env, a.e);
    if Fails(c, e) { f := FailFuel(lo, c, e); } else { f := DenFuel(lo, c); }
  }

  lemma WalkOneFailFuel(lo: nat, env: Env, nameFirst: bool, a: AttrName, c: Closure, e: Error) returns (f: nat)
    requires WalkOneFails(env, nameFirst, a, c, e)
    ensures f >= lo && e != Timeout && WalkOne(f, ByDispl, env, nameFirst, a, c) == Err(e)
  {
    if nameFirst && NameFails(env, a, e) {
      f := NameFailFuel(lo, env, a, e);
    } else if Fails(c, e) {
      var g := lo;
      if nameFirst { g := NameFuel(lo, env, a); }
      f := FailFuel(g, c, e);
      if nameFirst { NameMono(g, f, ByDispl, env, a); }
    } else {
      var g := NameFailFuel(lo, env, a, e);
      f := DenFuel(g, c);
      NameMono(g, f, ByDispl, env, a);
    }
  }

  lemma {:induction false} PathFailFuel(lo: nat, env: Env, nameFirst: bool, path: seq<AttrName>, c: Closure, e: Error)
    returns (f: nat)
    requires PathFails(env, nameFirst, path, c, e)
    ensures f >= lo && e != Timeout && WalkPath(f, ByDispl, env, nameFirst, path, c) == Err(e)
    decreases |path|
  {
    if WalkOneFails(env, nameFirst, path[0], c, e) {
      f := WalkOneFailFuel(lo, env, nameFirst, path[0], c, e);
    } else {
      var r := WalkOneDen(env, path[0], c).value;
      var g := PathFailFuel(lo, env, nameFirst, path[1..], r.c, e);
      f := WalkOneFuel(g, env, nameFirst, path[0], c);
      PathMono(g, f, ByDispl, env, nameFirst, path[1..], r.c);
    }
  }

  lemma IfFails(env: Env, c: Expr, t: Expr, els: Expr, v: Value, e: Error)
    requires Den(Closure(env, c)) == Some(v)
    requires if v.VLit? && v.lit.LBool? then Fails(Closure(env, if v.lit.b then t else els), e) else e == TypeErr
    ensures Fails(Closure(env, If(c, t, els)), e)
  {
    var f: nat := 0;
    if v.VLit? && v.lit.LBool? { f := FailFuel(0, Closure(env, if v.lit.b then t else els), e); }
    var g := DenFuel(f, Closure(env, c));
    if v.VLit? && v.lit.LBool? { ForceMono(f, g, ByDispl, Closure(env, if v.lit.b then t else els)); }
    assert Force(g + 1, ByDispl, Closure(env, If(c, t, els))) == Err(e);
  }

  /** The expression fails or is no set. */
  ghost predicate NotASet(env: Env, s: Expr, e: Error) {
    var c := Closure(env, s);
    Fails(c, e) || (e == TypeErr && Den(c).Some? && !Den(c).value.VAttrs?)
  }

  lemma LeftFails(env: Env, l: Expr, r: Expr, e: Error)
    requires NotASet(env, l, e)
    ensures Fails(Closure(env, Update(l, r)), e)
  {
    var f;
    if Fails(Closure(env, l), e) { f := FailFuel(0, Closure(env, l), e); } else { f := DenFuel(0, Closure(env, l)); }
    assert Force(f + 1, ByDispl, Closure(env, Update(l, r))) == Err(e);
  }

  lemma UpdateFails(env: Env, l: Expr, r: Expr, v1: Value, e: Error)
    requires Den(Closure(env, l)) == Some(v1) && v1.VAttrs? && NotASet(env, r, e)
    ensures Fails(Closure(env, Update(l, r)), e)
  {
    var f;
    if Fails(Closure(env, r), e) { f := FailFuel(0, Closure(env, r), e); } else { f := DenFuel(0, Closure(env, r)); }
    var g := DenFuel(f, Closure(env, l));
    ForceMono(f, g, ByDispl, Closure(env, r));
    assert Force(g + 1, ByDispl, Closure(env, Update(l, r))) == Err(e);
  }

  lemma LetFails(env: Env, attrs: seq<AttrDef>, froms: seq<Expr>, body: Expr, e: Error)
    requires Fails(Closure(Cons(RecFrame(attrs, froms), env), body), e)
    ensures Fails(Closure(env, Let(attrs, froms, body)), e)
  {
    var f := FailFuel(0, Closure(Cons(RecFrame(attrs, froms), env), body), e);
    assert Force(f + 1, ByDispl, Closure(env, Let(attrs, froms, body))) == Err(e);
  }

  lemma WithBodyFails(env: Env, s: Expr, body: Expr, node: WithRef, e: Error)
    requires Fails(Closure(Cons(WithFrame(Closure(env, s)), env), body), e)
    ensures Fails(Closure(env, With(s, body, node)), e)
  {
    var f := FailFuel(0, Closure(Cons(WithFrame(Closure(env, s)), env), body), e);
    assert Force(f + 1, ByDispl, Closure(env, With(s, body, node))) == Err(e);
  }

  lemma SetFails(env: Env, s: Expr, e: Error)
    requires s.Set?
    requires if s.recursive && IsOverriding(s.attrs) then e == Unsupported
      else DynsFails(InnerEnv(env, s), s.dyns, AttrMap(InnerEnv(env, s), env, s.froms, s.attrs), e)
    ensures Fails(Closure(env, s), e)
  {
    var f: nat := 0;
    if !(s.recursive && IsOverriding(s.attrs)) {
      f := DynsFailFuel(0, InnerEnv(env, s), s.dyns, AttrMap(InnerEnv(env, s), env, s.froms, s.attrs), e);
    }
    assert Force(f + 1, ByDispl, Closure(env, s)) == Err(e);
  }

  // --- dynamic attributes ---

  /** The name fails, is neither null nor a string, or is taken. */
  lemma DynNameFails(env: Env, dyns: seq<DynamicDef>, m: map<Symbol, Closure>, e: Error)
    requires dyns != []
    requires var c := Closure(env, dyns[0].nameExpr);
      Fails(c, e) ||
      (Den(c).Some? && Den(c).value != VLit(LNull) &&
        if Den(c).value.VLit? && Den(c).value.lit.LStr? then Den(c).value.lit.s in m && e == DuplicateAttr
        else e == TypeErr)
    ensures DynsFails(env, dyns, m, e)
  {
    var c := Closure(env, dyns[0].nameExpr);
    var f: nat := 0;
    if Fails(c, e) { f := FailFuel(0, c, e); } else { f := DenFuel(0, c); }
    assert EvalDyns(f, ByDispl, env, dyns, m) == Err(e);
  }

  lemma DynsRestFails(env: Env, dyns: seq<DynamicDef>, m: map<Symbol, Closure>, m': map<Symbol, Closure>, e: Error)
    requires dyns != [] && Den(Closure(env, dyns[0].nameExpr)).Some? && DynsFails(env, dyns[1..], m', e)
    requires var v := Den(Closure(env, dyns[0].nameExpr)).value;
      if v == VLit(LNull) then m' == m
      else v.VLit? && v.lit.LStr? && v.lit.s !in m && m' == m[v.lit.s := Closure(env, dyns[0].valueExpr)]
    ensures DynsFails(env, dyns, m, e)
  {
    var f := DynsFailFuel(0, env, dyns[1..], m', e);
    var g := DenFuel(f, Closure(env, dyns[0].nameExpr));
    DynsMono(f, g, ByDispl, env, dyns[1..], m');
    assert EvalDyns(g, ByDispl, env, dyns, m) == Err(e);
  }

  // --- calls ---

  lemma CallFails(env: Env, fun: Expr, args: seq<Expr>, v: Value, e: Error)
    requires Den(Closure(env, fun)) == Some(v) && ApplyFails(v, Closures(env, args), e)
    ensures Fails(Closure(env, Call(fun, args)), e)
  {
    var f := ApplyFailFuel(0, v, Closures(env, args), e);
    var g := DenFuel(f, Closure(env, fun));
    ApplyMono(f, g, ByDispl, v, Closures(env, args));
    assert Force(g + 1, ByDispl, Closure(env, Call(fun, args))) == Err(e);
  }

  lemma ApplyFirstFails(v: Value, args: seq<Closure>, e: Error)
    requires args != [] && ApplyOneFails(v, args[0], e)
    ensures ApplyFails(v, args, e)
  {
    var f := ApplyOneFailFuel(1, v, args[0], e);
    assert Apply(f, ByDispl, v, args) == Err(e);
  }

  lemma ApplyRestFails(v: Value, args: seq<Closure>, r: Value, e: Error)
    requires args != [] && ApplyOneDen(v, args[0]) == Some(r) && ApplyFails(r, args[1..], e)
    ensures ApplyFails(v, args, e)
  {
    var f := ApplyFailFuel(0, r, args[1..], e);
    var g := ApplyOneFuel(f + 1, v, args[0]);
    ApplyMono(f, g - 1, ByDispl, r, args[1..]);
    assert Apply(g, ByDispl, v, args) == Err(e);
  }

  lemma NotAFunctionFails(v: Value, arg: Closure)
    requires !v.VLambda? && !(v.VAttrs? && SYM_FUNCTOR in v.attrs)
    ensures ApplyOneFails(v, arg, NotAFunction)
  {
    assert ApplyOne(1, ByDispl, v, arg) == Err(NotAFunction);
  }

  lemma ArgumentFails(env: Env, pat: Pattern, body: Expr, arg: Closure, e: Error)
    requires MatchFails(env, pat, arg, e)
    ensures ApplyOneFails(VLambda(env, pat, body), arg, e)
  {
    var f := MatchFailFuel(0, env, pat, arg, e);
    assert ApplyOne(f + 1, ByDispl, VLambda(env, pat, body), arg) == Err(e);
  }

  lemma BodyFails(env: Env, pat: Pattern, body: Expr, arg: Closure, env2: Env, e: Error)
    requires MatchDen(env, pat, arg) == Some(env2) && Fails(Closure(env2, body), e)
    ensures ApplyOneFails(VLambda(env, pat, body), arg, e)
  {
    var f := MatchFuel(0, env, pat, arg);
    var g := FailFuel(f, Closure(env2, body), e);
    MatchMono(f, g, ByDispl, env, pat, arg);
    assert ApplyOne(g + 1, ByDispl, VLambda(env, pat, body), arg) == Err(e);
  }

  lemma FunctorFails(m: map<Symbol, Closure>, arg: Closure, e: Error)
    requires SYM_FUNCTOR in m
    requires Fails(m[SYM_FUNCTOR], e) ||
      (Den(m[SYM_FUNCTOR]).Some? && ApplyFails(Den(m[SYM_FUNCTOR]).value, [Done(VAttrs(m)), arg], e))
    ensures ApplyOneFails(VAttrs(m), arg, e)
  {
    var g: nat := 0;
    if Fails(m[SYM_FUNCTOR], e) {
      g := FailFuel(0, m[SYM_FUNCTOR], e);
    } else {
      var fv, args := Den(m[SYM_FUNCTOR]).value, [Done(VAttrs(m)), arg];
      var f := ApplyFailFuel(0, fv, args, e);
      g := DenFuel(f, m[SYM_FUNCTOR]);
      ApplyMono(f, g, ByDispl, fv, args);
    }
    assert ApplyOne(g + 1, ByDispl, VAttrs(m), arg) == Err(e);
  }

  /** The argument fails, is no set, lacks a formal or has a name too many. */
  lemma AttrsMatchFails(env: Env, pat: Pattern, arg: Closure, e: Error)
    requires pat.AttrsPattern?
    requires Fails(arg, e) ||
      (Den(arg).Some? &&
        if !Den(arg).value.VAttrs? then e == TypeErr
        else if !AllGiven(pat.formals, Den(arg).value.attrs) then e == MissingArg
        else !pat.ellipsis && !(Den(arg).value.attrs.Keys <= FormalNames(pat.formals)) && e == UnexpectedArg)
    ensures MatchFails(env, pat, arg, e)
  {
    var f: nat := 0;
    if Fails(arg, e) { f := FailFuel(0, arg, e); } else { f := DenFuel(0, arg); }
    assert MatchPattern(f, ByDispl, env, pat, arg) == Err(e);
  }
}
