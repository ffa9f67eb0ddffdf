/** The meaning of a suspended computation, independent of fuel. */
module Denotation {
  import opened Options
  import opened Syntax
  import opened Semantics

  // --- more fuel never changes a result ---

  predicate Timely<T>(r: Result<T>) {
    r != Err(Timeout)
  }

  lemma {:induction false} EvalMono(f: nat, g: nat, mode: Mode, env: Env, e: Expr)
    requires f <= g && Timely(Eval(f, mode, env, e))
    ensures Eval(g, mode, env, e) == Eval(f, mode, env, e)
    decreases f, 0, 0
  {
    match e
    case Lit(_) =>
    case Var(_, _) => VarMono(f, g, mode, env, e);
    case InheritFrom(i) =>
      if i < SlotCount(env) { ForceMono(f - 1, g - 1, mode, Slot(env, i)); }
    case Select(_, _, _) => SelectMono(f, g, mode, env, e);
    case HasAttr(_, _) => HasAttrMono(f, g, mode, env, e);
    case Set(_, _, _, _) => SetMono(f, g, mode, env, e);
    case List(_) =>
    case Lambda(_, _) =>
    case Call(_, _) => CallMono(f, g, mode, env, e);
    case Let(attrs, froms, body) =>
      EvalMono(f - 1, g - 1, mode, Cons(RecFrame(attrs, froms), env), body);
    case With(s, body, _) =>
      EvalMono(f - 1, g - 1, mode, Cons(WithFrame(Closure(env, s)), env), body);
    case If(_, _, _) => IfMono(f, g, mode, env, e);
    case Update(_, _) => UpdateMono(f, g, mode, env, e);
  }

  lemma {:induction false} VarMono(f: nat, g: nat, mode: Mode, env: Env, e: Expr)
    requires 0 < f <= g && e.Var? && Timely(Eval(f, mode, env, e))
    ensures Eval(g, mode, env, e) == Eval(f, mode, env, e)
    decreases f - 1, 4, 0
  {
    LookupMono(f - 1, g - 1, mode, env, e.name, e.ref);
    var r := Lookup(f - 1, mode, env, e.name, e.ref);
    if r.Ok? { ForceMono(f - 1, g - 1, mode, r.value); }
  }

  lemma {:induction false} SelectMono(f: nat, g: nat, mode: Mode, env: Env, e: Expr)
    requires 0 < f <= g && e.Select? && Timely(Eval(f, mode, env, e))
    ensures Eval(g, mode, env, e) == Eval(f, mode, env, e)
    decreases f - 1, 4, 0
  {
    EvalMono(f - 1, g - 1, mode, env, e.e);
    var r := Eval(f - 1, mode, env, e.e);
    if r.Ok? {
      PathMono(f - 1, g - 1, mode, env, true, e.path, Done(r.value));
      var p := WalkPath(f - 1, mode, env, true, e.path, Done(r.value));
      if p.Ok? && p.value.There? {
        ForceMono(f - 1, g - 1, mode, p.value.c);
      } else if p.Ok? && e.def.Some? {
        EvalMono(f - 1, g - 1, mode, env, e.def.value);
      }
    }
  }

  lemma {:induction false} HasAttrMono(f: nat, g: nat, mode: Mode, env: Env, e: Expr)
    requires 0 < f <= g && e.HasAttr? && Timely(Eval(f, mode, env, e))
    ensures Eval(g, mode, env, e) == Eval(f, mode, env, e)
    decreases f - 1, 4, 0
  {
    EvalMono(f - 1, g - 1, mode, env, e.e);
    var r := Eval(f - 1, mode, env, e.e);
    if r.Ok? { PathMono(f - 1, g - 1, mode, env, false, e.path, Done(r.value)); }
  }

  lemma {:induction false} NameMono(f: nat, g: nat, mode: Mode, env: Env, a: AttrName)
    requires f <= g && Timely(GetName(f, mode, env, a))
    ensures GetName(g, mode, env, a) == GetName(f, mode, env, a)
    decreases f, 1, 0
  {
    if a.DynamicName? { EvalMono(f, g, mode, env, a.e); }
  }

  lemma {:induction false} WalkOneMono(f: nat, g: nat, mode: Mode, env: Env, nameFirst: bool, a: AttrName, c: Closure)
    requires f <= g && Timely(WalkOne(f, mode, env, nameFirst, a, c))
    ensures WalkOne(g, mode, env, nameFirst, a, c) == WalkOne(f, mode, env, nameFirst, a, c)
    decreases f, 2, 0
  {
    var x, v := GetName(f, mode, env, a), Force(f, mode, c);
    if nameFirst || v.Ok? { NameMono(f, g, mode, env, a); }
    if !nameFirst || x.Ok? { ForceMono(f, g, mode, c); }
  }

  lemma {:induction false} PathMono(f: nat, g: nat, mode: Mode, env: Env, nameFirst: bool, path: seq<AttrName>,
                                    c: Closure)
    requires f <= g && Timely(WalkPath(f, mode, env, nameFirst, path, c))
    ensures WalkPath(g, mode, env, nameFirst, path, c) == WalkPath(f, mode, env, nameFirst, path, c)
    decreases f, 3, |path|
  {
    if path != [] {
      WalkOneMono(f, g, mode, env, nameFirst, path[0], c);
      var r := WalkOne(f, mode, env, nameFirst, path[0], c);
      if r.Ok? && r.value.There? { PathMono(f, g, mode, env, nameFirst, path[1..], r.value.c); }
    }
  }

  lemma {:induction false} SetMono(f: nat, g: nat, mode: Mode, env: Env, e: Expr)
    requires 0 < f <= g && e.Set? && Timely(Eval(f, mode, env, e))
    ensures Eval(g, mode, env, e) == Eval(f, mode, env, e)
    decreases f - 1, 4, 0
  {
    if !(e.recursive && IsOverriding(e.attrs)) {
      var inner := if e.recursive then Cons(RecFrame(e.attrs, e.froms), env) else env;
      DynsMono(f - 1, g - 1, mode, inner, e.dyns, AttrMap(inner, env, e.froms, e.attrs));
    }
  }

  lemma {:induction false} CallMono(f: nat, g: nat, mode: Mode, env: Env, e: Expr)
    requires 0 < f <= g && e.Call? && Timely(Eval(f, mode, env, e))
    ensures Eval(g, mode, env, e) == Eval(f, mode, env, e)
    decreases f - 1, 4, 0
  {
    EvalMono(f - 1, g - 1, mode, env, e.fun);
    var r := Eval(f - 1, mode, env, e.fun);
    if r.Ok? { ApplyMono(f - 1, g - 1, mode, r.value, Closures(env, e.args)); }
  }

  lemma {:induction false} IfMono(f: nat, g: nat, mode: Mode, env: Env, e: Expr)
    requires 0 < f <= g && e.If? && Timely(Eval(f, mode, env, e))
    ensures Eval(g, mode, env, e) == Eval(f, mode, env, e)
    decreases f - 1, 4, 0
  {
    EvalMono(f - 1, g - 1, mode, env, e.cond);
    var r := Eval(f - 1, mode, env, e.cond);
    if r.Ok? && r.value.VLit? && r.value.lit.LBool? {
      EvalMono(f - 1, g - 1, mode, env, if r.value.lit.b then e.thn else e.els);
    }
  }

  lemma {:induction false} UpdateMono(f: nat, g: nat, mode: Mode, env: Env, e: Expr)
    requires 0 < f <= g && e.Update? && Timely(Eval(f, mode, env, e))
    ensures Eval(g, mode, env, e) == Eval(f, mode, env, e)
    decreases f - 1, 4, 0
  {
    EvalMono(f - 1, g - 1, mode, env, e.lhs);
    var r1 := Eval(f - 1, mode, env, e.lhs);
    if r1.Ok? && r1.value.VAttrs? { EvalMono(f - 1, g - 1, mode, env, e.rhs); }
  }

  lemma {:induction false} ForceMono(f: nat, g: nat, mode: Mode, c: Closure)
    requires f <= g && Timely(Force(f, mode, c))
    ensures Force(g, mode, c) == Force(f, mode, c)
    decreases f, 1, 0
  {
    if c.Closure? { EvalMono(f, g, mode, c.env, c.e); }
  }

  lemma {:induction false} LookupMono(f: nat, g: nat, mode: Mode, env: Env, x: Symbol, ref: VarRef)
    requires f <= g && Timely(Lookup(f, mode, env, x, ref))
    ensures Lookup(g, mode, env, x, ref) == Lookup(f, mode, env, x, ref)
    decreases f, 3, 0
  {
    match mode
    case ByName =>
      if FindByName(env, x).None? { WithsByNameMono(f, g, env, x); }
    case ByDispl =>
      if ref.FromWith? && UpN(env, ref.level).Some? {
        WithsByChainMono(f, g, UpN(env, ref.level).value, ref.fromWith, x);
      }
  }

  lemma {:induction false} WithsByNameMono(f: nat, g: nat, env: Env, x: Symbol)
    requires f <= g && Timely(WithsByName(f, env, x))
    ensures WithsByName(g, env, x) == WithsByName(f, env, x)
    decreases f, 2, env
  {
    if env != Nil {
      if !env.frame.WithFrame? {
        WithsByNameMono(f, g, env.up, x);
      } else {
        ForceMono(f, g, ByName, env.frame.scope);
        var r := Force(f, ByName, env.frame.scope);
        if r.Ok? && r.value.VAttrs? && x !in r.value.attrs { WithsByNameMono(f, g, env.up, x); }
      }
    }
  }

  lemma {:induction false} WithsByChainMono(f: nat, g: nat, env: Env, w: WithRef, x: Symbol)
    requires f <= g && Timely(WithsByChain(f, env, w, x))
    ensures WithsByChain(g, env, w, x) == WithsByChain(f, env, w, x)
    decreases f, 2, w
  {
    if w != NoWith && SlotCount(env) > 0 {
      ForceMono(f, g, ByDispl, Slot(env, 0));
      var r := Force(f, ByDispl, Slot(env, 0));
      if r.Ok? && r.value.VAttrs? && x !in r.value.attrs && w.parentWith != NoWith {
        var up := UpN(env, w.prevWith);
        if up.Some? { WithsByChainMono(f, g, up.value, w.parentWith, x); }
      }
    }
  }

  lemma {:induction false} DynsMono(f: nat, g: nat, mode: Mode, env: Env, dyns: seq<DynamicDef>,
                                    m: map<Symbol, Closure>)
    requires f <= g && Timely(EvalDyns(f, mode, env, dyns, m))
    ensures EvalDyns(g, mode, env, dyns, m) == EvalDyns(f, mode, env, dyns, m)
    decreases f, 1, |dyns|
  {
    if dyns != [] {
      EvalMono(f, g, mode, env, dyns[0].nameExpr);
      var r := Eval(f, mode, env, dyns[0].nameExpr);
      if r.Ok? && r.value.VLit? {
        if r.value.lit == LNull {
          DynsMono(f, g, mode, env, dyns[1..], m);
        } else if r.value.lit.LStr? && r.value.lit.s !in m {
          DynsMono(f, g, mode, env, dyns[1..], m[r.value.lit.s := Closure(env, dyns[0].valueExpr)]);
        }
      }
    }
  }

  lemma {:induction false} ApplyMono(f: nat, g: nat, mode: Mode, v: Value, args: seq<Closure>)
    requires f <= g && Timely(Apply(f, mode, v, args))
    ensures Apply(g, mode, v, args) == Apply(f, mode, v, args)
    decreases f, 0, |args|
  {
    if args != [] {
      ApplyOneMono(f, g, mode, v, args[0]);
      var r := ApplyOne(f, mode, v, args[0]);
      if r.Ok? { ApplyMono(f - 1, g - 1, mode, r.value, args[1..]); }
    }
  }

  lemma {:induction false} ApplyOneMono(f: nat, g: nat, mode: Mode, v: Value, arg: Closure)
    requires 0 < f <= g && Timely(ApplyOne(f, mode, v, arg))
    ensures ApplyOne(g, mode, v, arg) == ApplyOne(f, mode, v, arg)
    decreases f, 0, 0
  {
    match v
    case VLambda(env, pat, body) =>
      MatchMono(f - 1, g - 1, mode, env, pat, arg);
      var r := MatchPattern(f - 1, mode, env, pat, arg);
      if r.Ok? { EvalMono(f - 1, g - 1, mode, r.value, body); }
    case VAttrs(m) =>
      if SYM_FUNCTOR in m {
        ForceMono(f - 1, g - 1, mode, m[SYM_FUNCTOR]);
        var r := Force(f - 1, mode, m[SYM_FUNCTOR]);
        if r.Ok? { ApplyMono(f - 1, g - 1, mode, r.value, [Done(v), arg]); }
      }
    case _ =>
  }

  lemma {:induction false} MatchMono(f: nat, g: nat, mode: Mode, env: Env, pat: Pattern, arg: Closure)
    requires f <= g && Timely(MatchPattern(f, mode, env, pat, arg))
    ensures MatchPattern(g, mode, env, pat, arg) == MatchPattern(f, mode, env, pat, arg)
    decreases f, 2, 0
  {
    if pat.AttrsPattern? { ForceMono(f, g, mode, arg); }
  }

  // --- meanings ---

  /** What forcing `c` gives, if it gives anything. */
  ghost function Den(c: Closure): Option<Value> {
    if exists f: nat :: Force(f, ByDispl, c).Ok? then
      var f: nat :| Force(f, ByDispl, c).Ok?;
      Some(Force(f, ByDispl, c).value)
    else None
  }

  lemma DenIs(f: nat, c: Closure)
    requires Force(f, ByDispl, c).Ok?
    ensures Den(c) == Some(Force(f, ByDispl, c).value)
  {
    var g: nat :| Force(g, ByDispl, c).Ok? &&
      Den(c) == Some(Force(g, ByDispl, c).value);
    if f <= g { ForceMono(f, g, ByDispl, c); } else { ForceMono(g, f, ByDispl, c); }
  }

  lemma DenFuel(lo: nat, c: Closure) returns (f: nat)
    requires Den(c).Some?
    ensures f >= lo && Force(f, ByDispl, c) == Ok(Den(c).value)
  {
    f :| Force(f, ByDispl, c).Ok? &&
      Den(c) == Some(Force(f, ByDispl, c).value);
    if f < lo {
      ForceMono(f, lo, ByDispl, c);
      f := lo;
    }
  }

  /** What a variable node refers to. */
  ghost function LookupDen(env: Env, x: Symbol, ref: VarRef): Option<Closure> {
    if exists f: nat :: Lookup(f, ByDispl, env, x, ref).Ok? then
      var f: nat :| Lookup(f, ByDispl, env, x, ref).Ok?;
      Some(Lookup(f, ByDispl, env, x, ref).value)
    else None
  }

  lemma LookupIs(f: nat, env: Env, x: Symbol, ref: VarRef)
    requires Lookup(f, ByDispl, env, x, ref).Ok?
    ensures LookupDen(env, x, ref) == Some(Lookup(f, ByDispl, env, x, ref).value)
  {
    var g: nat :| Lookup(g, ByDispl, env, x, ref).Ok? &&
      LookupDen(env, x, ref) == Some(Lookup(g, ByDispl, env, x, ref).value);
    if f <= g { LookupMono(f, g, ByDispl, env, x, ref); } else { LookupMono(g, f, ByDispl, env, x, ref); }
  }

  lemma LookupFuel(lo: nat, env: Env, x: Symbol, ref: VarRef) returns (f: nat)
    requires LookupDen(env, x, ref).Some?
    ensures f >= lo && Lookup(f, ByDispl, env, x, ref) == Ok(LookupDen(env, x, ref).value)
  {
    f :| Lookup(f, ByDispl, env, x, ref).Ok? &&
      LookupDen(env, x, ref) == Some(Lookup(f, ByDispl, env, x, ref).value);
    if f < lo {
      LookupMono(f, lo, ByDispl, env, x, ref);
      f := lo;
    }
  }

  /** What the walk over `with` frames finds. */
  ghost function WithsDen(env: Env, w: WithRef, x: Symbol): Option<Closure> {
    if exists f: nat :: WithsByChain(f, env, w, x).Ok? then
      var f: nat :| WithsByChain(f, env, w, x).Ok?;
      Some(WithsByChain(f, env, w, x).value)
    else None
  }

  lemma WithsIs(f: nat, env: Env, w: WithRef, x: Symbol)
    requires WithsByChain(f, env, w, x).Ok?
    ensures WithsDen(env, w, x) == Some(WithsByChain(f, env, w, x).value)
  {
    var g: nat :| WithsByChain(g, env, w, x).Ok? &&
      WithsDen(env, w, x) == Some(WithsByChain(g, env, w, x).value);
    if f <= g { WithsByChainMono(f, g, env, w, x); } else { WithsByChainMono(g, f, env, w, x); }
  }

  lemma WithsFuel(lo: nat, env: Env, w: WithRef, x: Symbol) returns (f: nat)
    requires WithsDen(env, w, x).Some?
    ensures f >= lo && WithsByChain(f, env, w, x) == Ok(WithsDen(env, w, x).value)
  {
    f :| WithsByChain(f, env, w, x).Ok? &&
      WithsDen(env, w, x) == Some(WithsByChain(f, env, w, x).value);
    if f < lo {
      WithsByChainMono(f, lo, env, w, x);
      f := lo;
    }
  }

  /** The set after its dynamic attributes are added. */
  ghost function DynsDen(env: Env, dyns: seq<DynamicDef>, m: map<Symbol, Closure>): Option<Value> {
    if exists f: nat :: EvalDyns(f, ByDispl, env, dyns, m).Ok? then
      var f: nat :| EvalDyns(f, ByDispl, env, dyns, m).Ok?;
      Some(EvalDyns(f, ByDispl, env, dyns, m).value)
    else None
  }

  lemma DynsIs(f: nat, env: Env, dyns: seq<DynamicDef>, m: map<Symbol, Closure>)
    requires EvalDyns(f, ByDispl, env, dyns, m).Ok?
    ensures DynsDen(env, dyns, m) == Some(EvalDyns(f, ByDispl, env, dyns, m).value)
  {
    var g: nat :| EvalDyns(g, ByDispl, env, dyns, m).Ok? &&
      DynsDen(env, dyns, m) == Some(EvalDyns(g, ByDispl, env, dyns, m).value);
    if f <= g { DynsMono(f, g, ByDispl, env, dyns, m); } else { DynsMono(g, f, ByDispl, env, dyns, m); }
  }

  lemma DynsFuel(lo: nat, env: Env, dyns: seq<DynamicDef>, m: map<Symbol, Closure>) returns (f: nat)
    requires DynsDen(env, dyns, m).Some?
    ensures f >= lo && EvalDyns(f, ByDispl, env, dyns, m) == Ok(DynsDen(env, dyns, m).value)
  {
    f :| EvalDyns(f, ByDispl, env, dyns, m).Ok? &&
      DynsDen(env, dyns, m) == Some(EvalDyns(f, ByDispl, env, dyns, m).value);
    if f < lo {
      DynsMono(f, lo, ByDispl, env, dyns, m);
      f := lo;
    }
  }

  /** The result of applying `v` to `args` in turn. */
  ghost function ApplyDen(v: Value, args: seq<Closure>): Option<Value> {
    if exists f: nat :: Apply(f, ByDispl, v, args).Ok? then
      var f: nat :| Apply(f, ByDispl, v, args).Ok?;
      Some(Apply(f, ByDispl, v, args).value)
    else None
  }

  lemma ApplyIs(f: nat, v: Value, args: seq<Closure>)
    requires Apply(f, ByDispl, v, args).Ok?
    ensures ApplyDen(v, args) == Some(Apply(f, ByDispl, v, args).value)
  {
    var g: nat :| Apply(g, ByDispl, v, args).Ok? &&
      ApplyDen(v, args) == Some(Apply(g, ByDispl, v, args).value);
    if f <= g { ApplyMono(f, g, ByDispl, v, args); } else { ApplyMono(g, f, ByDispl, v, args); }
  }

  lemma ApplyFuel(lo: nat, v: Value, args: seq<Closure>) returns (f: nat)
    requires ApplyDen(v, args).Some?
    ensures f >= lo && Apply(f, ByDispl, v, args) == Ok(ApplyDen(v, args).value)
  {
    f :| Apply(f, ByDispl, v, args).Ok? &&
      ApplyDen(v, args) == Some(Apply(f, ByDispl, v, args).value);
    if f < lo {
      ApplyMono(f, lo, ByDispl, v, args);
      f := lo;
    }
  }

  /** The result of applying `v` to one argument. */
  ghost function ApplyOneDen(v: Value, arg: Closure): Option<Value> {
    if exists f: nat :: f > 0 && ApplyOne(f, ByDispl, v, arg).Ok? then
      var f: nat :| f > 0 && ApplyOne(f, ByDispl, v, arg).Ok?;
      Some(ApplyOne(f, ByDispl, v, arg).value)
    else None
  }

  lemma ApplyOneIs(f: nat, v: Value, arg: Closure)
    requires f > 0 && ApplyOne(f, ByDispl, v, arg).Ok?
    ensures ApplyOneDen(v, arg) == Some(ApplyOne(f, ByDispl, v, arg).value)
  {
    var g: nat :| g > 0 && ApplyOne(g, ByDispl, v, arg).Ok? &&
      ApplyOneDen(v, arg) == Some(ApplyOne(g, ByDispl, v, arg).value);
    if f <= g { ApplyOneMono(f, g, ByDispl, v, arg); } else { ApplyOneMono(g, f, ByDispl, v, arg); }
  }

  lemma ApplyOneFuel(lo: nat, v: Value, arg: Closure) returns (f: nat)
    requires ApplyOneDen(v, arg).Some?
    ensures f >= lo && f > 0 && ApplyOne(f, ByDispl, v, arg) == Ok(ApplyOneDen(v, arg).value)
  {
    f :| f > 0 && ApplyOne(f, ByDispl, v, arg).Ok? &&
      ApplyOneDen(v, arg) == Some(ApplyOne(f, ByDispl, v, arg).value);
    if f < lo {
      ApplyOneMono(f, lo, ByDispl, v, arg);
      f := lo;
    }
  }

  /** The argument frame for `arg`. */
  ghost function MatchDen(env: Env, pat: Pattern, arg: Closure): Option<Env> {
    if exists f: nat :: MatchPattern(f, ByDispl, env, pat, arg).Ok? then
      var f: nat :| MatchPattern(f, ByDispl, env, pat, arg).Ok?;
      Some(MatchPattern(f, ByDispl, env, pat, arg).value)
    else None
  }

  lemma MatchIs(f: nat, env: Env, pat: Pattern, arg: Closure)
    requires MatchPattern(f, ByDispl, env, pat, arg).Ok?
    ensures MatchDen(env, pat, arg) == Some(MatchPattern(f, ByDispl, env, pat, arg).value)
  {
    var g: nat :| MatchPattern(g, ByDispl, env, pat, arg).Ok? &&
      MatchDen(env, pat, arg) == Some(MatchPattern(g, ByDispl, env, pat, arg).value);
    if f <= g { MatchMono(f, g, ByDispl, env, pat, arg); } else { MatchMono(g, f, ByDispl, env, pat, arg); }
  }

  lemma MatchFuel(lo: nat, env: Env, pat: Pattern, arg: Closure) returns (f: nat)
    requires MatchDen(env, pat, arg).Some?
    ensures f >= lo && MatchPattern(f, ByDispl, env, pat, arg) == Ok(MatchDen(env, pat, arg).value)
  {
    f :| MatchPattern(f, ByDispl, env, pat, arg).Ok? &&
      MatchDen(env, pat, arg) == Some(MatchPattern(f, ByDispl, env, pat, arg).value);
    if f < lo {
      MatchMono(f, lo, ByDispl, env, pat, arg);
      f := lo;
    }
  }

  // --- agreement at a given fuel ---

  /** `d` gives the result of `c` with no more fuel than `c` needs. */
  ghost predicate Within(d: Closure, c: Closure) {
    forall f: nat :: Timely(Force(f, ByDispl, c)) ==> Force(f, ByDispl, d) == Force(f, ByDispl, c)
  }

  /** A computation with a value gives that value or runs out of fuel. */
  lemma TimelyDen(f: nat, c: Closure)
    requires Den(c).Some? && Timely(Force(f, ByDispl, c))
    ensures Force(f, ByDispl, c) == Ok(Den(c).value)
  {
    var g := DenFuel(f, c);
    ForceMono(f, g, ByDispl, c);
  }

  /** The least fuel with which `c` gives a result. */
  ghost function Least(f: nat, c: Closure): (k: nat)
    requires Timely(Force(f, ByDispl, c))
    ensures k <= f && Timely(Force(k, ByDispl, c))
    ensures k > 0 ==> !Timely(Force(k - 1, ByDispl, c))
  {
    if f == 0 || !Timely(Force(f - 1, ByDispl, c)) then f else Least(f - 1, c)
  }
}
