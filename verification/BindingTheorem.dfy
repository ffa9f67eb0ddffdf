/** Binding preserves meaning: a bound program run with displacements gives the
    result of the unbound program run with names. */
module BindingTheorem {
  import opened Options
  import opened Syntax
  import opened Binder
  import opened Semantics

  /** The static environment the binder is in when the runtime environment is `env`. */
  function Static(env: Env): StaticEnv {
    match env
    case Nil => SNil
    case Cons(WithFrame(_), up) => WithEnv(Static(up))
    case Cons(f, up) => SVars(Displacements(FrameNames(f)), Static(up))
  }

  /** Binding of everything an environment, closure or value holds. */
  function BoundEnv(env: Env): Env
    decreases env, 0
  {
    match env
    case Nil => Nil
    case Cons(f, up) => Cons(BoundFrame(Static(env), Static(up), f), BoundEnv(up))
  }

  function BoundFrame(self: StaticEnv, up: StaticEnv, f: Frame): Frame
    decreases f, 0
  {
    match f
    case RecFrame(attrs, froms) => RecFrame(BindAttrs(self, up, attrs), BindSeq(self, froms))
    case FromFrame(froms) => FromFrame(BindSeq(up, froms))
    case ArgFrame(slots) => ArgFrame(BoundSlots(self, slots))
    case WithFrame(c) => WithFrame(BoundClosure(c))
  }

  function BoundSlots(self: StaticEnv, slots: seq<ArgSlot>): (r: seq<ArgSlot>)
    ensures |r| == |slots|
    ensures forall i :: 0 <= i < |slots| ==> r[i] == BoundSlot(self, slots[i])
    decreases slots, 1
  {
    seq(|slots|, i requires 0 <= i < |slots| => BoundSlot(self, slots[i]))
  }

  function BoundSlot(self: StaticEnv, s: ArgSlot): ArgSlot
    decreases s, 0
  {
    match s
    case Given(x, c) => Given(x, BoundClosure(c))
    case Default(x, e) => Default(x, Bind(self, e))
  }

  function BoundClosure(c: Closure): Closure
    decreases c, 0
  {
    match c
    case Closure(env, e) => Closure(BoundEnv(env), Bind(Static(env), e))
    case Done(v) => Done(BoundValue(v))
  }

  function BoundValue(v: Value): Value
    decreases v, 1
  {
    match v
    case VLit(_) => v
    case VList(cs) => VList(BoundSeq(cs))
    case VAttrs(m) => VAttrs(BoundMap(m))
    case VLambda(env, pat, body) =>
      var inner := PatternEnv(pat, Static(env));
      VLambda(BoundEnv(env), BindPattern(inner, pat), Bind(inner, body))
  }

  function BoundSeq(cs: seq<Closure>): (r: seq<Closure>)
    ensures |r| == |cs|
    ensures forall i :: 0 <= i < |cs| ==> r[i] == BoundClosure(cs[i])
    decreases cs, 1
  {
    seq(|cs|, i requires 0 <= i < |cs| => BoundClosure(cs[i]))
  }

  function BoundMap(m: map<Symbol, Closure>): (r: map<Symbol, Closure>)
    ensures r.Keys == m.Keys
    ensures forall x :: x in m ==> r[x] == BoundClosure(m[x])
    decreases VAttrs(m), 0
  {
    map x | x in m :: BoundClosure(m[x])
  }

  function BoundResult(r: Result<Value>): Result<Value> {
    if r.Ok? then Ok(BoundValue(r.value)) else r
  }

  function BoundLookup(r: Result<Closure>): Result<Closure> {
    if r.Ok? then Ok(BoundClosure(r.value)) else r
  }

  function BoundReached(r: Result<Reached>): Result<Reached> {
    if r.Ok? && r.value.There? then Ok(There(BoundClosure(r.value.c))) else r
  }

  function BoundMatch(r: Result<Env>): Result<Env> {
    if r.Ok? then Ok(BoundEnv(r.value)) else r
  }

  // --- frame layout ---

  lemma SlotAgrees(env: Env, i: nat)
    requires i < SlotCount(env)
    ensures SlotCount(BoundEnv(env)) == SlotCount(env)
    ensures Slot(BoundEnv(env), i) == BoundClosure(Slot(env, i))
  {
    if env.frame.RecFrame? {
      StaticFrom(env.frame.froms, env);
    }
  }

  lemma StaticFrom(froms: seq<Expr>, env: Env)
    ensures Static(FromEnv(froms, env)) == InheritSourcesEnv(Static(env))
    ensures BoundEnv(FromEnv(froms, env)) == FromEnv(BindSeq(Static(env), froms), BoundEnv(env))
  {
    assert Displacements([]) == map[];
  }

  lemma BoundAttrMap(inner: Env, outer: Env, froms: seq<Expr>, attrs: seq<AttrDef>)
    ensures AttrMap(BoundEnv(inner), BoundEnv(outer), BindSeq(Static(inner), froms),
                    BindAttrs(Static(inner), Static(outer), attrs))
         == BoundMap(AttrMap(inner, outer, froms, attrs))
  {
    var b := BindAttrs(Static(inner), Static(outer), attrs);
    forall i | 0 <= i < |attrs|
      ensures AttrClosure(BoundEnv(inner), BoundEnv(outer), BindSeq(Static(inner), froms), b[i])
           == BoundClosure(AttrClosure(inner, outer, froms, attrs[i]))
    {
      AttrClosureAgrees(inner, outer, froms, attrs[i]);
    }
    AttrMapPointwise(inner, outer, froms, attrs, BoundEnv(inner), BoundEnv(outer), BindSeq(Static(inner), froms), b);
  }

  lemma {:induction false} AttrMapPointwise(inner: Env, outer: Env, froms: seq<Expr>, attrs: seq<AttrDef>,
                         inner': Env, outer': Env, froms': seq<Expr>, attrs': seq<AttrDef>)
    requires |attrs'| == |attrs|
    requires forall i :: 0 <= i < |attrs| ==> attrs'[i].name == attrs[i].name
    requires forall i :: 0 <= i < |attrs| ==>
      AttrClosure(inner', outer', froms', attrs'[i]) == BoundClosure(AttrClosure(inner, outer, froms, attrs[i]))
    ensures AttrMap(inner', outer', froms', attrs') == BoundMap(AttrMap(inner, outer, froms, attrs))
  {
    if attrs != [] {
      var k := |attrs| - 1;
      AttrMapPointwise(inner, outer, froms, attrs[..k], inner', outer', froms', attrs'[..k]);
      var m, c := AttrMap(inner, outer, froms, attrs[..k]), AttrClosure(inner, outer, froms, attrs[k]);
      BoundMapUpdate(m, attrs[k].name, c);
    }
  }

  lemma BoundMapUpdate(m: map<Symbol, Closure>, x: Symbol, c: Closure)
    ensures BoundMap(m[x := c]) == BoundMap(m)[x := BoundClosure(c)]
  {
  }

  lemma AttrClosureAgrees(inner: Env, outer: Env, froms: seq<Expr>, a: AttrDef)
    ensures AttrClosure(BoundEnv(inner), BoundEnv(outer), BindSeq(Static(inner), froms),
                        BindAttr(Static(inner), Static(outer), a))
         == BoundClosure(AttrClosure(inner, outer, froms, a))
  {
    StaticFrom(froms, inner);
  }

  // --- lookup ---

  /** The static frame gives a name the displacement of the slot of that name. */
  lemma StaticFrame(env: Env, x: Symbol)
    requires env.Cons?
    ensures FindLexical(Static(env), x) ==
      var i := IndexOf(FrameNames(env.frame), x);
      if i.Some? then Some((0, i.value)) else Deeper(FindLexical(Static(env.up), x))
  {
    hide IndexOf;
  }

  lemma BoundUp(env: Env, level: nat)
    requires env.Cons?
    ensures UpN(BoundEnv(env), 0) == Some(BoundEnv(env))
    ensures UpN(BoundEnv(env), level + 1) == UpN(BoundEnv(env.up), level)
  {
    hide BoundFrame, Static;
  }

  /** A variable's level and displacement lead to the innermost frame that binds it. */
  lemma {:induction false} LexicalAgrees(env: Env, x: Symbol)
    ensures FindLexical(Static(env), x).Some? <==> FindByName(env, x).Some?
    ensures FindByName(env, x).Some? ==>
      var r := FindLexical(Static(env), x).value;
      var up := UpN(BoundEnv(env), r.0);
      up.Some? && r.1 < SlotCount(up.value) && Slot(up.value, r.1) == BoundClosure(FindByName(env, x).value)
  {
    if env != Nil {
      hide BoundEnv, BoundFrame, BoundClosure, Static, Slot, SlotCount, FindLexical, UpN, IndexOf;
      StaticFrame(env, x);
      var i := IndexOf(FrameNames(env.frame), x);
      if i.Some? {
        SlotAgrees(env, i.value);
        BoundUp(env, 0);
      } else {
        LexicalAgrees(env.up, x);
        if FindByName(env.up, x).Some? {
          BoundUp(env, FindLexical(Static(env.up), x).value.0);
        }
      }
    }
  }

  lemma {:induction false} NearestWithTwice(env: StaticEnv)
    ensures NearestWith(env) == NoWith <==> NearestWithLevel(env) == None
  {
    match env
    case SNil =>
    case SVars(_, up) => NearestWithTwice(up);
    case SWith(_, _, up) =>
  }

  /** The `prevWith`/`parentWith` walk visits the enclosing `with` frames in order. */
  lemma {:induction false} WithsAgree(fuel: nat, env: Env, x: Symbol)
    ensures
      var l := NearestWithLevel(Static(env));
      if l.None? then WithsByName(fuel, env, x) == Err(UndefinedVar)
      else
        var up := UpN(BoundEnv(env), l.value);
        up.Some? && WithsByChain(fuel, up.value, NearestWith(Static(env)), x)
                    == BoundLookup(WithsByName(fuel, env, x))
    decreases fuel, 2, env
  {
    if env != Nil {
      WithsAgree(fuel, env.up, x);
      NearestWithTwice(Static(env.up));
      if env.frame.WithFrame? {
        ForceAgrees(fuel, env.frame.scope);
      }
    }
  }

  lemma {:induction false} LookupAgrees(fuel: nat, env: Env, x: Symbol, ref: VarRef)
    ensures Lookup(fuel, ByDispl, BoundEnv(env), x, ResolveVar(Static(env), x))
         == BoundLookup(Lookup(fuel, ByName, env, x, ref))
    decreases fuel, 3, 0
  {
    LexicalAgrees(env, x);
    if FindByName(env, x).None? {
      WithsAgree(fuel, env, x);
    }
  }

  // --- evaluation ---

  lemma {:induction false} ForceAgrees(fuel: nat, c: Closure)
    ensures Force(fuel, ByDispl, BoundClosure(c)) == BoundResult(Force(fuel, ByName, c))
    decreases fuel, 1, 0
  {
    if c.Closure? { EvalAgrees(fuel, c.env, c.e); }
  }

  /** Binding preserves meaning, for every program, environment and fuel. */
  lemma {:induction false} EvalAgrees(fuel: nat, env: Env, e: Expr)
    ensures Eval(fuel, ByDispl, BoundEnv(env), Bind(Static(env), e))
         == BoundResult(Eval(fuel, ByName, env, e))
    decreases fuel, 0, 0
  {
    if fuel != 0 {
      match e
      case Lit(_) =>
      case Var(_, _) => VarAgrees(fuel, env, e);
      case InheritFrom(_) => InheritFromAgrees(fuel, env, e);
      case Select(_, _, _) => SelectAgrees(fuel, env, e);
      case HasAttr(_, _) => HasAttrAgrees(fuel, env, e);
      case Set(_, _, _, _) => SetAgrees(fuel, env, e);
      case List(elems) => BoundClosures(env, elems);
      case Lambda(_, _) =>
      case Call(_, _) => CallAgrees(fuel, env, e);
      case Let(attrs, froms, body) => EvalAgrees(fuel - 1, Cons(RecFrame(attrs, froms), env), body);
      case With(s, body, _) =>
        var inner := Cons(WithFrame(Closure(env, s)), env);
        assert BoundFrame(Static(inner), Static(env), inner.frame) == WithFrame(BoundClosure(Closure(env, s)));
        EvalAgrees(fuel - 1, inner, body);
      case If(_, _, _) => IfAgrees(fuel, env, e);
      case Update(_, _) => UpdateAgrees(fuel, env, e);
    }
  }

  lemma {:induction false} VarAgrees(fuel: nat, env: Env, e: Expr)
    requires fuel != 0 && e.Var?
    ensures Eval(fuel, ByDispl, BoundEnv(env), Bind(Static(env), e))
         == BoundResult(Eval(fuel, ByName, env, e))
    decreases fuel - 1, 4, 0
  {
    LookupAgrees(fuel - 1, env, e.name, e.ref);
    var r := Lookup(fuel - 1, ByName, env, e.name, e.ref);
    if r.Ok? { ForceAgrees(fuel - 1, r.value); }
  }

  lemma {:induction false} InheritFromAgrees(fuel: nat, env: Env, e: Expr)
    requires fuel != 0 && e.InheritFrom?
    ensures Eval(fuel, ByDispl, BoundEnv(env), Bind(Static(env), e))
         == BoundResult(Eval(fuel, ByName, env, e))
    decreases fuel - 1, 4, 0
  {
    BoundSlotCount(env);
    if e.displ < SlotCount(env) {
      SlotAgrees(env, e.displ);
      ForceAgrees(fuel - 1, Slot(env, e.displ));
    }
  }

  lemma {:induction false} SelectAgrees(fuel: nat, env: Env, e: Expr)
    requires fuel != 0 && e.Select?
    ensures Eval(fuel, ByDispl, BoundEnv(env), Bind(Static(env), e))
         == BoundResult(Eval(fuel, ByName, env, e))
    decreases fuel - 1, 4, 0
  {
    EvalAgrees(fuel - 1, env, e.e);
    var r := Eval(fuel - 1, ByName, env, e.e);
    if r.Ok? {
      PathAgrees(fuel - 1, env, true, e.path, Done(r.value));
      var p := WalkPath(fuel - 1, ByName, env, true, e.path, Done(r.value));
      if p.Ok? && p.value.There? {
        ForceAgrees(fuel - 1, p.value.c);
      } else if e.def.Some? {
        EvalAgrees(fuel - 1, env, e.def.value);
      }
    }
  }

  lemma {:induction false} HasAttrAgrees(fuel: nat, env: Env, e: Expr)
    requires fuel != 0 && e.HasAttr?
    ensures Eval(fuel, ByDispl, BoundEnv(env), Bind(Static(env), e))
         == BoundResult(Eval(fuel, ByName, env, e))
    decreases fuel - 1, 4, 0
  {
    EvalAgrees(fuel - 1, env, e.e);
    var r := Eval(fuel - 1, ByName, env, e.e);
    if r.Ok? { PathAgrees(fuel - 1, env, false, e.path, Done(r.value)); }
  }

  lemma {:induction false} WalkOneAgrees(fuel: nat, env: Env, nameFirst: bool, a: AttrName, c: Closure)
    ensures WalkOne(fuel, ByDispl, BoundEnv(env), nameFirst, BindName(Static(env), a), BoundClosure(c))
         == BoundReached(WalkOne(fuel, ByName, env, nameFirst, a, c))
    decreases fuel, 2, 0
  {
    if a.DynamicName? { EvalAgrees(fuel, env, a.e); }
    ForceAgrees(fuel, c);
    var x, v := GetName(fuel, ByName, env, a), Force(fuel, ByName, c);
    assert GetName(fuel, ByDispl, BoundEnv(env), BindName(Static(env), a)) == x;
    if x.Ok? && v.Ok? {
      assert Ok(LookInto(BoundValue(v.value), x.value)) == BoundReached(Ok(LookInto(v.value, x.value)));
    }
  }

  /** A path leads to the same place in both modes, its names evaluated in both. */
  lemma {:induction false} PathAgrees(fuel: nat, env: Env, nameFirst: bool, path: seq<AttrName>, c: Closure)
    ensures WalkPath(fuel, ByDispl, BoundEnv(env), nameFirst, BindPath(Static(env), path), BoundClosure(c))
         == BoundReached(WalkPath(fuel, ByName, env, nameFirst, path, c))
    decreases fuel, 3, |path|
  {
    if path != [] {
      WalkOneAgrees(fuel, env, nameFirst, path[0], c);
      var r := WalkOne(fuel, ByName, env, nameFirst, path[0], c);
      assert BindPath(Static(env), path)[1..] == BindPath(Static(env), path[1..]);
      if r.Ok? && r.value.There? { PathAgrees(fuel, env, nameFirst, path[1..], r.value.c); }
    }
  }

  lemma {:induction false} CallAgrees(fuel: nat, env: Env, e: Expr)
    requires fuel != 0 && e.Call?
    ensures Eval(fuel, ByDispl, BoundEnv(env), Bind(Static(env), e))
         == BoundResult(Eval(fuel, ByName, env, e))
    decreases fuel - 1, 4, 0
  {
    EvalAgrees(fuel - 1, env, e.fun);
    BoundClosures(env, e.args);
    var r := Eval(fuel - 1, ByName, env, e.fun);
    if r.Ok? { ApplyAgrees(fuel - 1, r.value, Closures(env, e.args)); }
  }

  lemma {:induction false} IfAgrees(fuel: nat, env: Env, e: Expr)
    requires fuel != 0 && e.If?
    ensures Eval(fuel, ByDispl, BoundEnv(env), Bind(Static(env), e))
         == BoundResult(Eval(fuel, ByName, env, e))
    decreases fuel - 1, 4, 0
  {
    EvalAgrees(fuel - 1, env, e.cond);
    EvalAgrees(fuel - 1, env, e.thn);
    EvalAgrees(fuel - 1, env, e.els);
  }

  lemma BoundSlotCount(env: Env)
    ensures SlotCount(BoundEnv(env)) == SlotCount(env)
  {
  }

  lemma BoundClosures(env: Env, es: seq<Expr>)
    ensures BoundSeq(Closures(env, es)) == Closures(BoundEnv(env), BindSeq(Static(env), es))
  {
  }

  lemma {:induction false} UpdateAgrees(fuel: nat, env: Env, e: Expr)
    requires fuel != 0 && e.Update?
    ensures Eval(fuel, ByDispl, BoundEnv(env), Bind(Static(env), e))
         == BoundResult(Eval(fuel, ByName, env, e))
    decreases fuel - 1, 4, 0
  {
    EvalAgrees(fuel - 1, env, e.lhs);
    EvalAgrees(fuel - 1, env, e.rhs);
    var r1, r2 := Eval(fuel - 1, ByName, env, e.lhs), Eval(fuel - 1, ByName, env, e.rhs);
    if r1.Ok? && r1.value.VAttrs? && r2.Ok? && r2.value.VAttrs? {
      var m1, m2 := r1.value.attrs, r2.value.attrs;
      assert BoundMap(m1 + m2) == BoundMap(m1) + BoundMap(m2);
    }
  }

  lemma {:induction false} SetAgrees(fuel: nat, env: Env, e: Expr)
    requires fuel != 0 && e.Set?
    ensures Eval(fuel, ByDispl, BoundEnv(env), Bind(Static(env), e))
         == BoundResult(Eval(fuel, ByName, env, e))
    decreases fuel - 1, 4, 0
  {
    var inner := if e.recursive then Cons(RecFrame(e.attrs, e.froms), env) else env;
    assert AttrNames(BindAttrs(Static(inner), Static(env), e.attrs)) == AttrNames(e.attrs);
    if !(e.recursive && IsOverriding(e.attrs)) {
      BoundAttrMap(inner, env, e.froms, e.attrs);
      DynsAgree(fuel - 1, inner, e.dyns, AttrMap(inner, env, e.froms, e.attrs));
    }
  }

  lemma {:induction false} DynsAgree(fuel: nat, env: Env, dyns: seq<DynamicDef>, m: map<Symbol, Closure>)
    ensures EvalDyns(fuel, ByDispl, BoundEnv(env), BindDyns(Static(env), dyns), BoundMap(m))
         == BoundResult(EvalDyns(fuel, ByName, env, dyns, m))
    decreases fuel, 1, |dyns|
  {
    if dyns != [] {
      EvalAgrees(fuel, env, dyns[0].nameExpr);
      assert BindDyns(Static(env), dyns)[1..] == BindDyns(Static(env), dyns[1..]);
      var r := Eval(fuel, ByName, env, dyns[0].nameExpr);
      if r.Ok? && r.value.VLit? {
        if r.value.lit == LNull {
          DynsAgree(fuel, env, dyns[1..], m);
        } else if r.value.lit.LStr? && r.value.lit.s !in m {
          var x, c := r.value.lit.s, Closure(env, dyns[0].valueExpr);
          BoundMapUpdate(m, x, c);
          DynsAgree(fuel, env, dyns[1..], m[x := c]);
        }
      }
    }
  }

  lemma {:induction false} ApplyAgrees(fuel: nat, v: Value, args: seq<Closure>)
    ensures Apply(fuel, ByDispl, BoundValue(v), BoundSeq(args))
         == BoundResult(Apply(fuel, ByName, v, args))
    decreases fuel, 0, |args|
  {
    if args != [] && fuel != 0 {
      ApplyOneAgrees(fuel, v, args[0]);
      assert BoundSeq(args)[1..] == BoundSeq(args[1..]);
      var r := ApplyOne(fuel, ByName, v, args[0]);
      if r.Ok? { ApplyAgrees(fuel - 1, r.value, args[1..]); }
    }
  }

  lemma {:induction false} ApplyOneAgrees(fuel: nat, v: Value, arg: Closure)
    requires fuel > 0
    ensures ApplyOne(fuel, ByDispl, BoundValue(v), BoundClosure(arg))
         == BoundResult(ApplyOne(fuel, ByName, v, arg))
    decreases fuel, 0, 0
  {
    match v
    case VLambda(_, _, _) => LambdaAgrees(fuel, v, arg);
    case VAttrs(m) => FunctorAgrees(fuel, m, arg);
    case _ =>
  }

  lemma {:induction false} LambdaAgrees(fuel: nat, v: Value, arg: Closure)
    requires fuel > 0 && v.VLambda?
    ensures ApplyOne(fuel, ByDispl, BoundValue(v), BoundClosure(arg))
         == BoundResult(ApplyOne(fuel, ByName, v, arg))
    decreases fuel - 1, 4, 0
  {
    MatchAgrees(fuel - 1, v.env, v.pat, arg);
    var r := MatchPattern(fuel - 1, ByName, v.env, v.pat, arg);
    var inner := PatternEnv(v.pat, Static(v.env));
    assert BoundValue(v) == VLambda(BoundEnv(v.env), BindPattern(inner, v.pat), Bind(inner, v.body));
    if r.Ok? { EvalAgrees(fuel - 1, r.value, v.body); }
  }

  lemma {:induction false} FunctorAgrees(fuel: nat, m: map<Symbol, Closure>, arg: Closure)
    requires fuel > 0
    ensures ApplyOne(fuel, ByDispl, VAttrs(BoundMap(m)), BoundClosure(arg))
         == BoundResult(ApplyOne(fuel, ByName, VAttrs(m), arg))
    decreases fuel - 1, 4, 0
  {
    if SYM_FUNCTOR in m {
      ForceAgrees(fuel - 1, m[SYM_FUNCTOR]);
      var r := Force(fuel - 1, ByName, m[SYM_FUNCTOR]);
      if r.Ok? {
        var args := [Done(VAttrs(m)), arg];
        ApplyAgrees(fuel - 1, r.value, args);
        assert BoundValue(VAttrs(m)) == VAttrs(BoundMap(m));
        assert BoundClosure(args[0]) == Done(BoundValue(VAttrs(m)));
        assert BoundSeq(args) == [Done(VAttrs(BoundMap(m))), BoundClosure(arg)];
      }
    }
  }

  /** Argument frames are laid out as the binder assigned their displacements. */
  lemma {:induction false} MatchAgrees(fuel: nat, env: Env, pat: Pattern, arg: Closure)
    ensures var bound := BindPattern(PatternEnv(pat, Static(env)), pat);
      MatchPattern(fuel, ByDispl, BoundEnv(env), bound, BoundClosure(arg))
      == BoundMatch(MatchPattern(fuel, ByName, env, pat, arg))
    ensures MatchPattern(fuel, ByName, env, pat, arg).Ok? ==>
      Static(MatchPattern(fuel, ByName, env, pat, arg).value) == PatternEnv(pat, Static(env))
    decreases fuel, 2, 0
  {
    if pat.SimplePattern? {
      var slots := [Given(pat.name, arg)];
      assert FrameNames(ArgFrame(slots)) == PatternNames(pat);
      BoundArgFrame(PatternEnv(pat, Static(env)), slots, env);
      assert BoundSlots(PatternEnv(pat, Static(env)), slots) == [Given(pat.name, BoundClosure(arg))];
    } else {
      ForceAgrees(fuel, arg);
      var r := Force(fuel, ByName, arg);
      if r.Ok? && r.value.VAttrs? {
        var self := PatternEnv(pat, Static(env));
        AllGivenAgrees(self, pat.formals, r.value.attrs);
        FormalNamesAgree(self, pat.formals);
        if AllGiven(pat.formals, r.value.attrs) {
          var slots := ArgSlots(pat.arg, pat.formals, arg, r.value.attrs);
          ArgNamesAgree(pat, arg, r.value.attrs);
          ArgSlotsAgree(self, pat, arg, r.value.attrs);
          BoundArgFrame(self, slots, env);
        }
      }
    }
  }

  lemma FormalNamesAgree(self: StaticEnv, formals: seq<Formal>)
    ensures FormalNames(BindFormals(self, formals)) == FormalNames(formals)
  {
    var b := BindFormals(self, formals);
    forall x | x in FormalNames(formals) ensures x in FormalNames(b) {
      var i :| 0 <= i < |formals| && formals[i].name == x;
      assert b[i] in b;
    }
    forall x | x in FormalNames(b) ensures x in FormalNames(formals) {
      var i :| 0 <= i < |b| && b[i].name == x;
      assert formals[i] in formals;
    }
  }

  lemma AllGivenAgrees(self: StaticEnv, formals: seq<Formal>, m: map<Symbol, Closure>)
    ensures AllGiven(BindFormals(self, formals), BoundMap(m)) == AllGiven(formals, m)
  {
    var b := BindFormals(self, formals);
    forall i | 0 <= i < |formals| ensures IsMissing(b[i], BoundMap(m)) == IsMissing(formals[i], m) {
    }
    if AllGiven(b, BoundMap(m)) {
      forall i | 0 <= i < |formals| ensures !IsMissing(formals[i], m) {
        assert !IsMissing(b[i], BoundMap(m));
      }
    }
  }

  lemma BoundArgFrame(self: StaticEnv, slots: seq<ArgSlot>, env: Env)
    requires self == SVars(Displacements(FrameNames(ArgFrame(slots))), Static(env))
    ensures Static(Cons(ArgFrame(slots), env)) == self
    ensures BoundEnv(Cons(ArgFrame(slots), env)) == Cons(ArgFrame(BoundSlots(self, slots)), BoundEnv(env))
  {
  }

  lemma ArgNamesAgree(pat: Pattern, arg: Closure, m: map<Symbol, Closure>)
    requires pat.AttrsPattern? && AllGiven(pat.formals, m)
    ensures FrameNames(ArgFrame(ArgSlots(pat.arg, pat.formals, arg, m))) == PatternNames(pat)
  {
    var names := FrameNames(ArgFrame(ArgSlots(pat.arg, pat.formals, arg, m)));
    forall i | 0 <= i < |names| ensures names[i] == PatternNames(pat)[i] {
    }
  }

  lemma ArgSlotsAgree(self: StaticEnv, pat: Pattern, arg: Closure, m: map<Symbol, Closure>)
    requires pat.AttrsPattern?
    requires AllGiven(pat.formals, m)
    requires AllGiven(BindFormals(self, pat.formals), BoundMap(m))
    ensures BoundSlots(self, ArgSlots(pat.arg, pat.formals, arg, m))
         == ArgSlots(pat.arg, BindFormals(self, pat.formals), BoundClosure(arg), BoundMap(m))
  {
    var pre := if pat.arg.Some? then [Given(pat.arg.value, arg)] else [];
    FormalSlotsAgree(self, pat.formals, m);
    BoundSlotsConcat(self, pre, FormalSlots(pat.formals, m));
    if pat.arg.Some? {
      assert BoundSlots(self, pre) == [Given(pat.arg.value, BoundClosure(arg))];
    }
  }

  lemma FormalSlotsAgree(self: StaticEnv, formals: seq<Formal>, m: map<Symbol, Closure>)
    requires AllGiven(formals, m) && AllGiven(BindFormals(self, formals), BoundMap(m))
    ensures BoundSlots(self, FormalSlots(formals, m)) == FormalSlots(BindFormals(self, formals), BoundMap(m))
  {
    var l, r := BoundSlots(self, FormalSlots(formals, m)), FormalSlots(BindFormals(self, formals), BoundMap(m));
    forall i | 0 <= i < |formals| ensures l[i] == r[i] {
      FormalSlotAgrees(self, formals, m, i);
    }
  }

  lemma BoundSlotsConcat(self: StaticEnv, a: seq<ArgSlot>, b: seq<ArgSlot>)
    ensures BoundSlots(self, a + b) == BoundSlots(self, a) + BoundSlots(self, b)
  {
  }

  lemma FormalSlotAgrees(self: StaticEnv, formals: seq<Formal>, m: map<Symbol, Closure>, i: nat)
    requires i < |formals|
    requires !IsMissing(formals[i], m) && !IsMissing(BindFormals(self, formals)[i], BoundMap(m))
    ensures BoundSlot(self, FormalSlot(formals[i], m)) == FormalSlot(BindFormals(self, formals)[i], BoundMap(m))
  {
  }
}
