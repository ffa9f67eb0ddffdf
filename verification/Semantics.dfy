/** Call-by-name semantics of the core language. The two modes differ only in how
    a variable is found: by its name, or by the level, displacement and `with` chain
    that binding stored in its node. */
module Semantics {
  import opened Options
  import opened Syntax
  import opened Binder

  datatype Error =
    | Timeout
    | TypeErr
    | UndefinedVar
    | MissingAttr
    | DuplicateAttr
    | MissingArg
    | UnexpectedArg
    | NotAFunction
    | InfiniteRecursion
    | Unsupported
    | Internal

  datatype Result<+T> = Ok(value: T) | Err(error: Error)

  datatype Mode = ByName | ByDispl

  /** Runtime environments as finite data: a recursive frame keeps its definitions,
      and `Slot` rebuilds the suspended computation of each slot. */
  datatype Env = Nil | Cons(frame: Frame, up: Env)

  datatype Frame =
    | RecFrame(attrs: seq<AttrDef>, froms: seq<Expr>)
    | FromFrame(froms: seq<Expr>)
    | ArgFrame(slots: seq<ArgSlot>)
    | WithFrame(scope: Closure)

  /** An argument that was passed, or a default to be evaluated in the frame itself. */
  datatype ArgSlot = Given(name: Symbol, c: Closure) | Default(name: Symbol, e: Expr)

  datatype Closure = Closure(env: Env, e: Expr) | Done(v: Value)

  /** Values in weak head normal form. */
  datatype Value =
    | VLit(lit: Literal)
    | VList(elems: seq<Closure>)
    | VAttrs(attrs: map<Symbol, Closure>)
    | VLambda(env: Env, pat: Pattern, body: Expr)

  function SlotCount(env: Env): nat {
    match env
    case Nil => 0
    case Cons(RecFrame(attrs, _), _) => |attrs|
    case Cons(FromFrame(froms), _) => |froms|
    case Cons(ArgFrame(slots), _) => |slots|
    case Cons(WithFrame(_), _) => 1
  }

  function FromEnv(froms: seq<Expr>, up: Env): Env {
    Cons(FromFrame(froms), up)
  }

  /** The suspended computation of one attribute definition. */
  function AttrClosure(inner: Env, outer: Env, froms: seq<Expr>, a: AttrDef): Closure {
    Closure(ChooseByKind(a.kind, inner, outer, FromEnv(froms, inner)), a.e)
  }

  function Slot(env: Env, i: nat): Closure
    requires i < SlotCount(env)
  {
    match env.frame
    case RecFrame(attrs, froms) => AttrClosure(env, env.up, froms, attrs[i])
    case FromFrame(froms) => Closure(env.up, froms[i])
    case ArgFrame(slots) => (match slots[i] case Given(_, c) => c case Default(_, e) => Closure(env, e))
    case WithFrame(c) => c
  }

  /** The names of the frame's slots, in slot order; other slots have no name. */
  function FrameNames(f: Frame): (names: seq<Symbol>)
    ensures |names| <= SlotCount(Cons(f, Nil))
  {
    match f
    case RecFrame(attrs, _) => AttrNames(attrs)
    case FromFrame(_) => []
    case ArgFrame(slots) => seq(|slots|, i requires 0 <= i < |slots| => slots[i].name)
    case WithFrame(_) => []
  }

  function AttrMap(inner: Env, outer: Env, froms: seq<Expr>, attrs: seq<AttrDef>): map<Symbol, Closure> {
    if attrs == [] then map[]
    else
      var a := attrs[|attrs| - 1];
      AttrMap(inner, outer, froms, attrs[..|attrs| - 1])[a.name := AttrClosure(inner, outer, froms, a)]
  }

  function Closures(env: Env, es: seq<Expr>): seq<Closure> {
    seq(|es|, i requires 0 <= i < |es| => Closure(env, es[i]))
  }

  /** `level` frames up, if there are that many. */
  function UpN(env: Env, level: nat): Option<Env>
    decreases level
  {
    if level == 0 then Some(env)
    else if env == Nil then None
    else UpN(env.up, level - 1)
  }

  /** The innermost frame that binds `x` by name, ignoring `with` frames. */
  function FindByName(env: Env, x: Symbol): Option<Closure> {
    if env == Nil then None
    else
      var i := IndexOf(FrameNames(env.frame), x);
      if i.Some? then Some(Slot(env, i.value))
      else FindByName(env.up, x)
  }

  predicate IsOverriding(attrs: seq<AttrDef>) {
    SYM_OVERRIDES in AttrNames(attrs)
  }

  /** Where an attribute path ends: at a value, or before it, in a set or something else. */
  datatype Reached = There(c: Closure) | NotThere(isSet: bool)

  function Eval(fuel: nat, mode: Mode, env: Env, e: Expr): (r: Result<Value>)
    ensures r != Err(InfiniteRecursion)
    decreases fuel, 0, 0
  {
    if fuel == 0 then Err(Timeout) else
    match e
    case Lit(l) => Ok(VLit(l))
    case Var(x, ref) =>
      var r := Lookup(fuel - 1, mode, env, x, ref);
      if r.Ok? then Force(fuel - 1, mode, r.value) else Err(r.error)
    case InheritFrom(i) =>
      if i < SlotCount(env) then Force(fuel - 1, mode, Slot(env, i)) else Err(Internal)
    case Select(s, path, def) =>
      var r := Eval(fuel - 1, mode, env, s);
      if r.Err? then r
      else
        var p := WalkPath(fuel - 1, mode, env, true, path, Done(r.value));
        if p.Err? then Err(p.error)
        else if p.value.There? then Force(fuel - 1, mode, p.value.c)
        else if def.Some? then Eval(fuel - 1, mode, env, def.value)
        else Err(if p.value.isSet then MissingAttr else TypeErr)
    case HasAttr(s, path) =>
      var r := Eval(fuel - 1, mode, env, s);
      if r.Err? then r
      else
        var p := WalkPath(fuel - 1, mode, env, false, path, Done(r.value));
        if p.Err? then Err(p.error) else Ok(VLit(LBool(p.value.There?)))
    case Set(recursive, attrs, froms, dyns) =>
      if recursive && IsOverriding(attrs) then Err(Unsupported)
      else
        var inner := if recursive then Cons(RecFrame(attrs, froms), env) else env;
        EvalDyns(fuel - 1, mode, inner, dyns, AttrMap(inner, env, froms, attrs))
    case List(elems) => Ok(VList(Closures(env, elems)))
    case Lambda(pat, body) => Ok(VLambda(env, pat, body))
    case Call(f, args) =>
      var r := Eval(fuel - 1, mode, env, f);
      if r.Err? then r else Apply(fuel - 1, mode, r.value, Closures(env, args))
    case Let(attrs, froms, body) =>
      Eval(fuel - 1, mode, Cons(RecFrame(attrs, froms), env), body)
    case With(s, body, _) =>
      Eval(fuel - 1, mode, Cons(WithFrame(Closure(env, s)), env), body)
    case If(c, t, f) =>
      var r := Eval(fuel - 1, mode, env, c);
      if r.Err? then r
      else if r.value.VLit? && r.value.lit.LBool? then
        Eval(fuel - 1, mode, env, if r.value.lit.b then t else f)
      else Err(TypeErr)
    case Update(l, r) =>
      var r1 := Eval(fuel - 1, mode, env, l);
      if r1.Err? then r1
      else if !r1.value.VAttrs? then Err(TypeErr)
      else
        var r2 := Eval(fuel - 1, mode, env, r);
        if r2.Err? then r2
        else if !r2.value.VAttrs? then Err(TypeErr)
        else Ok(VAttrs(r1.value.attrs + r2.value.attrs))
  }

  function Force(fuel: nat, mode: Mode, c: Closure): (r: Result<Value>)
    ensures r != Err(InfiniteRecursion)
    decreases fuel, 1, 0
  {
    match c
    case Closure(env, e) => Eval(fuel, mode, env, e)
    case Done(v) => Ok(v)
  }

  function Lookup(fuel: nat, mode: Mode, env: Env, x: Symbol, ref: VarRef): (r: Result<Closure>)
    ensures r != Err(InfiniteRecursion)
    decreases fuel, 3, 0
  {
    match mode
    case ByName =>
      var c := FindByName(env, x);
      if c.Some? then Ok(c.value) else WithsByName(fuel, env, x)
    case ByDispl =>
      match ref
      case Unresolved => Err(UndefinedVar)
      case Lexical(level, displ) =>
        var up := UpN(env, level);
        if up.Some? && displ < SlotCount(up.value) then Ok(Slot(up.value, displ)) else Err(Internal)
      case FromWith(level, w) =>
        var up := UpN(env, level);
        if up.Some? then WithsByChain(fuel, up.value, w, x) else Err(Internal)
  }

  /** Tries every enclosing `with` scope, innermost first. */
  function WithsByName(fuel: nat, env: Env, x: Symbol): (r: Result<Closure>)
    ensures r != Err(InfiniteRecursion)
    decreases fuel, 2, env
  {
    if env == Nil then Err(UndefinedVar)
    else if !env.frame.WithFrame? then WithsByName(fuel, env.up, x)
    else
      var r := Force(fuel, ByName, env.frame.scope);
      if r.Err? then Err(r.error)
      else if !r.value.VAttrs? then Err(TypeErr)
      else if x in r.value.attrs then Ok(r.value.attrs[x])
      else WithsByName(fuel, env.up, x)
  }

  /** The loop of `lookupVar`: follows `prevWith` and `parentWith`. */
  function WithsByChain(fuel: nat, env: Env, w: WithRef, x: Symbol): (r: Result<Closure>)
    ensures r != Err(InfiniteRecursion)
    decreases fuel, 2, w
  {
    if w == NoWith || SlotCount(env) == 0 then Err(Internal)
    else
      var r := Force(fuel, ByDispl, Slot(env, 0));
      if r.Err? then Err(r.error)
      else if !r.value.VAttrs? then Err(TypeErr)
      else if x in r.value.attrs then Ok(r.value.attrs[x])
      else if w.parentWith == NoWith then Err(UndefinedVar)
      else
        var up := UpN(env, w.prevWith);
        if up.Some? then WithsByChain(fuel, up.value, w.parentWith, x) else Err(Internal)
  }

  function GetName(fuel: nat, mode: Mode, env: Env, a: AttrName): (r: Result<Symbol>)
    ensures r != Err(InfiniteRecursion)
    decreases fuel, 1, 0
  {
    if a.StaticName? then Ok(a.name)
    else
      var r := Eval(fuel, mode, env, a.e);
      if r.Err? then Err(r.error)
      else if !(r.value.VLit? && r.value.lit.LStr?) then Err(TypeErr)
      else Ok(r.value.lit.s)
  }

  /** One component of a path. Selection evaluates its name before the value it is looked up
      in, `?` after it. */
  function WalkOne(fuel: nat, mode: Mode, env: Env, nameFirst: bool, a: AttrName, c: Closure): (r: Result<Reached>)
    ensures r != Err(InfiniteRecursion)
    decreases fuel, 2, 0
  {
    var x := GetName(fuel, mode, env, a);
    var v := Force(fuel, mode, c);
    if nameFirst && x.Err? then Err(x.error)
    else if v.Err? then Err(v.error)
    else if x.Err? then Err(x.error)
    else Ok(LookInto(v.value, x.value))
  }

  function LookInto(v: Value, x: Symbol): Reached {
    if v.VAttrs? && x in v.attrs then There(v.attrs[x]) else NotThere(v.VAttrs?)
  }

  function WalkPath(fuel: nat, mode: Mode, env: Env, nameFirst: bool, path: seq<AttrName>,
                    c: Closure): (r: Result<Reached>)
    ensures r != Err(InfiniteRecursion)
    decreases fuel, 3, |path|
  {
    if path == [] then Ok(There(c))
    else
      var r := WalkOne(fuel, mode, env, nameFirst, path[0], c);
      if r.Ok? && r.value.There? then WalkPath(fuel, mode, env, nameFirst, path[1..], r.value.c) else r
  }

  /** Dynamic attributes, added one by one after the static ones. */
  function EvalDyns(fuel: nat, mode: Mode, env: Env, dyns: seq<DynamicDef>, m: map<Symbol, Closure>): (r: Result<Value>)
    ensures r != Err(InfiniteRecursion)
    decreases fuel, 1, |dyns|
  {
    if dyns == [] then Ok(VAttrs(m))
    else
      var r := Eval(fuel, mode, env, dyns[0].nameExpr);
      if r.Err? then r
      else if r.value == VLit(LNull) then EvalDyns(fuel, mode, env, dyns[1..], m)
      else if !(r.value.VLit? && r.value.lit.LStr?) then Err(TypeErr)
      else if r.value.lit.s in m then Err(DuplicateAttr)
      else EvalDyns(fuel, mode, env, dyns[1..], m[r.value.lit.s := Closure(env, dyns[0].valueExpr)])
  }

  function Apply(fuel: nat, mode: Mode, v: Value, args: seq<Closure>): (r: Result<Value>)
    ensures r != Err(InfiniteRecursion)
    decreases fuel, 0, |args|
  {
    if args == [] then Ok(v)
    else if fuel == 0 then Err(Timeout)
    else
      var r := ApplyOne(fuel, mode, v, args[0]);
      if r.Err? then r else Apply(fuel - 1, mode, r.value, args[1..])
  }

  function ApplyOne(fuel: nat, mode: Mode, v: Value, arg: Closure): (r: Result<Value>)
    ensures r != Err(InfiniteRecursion)
    requires fuel > 0
    decreases fuel, 0, 0
  {
    match v
    case VLambda(env, pat, body) =>
      var r := MatchPattern(fuel - 1, mode, env, pat, arg);
      if r.Ok? then Eval(fuel - 1, mode, r.value, body) else Err(r.error)
    case VAttrs(m) =>
      if SYM_FUNCTOR !in m then Err(NotAFunction)
      else
        var r := Force(fuel - 1, mode, m[SYM_FUNCTOR]);
        if r.Err? then r else Apply(fuel - 1, mode, r.value, [Done(v), arg])
    case _ => Err(NotAFunction)
  }

  function MatchPattern(fuel: nat, mode: Mode, env: Env, pat: Pattern, arg: Closure): (r: Result<Env>)
    ensures r != Err(InfiniteRecursion)
    decreases fuel, 2, 0
  {
    match pat
    case SimplePattern(x) => Ok(Cons(ArgFrame([Given(x, arg)]), env))
    case AttrsPattern(name, formals, ellipsis) =>
      var r := Force(fuel, mode, arg);
      if r.Err? then Err(r.error)
      else if !r.value.VAttrs? then Err(TypeErr)
      else
        var m := r.value.attrs;
        if !AllGiven(formals, m) then Err(MissingArg)
        else if !ellipsis && !(m.Keys <= FormalNames(formals)) then Err(UnexpectedArg)
        else Ok(Cons(ArgFrame(ArgSlots(name, formals, arg, m)), env))
  }

  predicate IsMissing(f: Formal, m: map<Symbol, Closure>) {
    f.name !in m && f.def.None?
  }

  /** Every formal without a default is given. */
  predicate AllGiven(formals: seq<Formal>, m: map<Symbol, Closure>) {
    forall i :: 0 <= i < |formals| ==> !IsMissing(formals[i], m)
  }

  function FormalNames(formals: seq<Formal>): set<Symbol> {
    set f | f in formals :: f.name
  }

  function ArgSlots(name: Option<Symbol>, formals: seq<Formal>, arg: Closure, m: map<Symbol, Closure>): seq<ArgSlot>
    requires AllGiven(formals, m)
  {
    (if name.Some? then [Given(name.value, arg)] else []) + FormalSlots(formals, m)
  }

  function FormalSlots(formals: seq<Formal>, m: map<Symbol, Closure>): (slots: seq<ArgSlot>)
    requires AllGiven(formals, m)
    ensures |slots| == |formals|
    ensures forall i :: 0 <= i < |formals| ==> slots[i] == FormalSlot(formals[i], m)
  {
    seq(|formals|, i requires 0 <= i < |formals| => FormalSlot(formals[i], m))
  }

  function FormalSlot(f: Formal, m: map<Symbol, Closure>): ArgSlot
    requires !IsMissing(f, m)
  {
    if f.name in m then Given(f.name, m[f.name]) else Default(f.name, f.def.value)
  }
}
