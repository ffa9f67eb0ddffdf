/** `VarBinder`: turns every name into a (level, displacement) pair or a chain of
    `with` frames. */
module Binder {
  import opened Options
  import opened Syntax

  /** Static environments, innermost frame first. */
  datatype StaticEnv =
    | SNil
    | SVars(vars: map<Symbol, nat>, up: StaticEnv)
    | SWith(prevWith: nat, parentWith: WithRef, up: StaticEnv)

  /** The frame that gives the i-th name displacement i. */
  function Displacements(names: seq<Symbol>): map<Symbol, nat> {
    map x | x in names :: IndexOf(names, x).value
  }

  /** The innermost enclosing `with`. */
  function NearestWith(env: StaticEnv): WithRef {
    match env
    case SNil => NoWith
    case SVars(_, up) => NearestWith(up)
    case SWith(prev, parent, _) => WithNode(prev, parent)
  }

  /** How many frames lie between the current one and the innermost `with`. */
  function NearestWithLevel(env: StaticEnv): Option<nat> {
    match env
    case SNil => None
    case SWith(_, _, _) => Some(0)
    case SVars(_, up) =>
      var l := NearestWithLevel(up);
      if l.Some? then Some(l.value + 1) else None
  }

  /** The innermost lexical frame that binds `x`. */
  function FindLexical(env: StaticEnv, x: Symbol): Option<(nat, nat)> {
    match env
    case SNil => None
    case SVars(vars, up) =>
      if x in vars then Some((0, vars[x])) else Deeper(FindLexical(up, x))
    case SWith(_, _, up) => Deeper(FindLexical(up, x))
  }

  function Deeper(r: Option<(nat, nat)>): Option<(nat, nat)> {
    if r.Some? then Some((r.value.0 + 1, r.value.1)) else None
  }

  function ResolveVar(env: StaticEnv, x: Symbol): VarRef {
    var lex := FindLexical(env, x);
    var l := NearestWithLevel(env);
    if lex.Some? then Lexical(lex.value.0, lex.value.1)
    else if l.Some? then FromWith(l.value, NearestWith(env))
    else Unresolved
  }

  /** The node written into a `with` expression met in `env`. */
  function WithNodeFor(env: StaticEnv): WithRef {
    WithNode(PrevWith(env), NearestWith(env))
  }

  function PrevWith(env: StaticEnv): nat {
    var l := NearestWithLevel(env);
    if l.Some? then l.value + 1 else 0
  }

  /** The frame of a `with` met in `env`. */
  function WithEnv(env: StaticEnv): StaticEnv {
    SWith(PrevWith(env), NearestWith(env), env)
  }

  /** The search loops of `VarBinder::visit(ExprVar &)`. */
  method VisitVar(env: StaticEnv, x: Symbol) returns (ref: VarRef)
    ensures ref == ResolveVar(env, x)
  {
    var curEnv, level, withLevel := env, 0, -1;
    while curEnv != SNil
      invariant withLevel == -1 || 0 <= withLevel < level
      invariant FindLexical(env, x) == Lifted(level, FindLexical(curEnv, x))
      invariant withLevel == -1 ==> NearestWithLevel(env) == Raised(level, NearestWithLevel(curEnv))
      invariant withLevel != -1 ==> NearestWithLevel(env) == Some(withLevel)
      decreases curEnv
    {
      match curEnv {
        case SWith(_, _, up) =>
          if withLevel == -1 { withLevel := level; }
        case SVars(vars, up) =>
          if x in vars {
            return Lexical(level, vars[x]);
          }
      }
      curEnv, level := curEnv.up, level + 1;
    }
    if withLevel == -1 {
      return Unresolved;
    }
    var fromWith, se := NoWith, env;
    while se != SNil && fromWith == NoWith
      invariant NearestWith(env) == if fromWith == NoWith then NearestWith(se) else fromWith
      decreases se
    {
      if se.SWith? { fromWith := WithNode(se.prevWith, se.parentWith); }
      se := se.up;
    }
    return FromWith(withLevel, fromWith);
  }

  function Lifted(level: nat, r: Option<(nat, nat)>): Option<(nat, nat)> {
    if r.Some? then Some((r.value.0 + level, r.value.1)) else None
  }

  function Raised(level: nat, r: Option<nat>): Option<nat> {
    if r.Some? then Some(r.value + level) else None
  }

  /** The search loops of `VarBinder::visit(ExprWith &)`. */
  method VisitWith(env: StaticEnv) returns (node: WithRef)
    ensures node == WithNodeFor(env)
  {
    var parentWith, se := NoWith, env;
    while se != SNil && parentWith == NoWith
      invariant NearestWith(env) == if parentWith == NoWith then NearestWith(se) else parentWith
      decreases se
    {
      if se.SWith? { parentWith := WithNode(se.prevWith, se.parentWith); }
      se := se.up;
    }
    var curEnv, level: nat := env, 1;
    while curEnv != SNil
      invariant level >= 1
      invariant NearestWithLevel(env) == Raised(level - 1, NearestWithLevel(curEnv))
      decreases curEnv
    {
      if curEnv.SWith? {
        return WithNode(level, parentWith);
      }
      curEnv, level := curEnv.up, level + 1;
    }
    return WithNode(0, parentWith);
  }

  /** Static frames of `let` and recursive sets, of `inherit (from)` sources and of
      function arguments. */
  function RecursiveEnv(attrs: seq<AttrDef>, up: StaticEnv): StaticEnv {
    SVars(Displacements(AttrNames(attrs)), up)
  }

  function InheritSourcesEnv(up: StaticEnv): StaticEnv {
    SVars(map[], up)
  }

  function PatternEnv(pat: Pattern, up: StaticEnv): StaticEnv {
    SVars(Displacements(PatternNames(pat)), up)
  }

  function ChooseByKind<T>(kind: AttrKind, plain: T, inherited: T, inheritedFrom: T): T {
    match kind
    case Plain => plain
    case Inherited => inherited
    case InheritedFrom => inheritedFrom
  }

  /** Binding of a whole expression: the same tree with every annotation filled in. */
  function Bind(env: StaticEnv, e: Expr): Expr
    decreases e, 1
  {
    match e
    case Lit(_) => e
    case Var(x, _) => Var(x, ResolveVar(env, x))
    case InheritFrom(_) => e
    case Select(s, path, def) =>
      Select(Bind(env, s), BindPath(env, path), if def.Some? then Some(Bind(env, def.value)) else None)
    case HasAttr(s, path) => HasAttr(Bind(env, s), BindPath(env, path))
    case Set(recursive, attrs, froms, dyns) =>
      var inner := if recursive then RecursiveEnv(attrs, env) else env;
      Set(recursive, BindAttrs(inner, env, attrs), BindSeq(inner, froms), BindDyns(inner, dyns))
    case List(elems) => List(BindSeq(env, elems))
    case Lambda(pat, body) =>
      var inner := PatternEnv(pat, env);
      Lambda(BindPattern(inner, pat), Bind(inner, body))
    case Call(f, args) => Call(Bind(env, f), BindSeq(env, args))
    case Let(attrs, froms, body) =>
      var inner := RecursiveEnv(attrs, env);
      Let(BindAttrs(inner, env, attrs), BindSeq(inner, froms), Bind(inner, body))
    case With(s, body, _) =>
      With(Bind(env, s), Bind(WithEnv(env), body), WithNodeFor(env))
    case If(c, t, f) => If(Bind(env, c), Bind(env, t), Bind(env, f))
    case Update(l, r) => Update(Bind(env, l), Bind(env, r))
  }

  function BindSeq(env: StaticEnv, es: seq<Expr>): (r: seq<Expr>)
    ensures |r| == |es|
    ensures forall i :: 0 <= i < |es| ==> r[i] == Bind(env, es[i])
    decreases es, 0
  {
    seq(|es|, i requires 0 <= i < |es| => Bind(env, es[i]))
  }

  function BindPath(env: StaticEnv, path: seq<AttrName>): (r: seq<AttrName>)
    ensures |r| == |path|
    ensures forall i :: 0 <= i < |path| ==> r[i] == BindName(env, path[i])
    decreases path, 1
  {
    seq(|path|, i requires 0 <= i < |path| => BindName(env, path[i]))
  }

  function BindName(env: StaticEnv, a: AttrName): AttrName
    decreases a, 0
  {
    if a.DynamicName? then DynamicName(Bind(env, a.e)) else a
  }

  function BindAttrs(inner: StaticEnv, outer: StaticEnv, attrs: seq<AttrDef>): (r: seq<AttrDef>)
    ensures |r| == |attrs|
    ensures forall i :: 0 <= i < |attrs| ==> r[i] == BindAttr(inner, outer, attrs[i])
    decreases attrs, 1
  {
    seq(|attrs|, i requires 0 <= i < |attrs| => BindAttr(inner, outer, attrs[i]))
  }

  function BindAttr(inner: StaticEnv, outer: StaticEnv, a: AttrDef): AttrDef
    decreases a, 0
  {
    a.(e := Bind(ChooseByKind(a.kind, inner, outer, InheritSourcesEnv(inner)), a.e))
  }

  function BindDyns(env: StaticEnv, dyns: seq<DynamicDef>): (r: seq<DynamicDef>)
    ensures |r| == |dyns|
    ensures forall i :: 0 <= i < |dyns| ==> r[i] == BindDyn(env, dyns[i])
    decreases dyns, 1
  {
    seq(|dyns|, i requires 0 <= i < |dyns| => BindDyn(env, dyns[i]))
  }

  function BindDyn(env: StaticEnv, d: DynamicDef): DynamicDef
    decreases d, 0
  {
    DynamicDef(Bind(env, d.nameExpr), Bind(env, d.valueExpr))
  }

  function BindPattern(env: StaticEnv, pat: Pattern): (r: Pattern)
    ensures PatternNames(r) == PatternNames(pat)
    decreases pat, 0
  {
    match pat
    case SimplePattern(_) => pat
    case AttrsPattern(arg, formals, ellipsis) =>
      AttrsPattern(arg, BindFormals(env, formals), ellipsis)
  }

  function BindFormals(env: StaticEnv, formals: seq<Formal>): (r: seq<Formal>)
    ensures |r| == |formals|
    ensures forall i :: 0 <= i < |formals| ==> r[i].name == formals[i].name
    ensures forall i :: 0 <= i < |formals| ==>
      r[i].def == if formals[i].def.Some? then Some(Bind(env, formals[i].def.value)) else None
    decreases formals, 0
  {
    seq(|formals|, i requires 0 <= i < |formals| =>
      formals[i].(def := if formals[i].def.Some? then Some(Bind(env, formals[i].def.value)) else None))
  }
}
