/** Abstract syntax of the evaluator's core language, with the fields that
    variable binding writes into `ExprVar` and `ExprWith` nodes. */
module Syntax {
  import opened Options

  /** Interned attribute and variable names. */
  type Symbol = string

  const SYM_FUNCTOR: Symbol := "__functor"
  const SYM_OVERRIDES: Symbol := "__overrides"

  datatype Literal = LInt(i: int) | LBool(b: bool) | LStr(s: string) | LNull

  /** What a pointer to an `ExprWith` gives its reader: how many frames to go up
      from this `with` to the enclosing one, and the enclosing one itself. */
  datatype WithRef = NoWith | WithNode(prevWith: nat, parentWith: WithRef)

  /** Binding result stored in a variable node. `Unresolved` marks a variable that
      no lexical frame binds and that no `with` encloses. */
  datatype VarRef =
    | Unresolved
    | Lexical(level: nat, displ: nat)
    | FromWith(level: nat, fromWith: WithRef)

  datatype AttrKind = Plain | Inherited | InheritedFrom

  datatype AttrDef = AttrDef(name: Symbol, kind: AttrKind, e: Expr)

  datatype DynamicDef = DynamicDef(nameExpr: Expr, valueExpr: Expr)

  /** A component of an attribute path: a name, or an expression that gives one. */
  datatype AttrName = StaticName(name: Symbol) | DynamicName(e: Expr)

  datatype Formal = Formal(name: Symbol, def: Option<Expr>)

  datatype Pattern =
    | SimplePattern(name: Symbol)
    | AttrsPattern(arg: Option<Symbol>, formals: seq<Formal>, ellipsis: bool)

  datatype Expr =
    | Lit(lit: Literal)
    | Var(name: Symbol, ref: VarRef)
    | InheritFrom(displ: nat)
    | Select(e: Expr, path: seq<AttrName>, def: Option<Expr>)
    | HasAttr(e: Expr, path: seq<AttrName>)
    | Set(recursive: bool, attrs: seq<AttrDef>, froms: seq<Expr>, dyns: seq<DynamicDef>)
    | List(elems: seq<Expr>)
    | Lambda(pat: Pattern, body: Expr)
    | Call(fun: Expr, args: seq<Expr>)
    | Let(attrs: seq<AttrDef>, froms: seq<Expr>, body: Expr)
    | With(scope: Expr, body: Expr, node: WithRef)
    | If(cond: Expr, thn: Expr, els: Expr)
    | Update(lhs: Expr, rhs: Expr)

  function AttrNames(attrs: seq<AttrDef>): (names: seq<Symbol>)
    ensures |names| == |attrs|
  {
    seq(|attrs|, i requires 0 <= i < |attrs| => attrs[i].name)
  }

  /** The names of the slots of a function's argument frame, in slot order. */
  function PatternNames(pat: Pattern): (names: seq<Symbol>) {
    match pat
    case SimplePattern(name) => [name]
    case AttrsPattern(arg, formals, _) =>
      (if arg.Some? then [arg.value] else []) + NamesOf(formals)
  }

  function NamesOf(formals: seq<Formal>): (names: seq<Symbol>)
    ensures |names| == |formals|
    ensures forall i :: 0 <= i < |formals| ==> names[i] == formals[i].name
  {
    seq(|formals|, i requires 0 <= i < |formals| => formals[i].name)
  }

  /** Position of the last entry called `x`; the last insertion into a frame wins. */
  function IndexOf(names: seq<Symbol>, x: Symbol): (i: Option<nat>)
    ensures i.Some? <==> x in names
    ensures i.Some? ==> i.value < |names| && names[i.value] == x && x !in names[i.value + 1..]
  {
    if names == [] then None
    else if names[|names| - 1] == x then Some(|names| - 1)
    else
      var rest := names[..|names| - 1];
      assert names == rest + [names[|names| - 1]];
      var i := IndexOf(rest, x);
      if i.Some? then assert names[i.value + 1..] == rest[i.value + 1..] + [names[|names| - 1]]; i
      else i
  }
}
