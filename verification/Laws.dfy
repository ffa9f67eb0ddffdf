/** Laws of the core language, stated on expressions: what each construct evaluates, and
    in which scope. They speak of the by-name interpreter; the agreement theorems carry
    them over to bound programs and to the machine. */
module Laws {
  import opened Options
  import opened Syntax
  import opened Semantics

  // --- recursive scopes ---

  /** Definition `k` is the one that counts for its name. */
  predicate LastOfName(attrs: seq<AttrDef>, k: nat) {
    k < |attrs| && forall j :: k < j < |attrs| ==> attrs[j].name != attrs[k].name
  }

  lemma {:induction false} LastIndex(names: seq<Symbol>, k: nat)
    requires k < |names| && forall j :: k < j < |names| ==> names[j] != names[k]
    ensures IndexOf(names, names[k]) == Some(k)
  {
  }

  /** What a definition means: a plain one is evaluated in the scope it belongs to, an
      inherited one outside it, and one of `inherit (from)` under a frame of the sources. */
  function Definition(f: nat, inner: Env, outer: Env, froms: seq<Expr>, a: AttrDef): Result<Value> {
    match a.kind
    case Plain => Eval(f, ByName, inner, a.e)
    case Inherited => Eval(f, ByName, outer, a.e)
    case InheritedFrom => Eval(f, ByName, Cons(FromFrame(froms), inner), a.e)
  }

  /** A name defined by a `let` or recursive set means its last definition. */
  lemma DefinedName(f: nat, attrs: seq<AttrDef>, froms: seq<Expr>, up: Env, k: nat, ref: VarRef)
    requires LastOfName(attrs, k)
    ensures var env := Cons(RecFrame(attrs, froms), up);
      Eval(f + 1, ByName, env, Var(attrs[k].name, ref)) == Definition(f, env, up, froms, attrs[k])
  {
    LastIndex(AttrNames(attrs), k);
  }

  /** Inside `inherit (from)`, source `i` is the i-th source in the scope of the set. */
  lemma Source(f: nat, froms: seq<Expr>, env: Env, i: nat)
    requires i < |froms|
    ensures Eval(f + 1, ByName, Cons(FromFrame(froms), env), InheritFrom(i)) == Eval(f, ByName, env, froms[i])
  {
  }

  /** `let` opens the scope of its definitions for its body. */
  lemma LetBody(f: nat, attrs: seq<AttrDef>, froms: seq<Expr>, up: Env, k: nat, ref: VarRef)
    requires LastOfName(attrs, k)
    ensures Eval(f + 2, ByName, up, Let(attrs, froms, Var(attrs[k].name, ref)))
         == Definition(f, Cons(RecFrame(attrs, froms), up), up, froms, attrs[k])
  {
    DefinedName(f, attrs, froms, up, k, ref);
  }

  lemma {:induction false} AttrMapLast(inner: Env, outer: Env, froms: seq<Expr>, attrs: seq<AttrDef>, k: nat)
    requires LastOfName(attrs, k)
    ensures attrs[k].name in AttrMap(inner, outer, froms, attrs)
    ensures AttrMap(inner, outer, froms, attrs)[attrs[k].name] == AttrClosure(inner, outer, froms, attrs[k])
  {
    if k < |attrs| - 1 { AttrMapLast(inner, outer, froms, attrs[..|attrs| - 1], k); }
  }

  lemma {:induction false} AttrMapNames(inner: Env, outer: Env, froms: seq<Expr>, attrs: seq<AttrDef>, x: Symbol)
    ensures x in AttrMap(inner, outer, froms, attrs) <==> exists k :: 0 <= k < |attrs| && attrs[k].name == x
  {
    if attrs != [] {
      AttrMapNames(inner, outer, froms, attrs[..|attrs| - 1], x);
      assert forall k :: 0 <= k < |attrs| - 1 ==> attrs[..|attrs| - 1][k] == attrs[k];
    }
  }

  /** A set has the attributes it defines and no others, each meaning its last definition;
      a recursive set is their scope, a plain one is not. */
  lemma SetEntries(f: nat, g: nat, recursive: bool, attrs: seq<AttrDef>, froms: seq<Expr>, env: Env, k: nat)
    requires LastOfName(attrs, k) && !(recursive && exists j :: 0 <= j < |attrs| && attrs[j].name == "__overrides")
    ensures var r := Eval(f + 1, ByName, env, Set(recursive, attrs, froms, []));
      var inner := if recursive then Cons(RecFrame(attrs, froms), env) else env;
      && r.Ok? && r.value.VAttrs? && attrs[k].name in r.value.attrs
      && (forall x :: x in r.value.attrs <==> exists j :: 0 <= j < |attrs| && attrs[j].name == x)
      && Force(g, ByName, r.value.attrs[attrs[k].name]) == Definition(g, inner, env, froms, attrs[k])
  {
    var inner := if recursive then Cons(RecFrame(attrs, froms), env) else env;
    assert "__overrides" in AttrNames(attrs) ==> exists j :: 0 <= j < |attrs| && AttrNames(attrs)[j] == "__overrides";
    AttrMapLast(inner, env, froms, attrs, k);
    forall x
      ensures x in AttrMap(inner, env, froms, attrs) <==> exists j :: 0 <= j < |attrs| && attrs[j].name == x
    {
      AttrMapNames(inner, env, froms, attrs, x);
    }
  }

  // --- finding a name ---

  /** The frame gives `x` a meaning of its own; `with` frames and sources never do. */
  predicate Binds(f: Frame, x: Symbol) {
    match f
    case RecFrame(attrs, _) => exists k :: 0 <= k < |attrs| && attrs[k].name == x
    case ArgFrame(slots) => exists k :: 0 <= k < |slots| && slots[k].name == x
    case _ => false
  }

  predicate IsBound(env: Env, x: Symbol) {
    env.Cons? && (Binds(env.frame, x) || IsBound(env.up, x))
  }

  lemma NamesBound(f: Frame, x: Symbol)
    ensures x in FrameNames(f) <==> Binds(f, x)
  {
    match f
    case RecFrame(attrs, _) =>
      assert forall k :: 0 <= k < |attrs| ==> AttrNames(attrs)[k] == attrs[k].name;
    case ArgFrame(slots) =>
      assert forall k :: 0 <= k < |slots| ==> FrameNames(f)[k] == slots[k].name;
    case _ =>
  }

  lemma {:induction false} FoundIfBound(env: Env, x: Symbol)
    ensures FindByName(env, x).Some? <==> IsBound(env, x)
  {
    if env.Cons? {
      NamesBound(env.frame, x);
      FoundIfBound(env.up, x);
    }
  }

  lemma NameByName(f: nat, env: Env, x: Symbol, ref: VarRef)
    ensures var c := FindByName(env, x);
      var w := WithsByName(f, env, x);
      Eval(f + 1, ByName, env, Var(x, ref)) ==
      if c.Some? then Force(f, ByName, c.value)
      else if w.Ok? then Force(f, ByName, w.value)
      else Err(w.error)
  {
    var r := Lookup(f, ByName, env, x, ref);
    assert Eval(f + 1, ByName, env, Var(x, ref)) == if r.Ok? then Force(f, ByName, r.value) else Err(r.error);
  }

  /** A frame that does not bind a name lets it through, unless it is a `with`. */
  lemma NameLetThrough(f: nat, frame: Frame, up: Env, x: Symbol, ref: VarRef)
    requires !frame.WithFrame? && !Binds(frame, x)
    ensures Eval(f + 1, ByName, Cons(frame, up), Var(x, ref)) == Eval(f + 1, ByName, up, Var(x, ref))
  {
    NamesBound(frame, x);
    NameByName(f, Cons(frame, up), x, ref);
    NameByName(f, up, x, ref);
    assert FindByName(Cons(frame, up), x) == FindByName(up, x);
    assert WithsByName(f, Cons(frame, up), x) == WithsByName(f, up, x);
  }

  /** A `with` never shadows a name that is bound further out; any other name it looks up
      in its set, and beyond the set further out. */
  lemma WithScope(f: nat, scope: Closure, up: Env, x: Symbol, ref: VarRef)
    ensures var env := Cons(WithFrame(scope), up);
      var s := Force(f, ByName, scope);
      Eval(f + 1, ByName, env, Var(x, ref)) ==
      if IsBound(up, x) then Eval(f + 1, ByName, up, Var(x, ref))
      else if s.Err? then Err(s.error)
      else if !s.value.VAttrs? then Err(TypeErr)
      else if x in s.value.attrs then Force(f, ByName, s.value.attrs[x])
      else Eval(f + 1, ByName, up, Var(x, ref))
  {
    NamesBound(WithFrame(scope), x);
    FoundIfBound(up, x);
    FoundIfBound(Cons(WithFrame(scope), up), x);
    NameByName(f, Cons(WithFrame(scope), up), x, ref);
    NameByName(f, up, x, ref);
    assert FindByName(Cons(WithFrame(scope), up), x) == FindByName(up, x);
  }

  lemma UndefinedName(f: nat, x: Symbol, ref: VarRef)
    ensures Eval(f + 1, ByName, Nil, Var(x, ref)) == Err(UndefinedVar)
  {
    NameByName(f, Nil, x, ref);
  }

  // --- functions ---

  /** Calling `x: body` evaluates the body where `x` is the argument, suspended where the
      call stands. */
  lemma Parameter(f: nat, env: Env, x: Symbol, body: Expr, arg: Expr)
    ensures Eval(f + 3, ByName, env, Call(Lambda(SimplePattern(x), body), [arg]))
         == Eval(f + 1, ByName, Cons(ArgFrame([Given(x, Closure(env, arg))]), env), body)
  {
    var v, c := VLambda(env, SimplePattern(x), body), Closure(env, arg);
    assert Closures(env, [arg]) == [c] && [c][1..] == [];
    assert MatchPattern(f + 1, ByName, env, SimplePattern(x), c) == Ok(Cons(ArgFrame([Given(x, c)]), env));
    var r := ApplyOne(f + 2, ByName, v, c);
    assert r == Eval(f + 1, ByName, Cons(ArgFrame([Given(x, c)]), env), body);
    assert Apply(f + 2, ByName, v, [c]) == if r.Err? then r else Apply(f + 1, ByName, r.value, []);
    assert Eval(f + 2, ByName, env, Lambda(SimplePattern(x), body)) == Ok(v);
  }

  /** Name `k` of an argument frame means what was passed for it, or its default evaluated
      beside the other arguments. */
  lemma ArgumentName(f: nat, slots: seq<ArgSlot>, up: Env, k: nat, ref: VarRef)
    requires k < |slots| && forall j :: k < j < |slots| ==> slots[j].name != slots[k].name
    ensures var env := Cons(ArgFrame(slots), up);
      Eval(f + 1, ByName, env, Var(slots[k].name, ref)) ==
      if slots[k].Given? then Force(f, ByName, slots[k].c) else Eval(f, ByName, env, slots[k].e)
  {
    LastIndex(FrameNames(ArgFrame(slots)), k);
  }

  /** What was passed for the formal, or else its default. */
  predicate IsSlotOf(formal: Formal, m: map<Symbol, Closure>, slot: ArgSlot) {
    if formal.name in m then slot == Given(formal.name, m[formal.name])
    else formal.def.Some? && slot == Default(formal.name, formal.def.value)
  }

  /** When an argument set fits a pattern, and what the function then sees: the whole
      argument first, then every formal with what was passed for it or else its default. */
  lemma PatternMatches(f: nat, env: Env, arg: Option<Symbol>, formals: seq<Formal>, ellipsis: bool, c: Closure,
                       m: map<Symbol, Closure>)
    requires Force(f, ByName, c) == Ok(VAttrs(m))
    ensures var r := MatchPattern(f, ByName, env, AttrsPattern(arg, formals, ellipsis), c);
      if exists i :: 0 <= i < |formals| && formals[i].name !in m && formals[i].def.None? then r == Err(MissingArg)
      else if !ellipsis && exists x :: x in m && forall i :: 0 <= i < |formals| ==> formals[i].name != x
      then r == Err(UnexpectedArg)
      else
        && r.Ok? && r.value.Cons? && r.value.up == env && r.value.frame.ArgFrame?
        && ArePatternSlots(arg, formals, c, m, r.value.frame.slots)
  {
    FormalNamesAre(formals);
    var r := MatchPattern(f, ByName, env, AttrsPattern(arg, formals, ellipsis), c);
    if !(exists i :: 0 <= i < |formals| && formals[i].name !in m && formals[i].def.None?) {
      assert AllGiven(formals, m);
      hide FormalNames, ArePatternSlots;
      if ellipsis || m.Keys <= FormalNames(formals) { PatternSlots(arg, formals, c, m); }
    } else {
      assert !AllGiven(formals, m);
    }
  }

  lemma FormalNamesAre(formals: seq<Formal>)
    ensures forall x :: x in FormalNames(formals) <==> exists i :: 0 <= i < |formals| && formals[i].name == x
  {
  }

  /** The slots of a pattern: the whole argument first if it has a name, then the formals. */
  ghost predicate ArePatternSlots(arg: Option<Symbol>, formals: seq<Formal>, c: Closure, m: map<Symbol, Closure>,
                                  slots: seq<ArgSlot>)
  {
    var first := if arg.Some? then 1 else 0;
    && |slots| == first + |formals|
    && (arg.Some? ==> slots[0] == Given(arg.value, c))
    && forall i :: 0 <= i < |formals| ==> IsSlotOf(formals[i], m, slots[first + i])
  }

  lemma {:induction false} PatternSlots(arg: Option<Symbol>, formals: seq<Formal>, c: Closure, m: map<Symbol, Closure>)
    requires AllGiven(formals, m)
    ensures ArePatternSlots(arg, formals, c, m, ArgSlots(arg, formals, c, m))
  {
    FormalSlotsAre(formals, m);
    var given := FormalSlots(formals, m);
    assert ArgSlots(arg, formals, c, m) == (if arg.Some? then [Given(arg.value, c)] else []) + given;
    hide ArePatternSlots, IsSlotOf, AllGiven, ArgSlots, FormalSlots;
    SlotsInOrder(arg, given, formals, c, m);
  }

  lemma {:induction false} SlotsInOrder(arg: Option<Symbol>, given: seq<ArgSlot>, formals: seq<Formal>, c: Closure,
                                        m: map<Symbol, Closure>)
    requires |given| == |formals| && forall i :: 0 <= i < |formals| ==> IsSlotOf(formals[i], m, given[i])
    ensures ArePatternSlots(arg, formals, c, m, (if arg.Some? then [Given(arg.value, c)] else []) + given)
  {
    hide IsSlotOf;
  }

  lemma {:induction false} FormalSlotsAre(formals: seq<Formal>, m: map<Symbol, Closure>)
    requires AllGiven(formals, m)
    ensures forall i :: 0 <= i < |formals| ==> IsSlotOf(formals[i], m, FormalSlots(formals, m)[i])
  {
    forall i | 0 <= i < |formals|
      ensures IsSlotOf(formals[i], m, FormalSlots(formals, m)[i])
    {
      SlotOfFormal(formals[i], m);
      hide IsSlotOf;
    }
  }

  lemma SlotOfFormal(formal: Formal, m: map<Symbol, Closure>)
    requires !IsMissing(formal, m)
    ensures IsSlotOf(formal, m, FormalSlot(formal, m))
  {
  }

  /** A set is called through its `__functor`, which gets the set and then the argument. */
  lemma Functor(f: nat, m: map<Symbol, Closure>, arg: Closure)
    ensures ApplyOne(f + 1, ByName, VAttrs(m), arg) ==
      if "__functor" !in m then Err(NotAFunction)
      else
        var r := Force(f, ByName, m["__functor"]);
        if r.Ok? then Apply(f, ByName, r.value, [Done(VAttrs(m)), arg]) else r
  {
  }

  // --- data ---

  /** Element `i` of a list is its i-th expression, suspended where the list stands. */
  lemma ListElements(f: nat, g: nat, env: Env, es: seq<Expr>)
    ensures var r := Eval(f + 1, ByName, env, List(es));
      && r.Ok? && r.value.VList? && |r.value.elems| == |es|
      && forall i :: 0 <= i < |es| ==> Force(g, ByName, r.value.elems[i]) == Eval(g, ByName, env, es[i])
  {
  }

  /** One component of a selection. */
  lemma SelectOne(f: nat, env: Env, s: Expr, x: Symbol, def: Option<Expr>, v: Value)
    requires Eval(f, ByName, env, s) == Ok(v)
    ensures Eval(f + 1, ByName, env, Select(s, [StaticName(x)], def)) ==
      if v.VAttrs? && x in v.attrs then Force(f, ByName, v.attrs[x])
      else if def.Some? then Eval(f, ByName, env, def.value)
      else Err(if v.VAttrs? then MissingAttr else TypeErr)
    ensures Eval(f + 1, ByName, env, HasAttr(s, [StaticName(x)])) == Ok(VLit(LBool(v.VAttrs? && x in v.attrs)))
  {
    assert [StaticName(x)][1..] == [];
    forall nameFirst: bool
      ensures WalkPath(f, ByName, env, nameFirst, [StaticName(x)], Done(v)) == Ok(LookInto(v, x))
    {
      assert WalkOne(f, ByName, env, nameFirst, StaticName(x), Done(v)) == Ok(LookInto(v, x));
    }
  }

  /** A dynamic name selects what the string it evaluates to selects. */
  lemma DynamicSelection(f: nat, env: Env, s: Expr, e: Expr, x: Symbol, rest: seq<AttrName>, def: Option<Expr>)
    requires Eval(f, ByName, env, e) == Ok(VLit(LStr(x)))
    ensures Eval(f + 1, ByName, env, Select(s, [DynamicName(e)] + rest, def))
         == Eval(f + 1, ByName, env, Select(s, [StaticName(x)] + rest, def))
    ensures Eval(f + 1, ByName, env, HasAttr(s, [DynamicName(e)] + rest))
         == Eval(f + 1, ByName, env, HasAttr(s, [StaticName(x)] + rest))
  {
    var r := Eval(f, ByName, env, s);
    if r.Ok? {
      DynamicWalk(f, env, true, e, x, rest, Done(r.value));
      DynamicWalk(f, env, false, e, x, rest, Done(r.value));
    }
    hide WalkPath;
  }

  lemma {:induction false} DynamicWalk(f: nat, env: Env, nameFirst: bool, e: Expr, x: Symbol, rest: seq<AttrName>,
                                       c: Closure)
    requires Eval(f, ByName, env, e) == Ok(VLit(LStr(x)))
    ensures WalkPath(f, ByName, env, nameFirst, [DynamicName(e)] + rest, c)
         == WalkPath(f, ByName, env, nameFirst, [StaticName(x)] + rest, c)
  {
    var p, q := [DynamicName(e)] + rest, [StaticName(x)] + rest;
    assert p[1..] == rest && q[1..] == rest;
    assert GetName(f, ByName, env, p[0]) == GetName(f, ByName, env, q[0]);
    assert WalkOne(f, ByName, env, nameFirst, p[0], c) == WalkOne(f, ByName, env, nameFirst, q[0], c);
  }

  /** A longer path goes on from where its beginning ends. */
  lemma {:induction false} PathGoesOn(f: nat, env: Env, nameFirst: bool, p: seq<AttrName>, q: seq<AttrName>, c: Closure)
    ensures var r := WalkPath(f, ByName, env, nameFirst, p, c);
      WalkPath(f, ByName, env, nameFirst, p + q, c) ==
      if r.Ok? && r.value.There? then WalkPath(f, ByName, env, nameFirst, q, r.value.c) else r
    decreases |p|
  {
    if p == [] {
      assert p + q == q;
    } else {
      assert (p + q)[0] == p[0] && (p + q)[1..] == p[1..] + q;
      var r := WalkOne(f, ByName, env, nameFirst, p[0], c);
      if r.Ok? && r.value.There? { PathGoesOn(f, env, nameFirst, p[1..], q, r.value.c); }
    }
  }

  /** `//` has the attributes of both sides, the right one winning. */
  lemma UpdateWins(f: nat, env: Env, l: Expr, r: Expr, m1: map<Symbol, Closure>, m2: map<Symbol, Closure>)
    requires Eval(f, ByName, env, l) == Ok(VAttrs(m1)) && Eval(f, ByName, env, r) == Ok(VAttrs(m2))
    ensures var v := Eval(f + 1, ByName, env, Update(l, r));
      && v.Ok? && v.value.VAttrs? && v.value.attrs.Keys == m1.Keys + m2.Keys
      && forall x :: x in v.value.attrs ==> v.value.attrs[x] == if x in m2 then m2[x] else m1[x]
  {
  }
}
