/** `callFunction`: lambdas, primops, partial applications and functors in one loop. */
module Calls {
  import opened Options

  datatype Value =
    | Lambda(l: nat)
    | PrimOp(p: nat, arity: nat)
    | App(left: Value, args: seq<Value>)
    | Attrs(functor: Option<Value>, id: nat)
    | Atom(id: nat)
    | Thunk(t: nat)

  datatype Error = NotAFunction | AssertionFailed | EvalFailed(code: nat)

  datatype Result = Ok(value: Value) | Err(error: Error)

  /** What evaluation answers: thunks, lambdas applied to one argument, and primops
      applied to all of theirs. */
  datatype World = World(
    thunk: nat -> Result,
    lambda: (nat, Value) -> Result,
    prim: (nat, seq<Value>) -> Result)

  /** `App::target` and `App::totalArgs`. */
  function Target(v: Value): Value {
    if v.App? then Target(v.left) else v
  }

  function TotalArgs(v: Value): nat {
    if v.App? then |v.args| + TotalArgs(v.left) else 0
  }

  /** An application that forcing leaves alone. */
  predicate Unsaturated(v: Value): (r: bool)
    ensures v.App? && !v.left.App? ==> (r <==> v.left.PrimOp? && |v.args| < v.left.arity)
  {
    assert v.App? && !v.left.App? ==> Target(v.left) == v.left && TotalArgs(v.left) == 0;
    v.App? && Target(v).PrimOp? && TotalArgs(v) < Target(v).arity
  }

  predicate Forced(v: Value) {
    !v.Thunk? && (v.App? ==> Unsaturated(v))
  }

  /** Evaluation results are in weak head normal form. */
  ghost predicate ValidWorld(w: World) {
    && (forall t :: w.thunk(t).Ok? ==> Forced(w.thunk(t).value))
    && (forall l, x :: w.lambda(l, x).Ok? ==> Forced(w.lambda(l, x).value))
    && (forall p, xs :: w.prim(p, xs).Ok? ==> Forced(w.prim(p, xs).value))
  }

  // --- meaning, with a bound on the depth of the computation ---

  datatype Step = Next(cur: Value, args: seq<Value>) | Return(value: Value) | Fail(error: Error)

  function Force(w: World, fuel: nat, v: Value): Option<Result>
    decreases fuel, 0
  {
    match v
    case Thunk(t) => Some(w.thunk(t))
    case App(left, args) =>
      if Unsaturated(v) then Some(Ok(v))
      else if fuel == 0 then None
      else Call(w, fuel - 1, left, args)
    case _ => Some(Ok(v))
  }

  function Call(w: World, fuel: nat, f: Value, args: seq<Value>): Option<Result>
    decreases fuel, 2
  {
    var r := Force(w, fuel, f);
    if r.None? || r.value.Err? then r else Loop(w, fuel, r.value.value, args)
  }

  function Loop(w: World, fuel: nat, cur: Value, args: seq<Value>): Option<Result>
    decreases fuel, 1
  {
    if args == [] then Some(Ok(cur))
    else if fuel == 0 then None
    else
      match OneStep(w, fuel - 1, cur, args)
      case None => None
      case Some(Next(cur', args')) => Loop(w, fuel - 1, cur', args')
      case Some(Return(v)) => Some(Ok(v))
      case Some(Fail(e)) => Some(Err(e))
  }

  function Continue(r: Result, rest: seq<Value>): Step {
    if r.Ok? then Next(r.value, rest) else Fail(r.error)
  }

  /** One turn of the loop. A forced value that is an application is short of arguments. */
  function OneStep(w: World, fuel: nat, cur: Value, args: seq<Value>): Option<Step>
    requires args != []
    decreases fuel, 3
  {
    match cur
    case Lambda(l) => Some(Continue(w.lambda(l, args[0]), args[1..]))
    case PrimOp(p, arity) =>
      if |args| < arity then Some(Return(App(cur, args)))
      else Some(Continue(w.prim(p, args[..arity]), args[arity..]))
    case App(left, prev) =>
      if !Unsaturated(cur) then Some(Fail(NotAFunction))
      else if left.App? then Some(Fail(AssertionFailed))
      else
        var needed := left.arity - |prev|;
        if |args| < needed then Some(Return(App(left, prev + args)))
        else Some(Continue(w.prim(left.p, prev + args[..needed]), args[needed..]))
    case Attrs(Some(f), _) =>
      var r := Call(w, fuel, f, [cur, args[0]]);
      if r.None? then None else Some(Continue(r.value, args[1..]))
    case _ => Some(Fail(NotAFunction))
  }

  // --- the loop ---

  /** `EvalState::callFunction`. */
  method CallFunction(w: World, fuel: nat, fun: Value, args: seq<Value>) returns (r: Option<Result>)
    ensures r == Call(w, fuel, fun, args)
    decreases fuel, 2
  {
    var forced := ForceValue(w, fuel, fun);
    if forced.None? || forced.value.Err? { return forced; }
    var vCur, rest, n: nat := forced.value.value, args, fuel;
    while |rest| > 0
      invariant n <= fuel
      invariant Call(w, fuel, fun, args) == Loop(w, n, vCur, rest)
      decreases n
    {
      if n == 0 { return None; }
      n := n - 1;
      match vCur {
        case Lambda(l) =>
          var res := w.lambda(l, rest[0]);
          if res.Err? { return Some(res); }
          vCur, rest := res.value, rest[1..];
        case PrimOp(p, arity) =>
          if |rest| < arity { return Some(Ok(MakeAppChain(vCur, rest))); }
          var res := w.prim(p, rest[..arity]);
          if res.Err? { return Some(res); }
          vCur, rest := res.value, rest[arity..];
        case App(left, prevArgs) =>
          if !Unsaturated(vCur) { return Some(Err(NotAFunction)); }
          if left.App? { return Some(Err(AssertionFailed)); }
          if |rest| < left.arity - |prevArgs| { return Some(Ok(MakeAppChain(vCur, rest))); }
          var vArgs, rest' := CompleteArgs(prevArgs, rest, left.arity);
          var res := w.prim(left.p, vArgs);
          if res.Err? { return Some(res); }
          vCur, rest := res.value, rest';
        case Attrs(Some(f), _) =>
          var res := CallFunction(w, n, f, [vCur, rest[0]]);
          if res.None? || res.value.Err? { return res; }
          vCur, rest := res.value.value, rest[1..];
        case _ =>
          return Some(Err(NotAFunction));
      }
    }
    return Some(Ok(vCur));
  }

  /** The earlier arguments, filled up to the arity from the new ones. */
  method CompleteArgs(prevArgs: seq<Value>, args: seq<Value>, arity: nat) returns (vArgs: seq<Value>, rest: seq<Value>)
    requires |prevArgs| <= arity <= |prevArgs| + |args|
    ensures vArgs == prevArgs + args[..arity - |prevArgs|] && rest == args[arity - |prevArgs|..]
  {
    vArgs, rest := prevArgs, args;
    while |vArgs| < arity
      invariant |prevArgs| <= |vArgs| <= arity
      invariant vArgs == prevArgs + args[..|vArgs| - |prevArgs|] && rest == args[|vArgs| - |prevArgs|..]
    {
      vArgs, rest := vArgs + [rest[0]], rest[1..];
    }
  }

  /** Extends an application instead of nesting it. */
  function MakeAppChain(cur: Value, args: seq<Value>): Value {
    if cur.App? then App(cur.left, cur.args + args) else App(cur, args)
  }

  method ForceValue(w: World, fuel: nat, v: Value) returns (r: Option<Result>)
    ensures r == Force(w, fuel, v)
    decreases fuel, 0
  {
    match v {
      case Thunk(t) => return Some(w.thunk(t));
      case App(left, args) =>
        if Unsaturated(v) { return Some(Ok(v)); }
        if fuel == 0 { return None; }
        r := CallFunction(w, fuel - 1, left, args);
      case _ => return Some(Ok(v));
    }
  }

  // --- results do not depend on the bound ---

  lemma {:induction false} ForceMono(w: World, m: nat, n: nat, v: Value)
    requires m <= n && Force(w, m, v).Some?
    ensures Force(w, n, v) == Force(w, m, v)
    decreases m, 0
  {
    if v.App? && !Unsaturated(v) { CallMono(w, m - 1, n - 1, v.left, v.args); }
  }

  lemma {:induction false} CallMono(w: World, m: nat, n: nat, f: Value, args: seq<Value>)
    requires m <= n && Call(w, m, f, args).Some?
    ensures Call(w, n, f, args) == Call(w, m, f, args)
    decreases m, 2
  {
    ForceMono(w, m, n, f);
    var r := Force(w, m, f).value;
    if r.Ok? { LoopMono(w, m, n, r.value, args); }
  }

  lemma {:induction false} LoopMono(w: World, m: nat, n: nat, cur: Value, args: seq<Value>)
    requires m <= n && Loop(w, m, cur, args).Some?
    ensures Loop(w, n, cur, args) == Loop(w, m, cur, args)
    decreases m, 1
  {
    if args != [] {
      StepMono(w, m - 1, n - 1, cur, args);
      var s := OneStep(w, m - 1, cur, args).value;
      if s.Next? { LoopMono(w, m - 1, n - 1, s.cur, s.args); }
    }
  }

  lemma {:induction false} StepMono(w: World, m: nat, n: nat, cur: Value, args: seq<Value>)
    requires args != [] && m <= n && OneStep(w, m, cur, args).Some?
    ensures OneStep(w, n, cur, args) == OneStep(w, m, cur, args)
    decreases m, 3
  {
    if cur.Attrs? && cur.functor.Some? { CallMono(w, m, n, cur.functor.value, [cur, args[0]]); }
  }

  /** The call ends, with result `r`. */
  ghost predicate Calls(w: World, f: Value, args: seq<Value>, r: Result) {
    exists n: nat :: Call(w, n, f, args) == Some(r)
  }

  // --- results are forced ---

  lemma {:induction false} LoopForced(w: World, n: nat, cur: Value, args: seq<Value>)
    requires ValidWorld(w) && Forced(cur) && Loop(w, n, cur, args).Some?
    ensures var r := Loop(w, n, cur, args).value; r.Ok? ==> Forced(r.value)
    decreases n, 1
  {
    if args != [] {
      StepForced(w, n - 1, cur, args);
      var s := OneStep(w, n - 1, cur, args).value;
      if s.Next? { LoopForced(w, n - 1, s.cur, s.args); }
    }
  }

  lemma {:induction false} StepForced(w: World, n: nat, cur: Value, args: seq<Value>)
    requires args != [] && ValidWorld(w) && Forced(cur) && OneStep(w, n, cur, args).Some?
    ensures var s := OneStep(w, n, cur, args).value;
      (s.Next? ==> Forced(s.cur)) && (s.Return? ==> Forced(s.value))
    decreases n, 3
  {
    match cur
    case Attrs(Some(f), _) => CallForced(w, n, f, [cur, args[0]]);
    case _ =>
  }

  lemma {:induction false} CallForced(w: World, n: nat, f: Value, args: seq<Value>)
    requires ValidWorld(w) && Call(w, n, f, args).Some?
    ensures var r := Call(w, n, f, args).value; r.Ok? ==> Forced(r.value)
    decreases n, 2
  {
    ForceForced(w, n, f);
    var r := Force(w, n, f).value;
    if r.Ok? { LoopForced(w, n, r.value, args); }
  }

  /** Forcing ends in weak head normal form, and forcing again changes nothing. */
  lemma {:induction false} ForceForced(w: World, n: nat, v: Value)
    requires ValidWorld(w) && Force(w, n, v).Some?
    ensures var r := Force(w, n, v).value;
      r.Ok? ==> Forced(r.value) && forall m: nat :: Force(w, m, r.value) == Some(r)
    decreases n, 0
  {
    if v.App? && !Unsaturated(v) { CallForced(w, n - 1, v.left, v.args); }
  }

  // --- calls compose ---

  /** How a step on `a` continues compared with the step on `a + b`. */
  lemma StepSplit(w: World, n: nat, cur: Value, a: seq<Value>, b: seq<Value>)
    requires a != [] && Forced(cur) && OneStep(w, n, cur, a).Some?
    ensures var s := OneStep(w, n, cur, a).value;
      && (s.Next? ==> OneStep(w, n, cur, a + b) == Some(Next(s.cur, s.args + b)))
      && (s.Fail? ==> OneStep(w, n, cur, a + b) == Some(s))
      && (s.Return? ==> OneStep(w, n, cur, a + b) == if b == [] then Some(s) else OneStep(w, n, s.value, b))
  {
    if b == [] {
      assert a + b == a;
      var s := OneStep(w, n, cur, a).value;
      if s.Next? { assert s.args + b == s.args; }
    } else {
      assert (a + b)[0] == a[0] && (a + b)[1..] == a[1..] + b;
      match cur
      case PrimOp(p, arity) => SplitAt(a, b, arity);
      case App(left, prev) => AppSplit(w, n, cur, a, b);
      case _ =>
    }
  }

  lemma AppSplit(w: World, n: nat, cur: Value, a: seq<Value>, b: seq<Value>)
    requires a != [] && b != [] && cur.App? && Forced(cur)
    ensures var s := OneStep(w, n, cur, a).value;
      && (s.Next? ==> OneStep(w, n, cur, a + b) == Some(Next(s.cur, s.args + b)))
      && (s.Fail? ==> OneStep(w, n, cur, a + b) == Some(s))
      && (s.Return? ==> OneStep(w, n, cur, a + b) == OneStep(w, n, s.value, b))
  {
    if !cur.left.App? {
      var prev, needed := cur.args, cur.left.arity - |cur.args|;
      SplitAt(a, b, needed);
      if |a| < needed {
        assert (prev + a) + b == prev + (a + b);
        if needed <= |a + b| {
          assert (prev + a) + b[..needed - |a|] == prev + (a + b[..needed - |a|]);
        }
      }
    }
  }

  lemma SplitAt(a: seq<Value>, b: seq<Value>, k: nat)
    ensures k <= |a| ==> (a + b)[..k] == a[..k] && (a + b)[k..] == a[k..] + b
    ensures |a| < k <= |a + b| ==> (a + b)[..k] == a + b[..k - |a|] && (a + b)[k..] == b[k - |a|..]
  {
  }

  lemma LoopUnfold(w: World, n: nat, cur: Value, args: seq<Value>)
    ensures Loop(w, n, cur, args) ==
      if args == [] then Some(Ok(cur))
      else if n == 0 then None
      else
        match OneStep(w, n - 1, cur, args)
        case None => None
        case Some(Next(cur', args')) => Loop(w, n - 1, cur', args')
        case Some(Return(v)) => Some(Ok(v))
        case Some(Fail(e)) => Some(Err(e))
  {
  }

  lemma {:induction false} LoopSplit(w: World, n: nat, cur: Value, a: seq<Value>, b: seq<Value>)
    requires ValidWorld(w) && Forced(cur) && Loop(w, n, cur, a + b).Some?
    ensures Loop(w, n, cur, a).Some?
    ensures var r1, r := Loop(w, n, cur, a).value, Loop(w, n, cur, a + b);
      if r1.Err? then r == Some(r1) else Loop(w, n, r1.value, b) == r
    decreases n
  {
    if a == [] {
      assert a + b == b;
    } else {
      hide OneStep, Forced, ValidWorld, Loop;
      LoopUnfold(w, n, cur, a);
      LoopUnfold(w, n, cur, a + b);
      StepDefined(w, n - 1, cur, a, b);
      StepSplit(w, n - 1, cur, a, b);
      StepForced(w, n - 1, cur, a);
      var s := OneStep(w, n - 1, cur, a).value;
      if s.Next? {
        LoopSplit(w, n - 1, s.cur, s.args, b);
        var r1 := Loop(w, n - 1, s.cur, s.args).value;
        if r1.Ok? { LoopMono(w, n - 1, n, r1.value, b); }
      } else if s.Return? {
        LoopUnfold(w, n, s.value, b);
      }
    }
  }

  lemma StepDefined(w: World, n: nat, cur: Value, a: seq<Value>, b: seq<Value>)
    requires a != []
    ensures OneStep(w, n, cur, a).Some? <==> OneStep(w, n, cur, a + b).Some?
  {
    assert (a + b)[0] == a[0];
  }

  lemma {:induction false} LoopJoin(w: World, m: nat, n: nat, cur: Value, a: seq<Value>, b: seq<Value>)
    requires ValidWorld(w) && Forced(cur) && Loop(w, m, cur, a).Some?
    requires var r1 := Loop(w, m, cur, a).value; r1.Ok? ==> Loop(w, n, r1.value, b).Some?
    ensures var r1 := Loop(w, m, cur, a).value;
      Loop(w, m + n, cur, a + b) == if r1.Err? then Some(r1) else Loop(w, n, r1.value, b)
    decreases m
  {
    if a == [] {
      assert a + b == b;
      LoopMono(w, n, m + n, cur, b);
    } else {
      hide OneStep, Forced, ValidWorld;
      StepSplit(w, m - 1, cur, a, b);
      StepForced(w, m - 1, cur, a);
      var s := OneStep(w, m - 1, cur, a).value;
      match s
      case Next(cur', args') =>
        StepMono(w, m - 1, m + n - 1, cur, a + b);
        LoopJoin(w, m - 1, n, cur', args', b);
      case Fail(_) =>
        StepMono(w, m - 1, m + n - 1, cur, a + b);
      case Return(v) =>
        if b == [] {
          assert a + b == a;
          LoopMono(w, m, m + n, cur, a);
        } else {
          ReturnJoin(w, m, n, cur, a, b);
        }
    }
  }

  /** A partial application goes on exactly like the call that built it. */
  lemma ReturnJoin(w: World, m: nat, n: nat, cur: Value, a: seq<Value>, b: seq<Value>)
    requires ValidWorld(w) && Forced(cur) && a != [] && b != [] && m > 0
    requires OneStep(w, m - 1, cur, a).Some? && OneStep(w, m - 1, cur, a).value.Return?
    requires Loop(w, n, OneStep(w, m - 1, cur, a).value.value, b).Some?
    ensures Loop(w, m + n, cur, a + b) == Loop(w, n, OneStep(w, m - 1, cur, a).value.value, b)
  {
    var v := OneStep(w, m - 1, cur, a).value.value;
    LoopMono(w, n, m + n, v, b);
    assert OneStep(w, m + n - 1, cur, a) == OneStep(w, m - 1, cur, a);
    StepSplit(w, m + n - 1, cur, a, b);
  }

  /** Calling with `a + b` is calling with `a` and then calling the result with `b`;
      errors and divergence included. */
  lemma CallsCompose(w: World, f: Value, a: seq<Value>, b: seq<Value>, r: Result)
    requires ValidWorld(w)
    ensures Calls(w, f, a + b, r) <==>
      exists r1 :: Calls(w, f, a, r1) && if r1.Err? then r == r1 else Calls(w, r1.value, b, r)
  {
    if Calls(w, f, a + b, r) { CallSplit(w, f, a, b, r); }
    forall r1 | Calls(w, f, a, r1) && if r1.Err? then r == r1 else Calls(w, r1.value, b, r)
      ensures Calls(w, f, a + b, r)
    {
      CallJoin(w, f, a, b, r1, r);
    }
  }

  lemma CallSplit(w: World, f: Value, a: seq<Value>, b: seq<Value>, r: Result)
    requires ValidWorld(w) && Calls(w, f, a + b, r)
    ensures exists r1 :: Calls(w, f, a, r1) && if r1.Err? then r == r1 else Calls(w, r1.value, b, r)
  {
    var n: nat :| Call(w, n, f, a + b) == Some(r);
    ForceForced(w, n, f);
    var v := Force(w, n, f).value;
    if v.Err? {
      assert Call(w, n, f, a) == Some(r);
    } else {
      LoopSplit(w, n, v.value, a, b);
      var r1 := Loop(w, n, v.value, a).value;
      assert Call(w, n, f, a) == Some(r1);
      LoopForced(w, n, v.value, a);
      if r1.Ok? { assert Call(w, n, r1.value, b) == Some(r); }
    }
  }

  lemma CallJoin(w: World, f: Value, a: seq<Value>, b: seq<Value>, r1: Result, r: Result)
    requires ValidWorld(w) && Calls(w, f, a, r1)
    requires if r1.Err? then r == r1 else Calls(w, r1.value, b, r)
    ensures Calls(w, f, a + b, r)
  {
    var m: nat :| Call(w, m, f, a) == Some(r1);
    ForceForced(w, m, f);
    var v := Force(w, m, f).value;
    if v.Err? {
      assert Call(w, m, f, a + b) == Some(r);
    } else {
      var n: nat := 0;
      if r1.Ok? {
        assert Loop(w, m, v.value, a) == Some(r1);
        LoopForced(w, m, v.value, a);
        var k: nat :| Call(w, k, r1.value, b) == Some(r);
        n := k;
        assert Force(w, n, r1.value) == Some(Ok(r1.value));
      }
      LoopJoin(w, m, n, v.value, a, b);
      ForceMono(w, m, m + n, f);
      assert Call(w, m + n, f, a + b) == Some(r);
    }
  }

  // --- what a single call is ---

  lemma CallUnfolds(w: World, n: nat, f: Value, args: seq<Value>)
    requires Forced(f) && args != []
    ensures var s := OneStep(w, n, f, args);
      Call(w, n + 1, f, args) ==
      if s.None? then None
      else if s.value.Next? then Loop(w, n, s.value.cur, s.value.args)
      else if s.value.Return? then Some(Ok(s.value.value))
      else Some(Err(s.value.error))
  {
    assert Force(w, n + 1, f) == Some(Ok(f));
    assert Call(w, n + 1, f, args) == Loop(w, n + 1, f, args);
  }

  lemma LoopEnds(w: World, n: nat, r: Result)
    ensures var s := Continue(r, []);
      (if s.Next? then Loop(w, n, s.cur, s.args) else Some(Err(s.error))) == Some(r)
  {
  }

  /** A lambda takes one argument. */
  lemma LambdaCall(w: World, n: nat, l: nat, x: Value)
    ensures Call(w, n + 1, Lambda(l), [x]) == Some(w.lambda(l, x))
  {
    assert [x][1..] == [];
    assert OneStep(w, n, Lambda(l), [x]) == Some(Continue(w.lambda(l, x), []));
    CallUnfolds(w, n, Lambda(l), [x]);
    LoopEnds(w, n, w.lambda(l, x));
  }

  /** A set is called through its functor, which gets the set and then the argument. */
  lemma FunctorCall(w: World, n: nat, f: Value, id: nat, x: Value)
    ensures Call(w, n + 1, Attrs(Some(f), id), [x]) == Call(w, n, f, [Attrs(Some(f), id), x])
  {
    var self := Attrs(Some(f), id);
    assert [x][1..] == [];
    var r := Call(w, n, f, [self, x]);
    assert OneStep(w, n, self, [x]) == if r.None? then None else Some(Continue(r.value, []));
    CallUnfolds(w, n, self, [x]);
    if r.Some? { LoopEnds(w, n, r.value); }
  }

  /** A primop that already has arguments, possibly none, waits until it has all of them,
      and gets them in the order in which they came. */
  lemma PrimOpCall(w: World, n: nat, p: nat, arity: nat, prev: seq<Value>, args: seq<Value>)
    requires args != [] && |prev| + |args| <= arity
    ensures var f := if prev == [] then PrimOp(p, arity) else App(PrimOp(p, arity), prev);
      Call(w, n + 1, f, args) ==
      if |prev| + |args| < arity then Some(Ok(App(PrimOp(p, arity), prev + args)))
      else Some(w.prim(p, prev + args))
  {
    var f := if prev == [] then PrimOp(p, arity) else App(PrimOp(p, arity), prev);
    assert prev == [] ==> prev + args == args;
    assert prev != [] ==> Unsaturated(f);
    CallUnfolds(w, n, f, args);
    LoopEnds(w, n, w.prim(p, prev + args));
    if |prev| + |args| == arity {
      assert args[..|args|] == args && args[|args|..] == [];
      assert OneStep(w, n, f, args) == Some(Continue(w.prim(p, prev + args), []));
    } else {
      assert OneStep(w, n, f, args) == Some(Return(App(PrimOp(p, arity), prev + args)));
    }
  }

  /** Nothing else can be called. */
  lemma NotCallable(w: World, n: nat, id: nat, args: seq<Value>)
    requires args != []
    ensures Call(w, n + 1, Atom(id), args) == Some(Err(NotAFunction))
    ensures Call(w, n + 1, Attrs(None, id), args) == Some(Err(NotAFunction))
  {
    CallUnfolds(w, n, Atom(id), args);
    CallUnfolds(w, n, Attrs(None, id), args);
  }

  /** Forcing evaluates thunks and calls applications that have all their arguments. */
  lemma ForceMeans(w: World, n: nat, t: nat, left: Value, args: seq<Value>)
    ensures Force(w, n, Thunk(t)) == Some(w.thunk(t))
    ensures Force(w, n + 1, App(left, args)) ==
      if Target(left).PrimOp? && TotalArgs(left) + |args| < Target(left).arity then Some(Ok(App(left, args)))
      else Call(w, n, left, args)
    ensures Target(left) == (if left.App? then Target(left.left) else left)
    ensures TotalArgs(left) == (if left.App? then |left.args| + TotalArgs(left.left) else 0)
  {
  }

  /** So a primop applied in two portions is left alone as long as both together are too few. */
  lemma ForceNested(w: World, n: nat, p: nat, arity: nat, xs: seq<Value>, ys: seq<Value>)
    ensures var nested := App(App(PrimOp(p, arity), xs), ys);
      Force(w, n + 1, nested) ==
      if |xs| + |ys| < arity then Some(Ok(nested)) else Call(w, n, App(PrimOp(p, arity), xs), ys)
  {
    assert TotalArgs(PrimOp(p, arity)) == 0 && Target(PrimOp(p, arity)) == PrimOp(p, arity);
    assert TotalArgs(App(PrimOp(p, arity), xs)) == |xs| && Target(App(PrimOp(p, arity), xs)) == PrimOp(p, arity);
  }

  // --- partial applications ---

  /** A primop with more than zero and fewer than arity arguments. */
  predicate Flat(v: Value) {
    v.App? && v.left.PrimOp? && 0 < |v.args| < v.left.arity
  }

  /** The value is what a lambda or a primop answered. */
  ghost predicate Answered(w: World, v: Value) {
    (exists l, x :: w.lambda(l, x) == Ok(v)) || (exists p, xs :: w.prim(p, xs) == Ok(v))
  }

  /** Every partial application the loop builds is flat. */
  lemma {:induction false} StepBuildsFlat(w: World, n: nat, cur: Value, args: seq<Value>)
    requires ValidWorld(w) && args != [] && Forced(cur) && OneStep(w, n, cur, args).Some?
    ensures var s := OneStep(w, n, cur, args).value;
      (s.Return? ==> Flat(s.value)) && (s.Next? ==> Flat(s.cur) || Answered(w, s.cur))
    decreases n, 3
  {
    match cur
    case Attrs(Some(f), _) => CallBuildsFlat(w, n, f, [cur, args[0]]);
    case _ =>
  }

  lemma {:induction false} LoopBuildsFlat(w: World, n: nat, cur: Value, args: seq<Value>)
    requires ValidWorld(w) && args != [] && Forced(cur) && Loop(w, n, cur, args).Some?
    ensures var r := Loop(w, n, cur, args).value; r.Ok? ==> Flat(r.value) || Answered(w, r.value)
    decreases n, 1
  {
    StepBuildsFlat(w, n - 1, cur, args);
    StepForced(w, n - 1, cur, args);
    var s := OneStep(w, n - 1, cur, args).value;
    if s.Next? && s.args != [] { LoopBuildsFlat(w, n - 1, s.cur, s.args); }
  }

  /** In every call with arguments, the result is what a lambda or a primop answered or a
      flat partial application that the call built. */
  lemma {:induction false} CallBuildsFlat(w: World, n: nat, f: Value, args: seq<Value>)
    requires ValidWorld(w) && args != [] && Call(w, n, f, args).Some?
    ensures var r := Call(w, n, f, args).value; r.Ok? ==> Flat(r.value) || Answered(w, r.value)
    decreases n, 2
  {
    ForceForced(w, n, f);
    var r := Force(w, n, f).value;
    if r.Ok? { LoopBuildsFlat(w, n, r.value, args); }
  }

  /** Every unsaturated application inside the value is flat and not empty. */
  predicate Sound(v: Value) {
    match v
    case App(left, args) =>
      && Sound(left) && (forall i :: 0 <= i < |args| ==> Sound(args[i]))
      && (Unsaturated(v) ==> left.PrimOp? && 0 < |args| < left.arity)
    case Attrs(Some(f), _) => Sound(f)
    case _ => true
  }

  predicate AllSound(vs: seq<Value>) {
    forall i :: 0 <= i < |vs| ==> Sound(vs[i])
  }

  ghost predicate SoundResult(r: Result) {
    if r.Ok? then Sound(r.value) else r.error != AssertionFailed
  }

  ghost predicate SoundWorld(w: World) {
    && (forall t :: SoundResult(w.thunk(t)))
    && (forall l, x :: Sound(x) ==> SoundResult(w.lambda(l, x)))
    && (forall p, xs :: AllSound(xs) ==> SoundResult(w.prim(p, xs)))
  }

  lemma {:induction false} StepSound(w: World, n: nat, cur: Value, args: seq<Value>)
    requires SoundWorld(w) && Sound(cur) && AllSound(args) && args != [] && OneStep(w, n, cur, args).Some?
    ensures match OneStep(w, n, cur, args).value
      case Next(cur', args') => Sound(cur') && AllSound(args')
      case Return(v) => Sound(v) && Unsaturated(v)
      case Fail(e) => e != AssertionFailed
    decreases n, 3
  {
    match cur
    case Lambda(l) =>
    case PrimOp(p, arity) =>
      if |args| >= arity { assert AllSound(args[..arity]); }
    case App(left, prev) =>
      if Unsaturated(cur) {
        var needed := left.arity - |prev|;
        if |args| >= needed { assert AllSound(prev + args[..needed]); }
      }
    case Attrs(Some(f), _) => CallSound(w, n, f, [cur, args[0]]);
    case _ =>
  }

  lemma {:induction false} LoopSound(w: World, n: nat, cur: Value, args: seq<Value>)
    requires SoundWorld(w) && Sound(cur) && AllSound(args) && Loop(w, n, cur, args).Some?
    ensures SoundResult(Loop(w, n, cur, args).value)
    decreases n, 1
  {
    if args != [] {
      StepSound(w, n - 1, cur, args);
      var s := OneStep(w, n - 1, cur, args).value;
      if s.Next? { LoopSound(w, n - 1, s.cur, s.args); }
    }
  }

  /** On sound values no call fails the assertion, and its result is sound again. */
  lemma {:induction false} CallSound(w: World, n: nat, f: Value, args: seq<Value>)
    requires SoundWorld(w) && Sound(f) && AllSound(args) && Call(w, n, f, args).Some?
    ensures SoundResult(Call(w, n, f, args).value)
    decreases n, 2
  {
    ForceSound(w, n, f);
    var r := Force(w, n, f).value;
    if r.Ok? { LoopSound(w, n, r.value, args); }
  }

  lemma {:induction false} ForceSound(w: World, n: nat, v: Value)
    requires SoundWorld(w) && Sound(v) && Force(w, n, v).Some?
    ensures SoundResult(Force(w, n, v).value)
    decreases n, 0
  {
    if v.App? && !Unsaturated(v) { CallSound(w, n - 1, v.left, v.args); }
  }

  /** A lazy application of a partial application that is still short of arguments, as
      `map` builds it, survives forcing and then fails the assertion when called. */
  lemma MappedPartialApplication(w: World, p: nat, x: Value, y: Value, z: Value)
    ensures var nested := App(App(PrimOp(p, 3), [x]), [y]);
      && Forced(nested)
      && Calls(w, nested, [z], Err(AssertionFailed))
      && Calls(w, App(PrimOp(p, 3), [x, y]), [z], w.prim(p, [x, y, z]))
  {
    var flat, nested := App(PrimOp(p, 3), [x, y]), App(App(PrimOp(p, 3), [x]), [y]);
    assert Target(PrimOp(p, 3)) == PrimOp(p, 3) && TotalArgs(PrimOp(p, 3)) == 0;
    assert Target(nested.left) == PrimOp(p, 3) && TotalArgs(nested.left) == 1;
    assert Unsaturated(nested) && Unsaturated(flat);
    assert OneStep(w, 0, nested, [z]) == Some(Fail(AssertionFailed));
    assert Call(w, 1, nested, [z]) == Some(Err(AssertionFailed));
    assert |[z]| == 1 && [z][..1] == [z];
    assert [x, y] + [z] == [x, y, z];
    assert |[z][1..]| == 0;
    assert OneStep(w, 0, flat, [z]) == Some(Continue(w.prim(p, [x, y, z]), [z][1..]));
    assert Call(w, 1, flat, [z]) == Some(w.prim(p, [x, y, z]));
  }

  /** Calling the value meets an application of an application that is short of
      arguments: in the value itself, in what forcing it calls, or in its functor. */
  predicate Hits(v: Value) {
    match v
    case App(left, _) => if Unsaturated(v) then left.App? else Hits(left)
    case Attrs(Some(f), _) => Hits(f)
    case _ => false
  }

  /** The arguments that the function's own applications hold are sound. */
  predicate SoundArgs(v: Value) {
    match v
    case App(left, args) => AllSound(args) && SoundArgs(left)
    case Attrs(Some(f), _) => SoundArgs(f)
    case _ => true
  }

  /** The applications that calling the value can reach hold arguments. */
  predicate HoldsArgs(v: Value) {
    match v
    case App(left, args) => args != [] && HoldsArgs(left)
    case Attrs(Some(f), _) => HoldsArgs(f)
    case _ => true
  }

  lemma {:induction false} SoundUnlessHits(v: Value)
    requires SoundArgs(v) && HoldsArgs(v) && !Hits(v)
    ensures Sound(v)
  {
    match v
    case App(left, args) => if !Unsaturated(v) { SoundUnlessHits(left); }
    case Attrs(Some(f), _) => SoundUnlessHits(f);
    case _ =>
  }

  lemma {:induction false} HitsFails(w: World, n: nat, f: Value, args: seq<Value>)
    requires Hits(f) && HoldsArgs(f) && args != [] && Call(w, n, f, args).Some?
    ensures Call(w, n, f, args).value == Err(AssertionFailed)
    decreases n, f
  {
    match f
    case App(left, prev) =>
      if Unsaturated(f) {
        assert OneStep(w, n - 1, f, args) == Some(Fail(AssertionFailed));
      } else {
        HitsFails(w, n - 1, left, prev);
      }
    case Attrs(Some(g), _) =>
      assert OneStep(w, n - 1, f, args).Some?;
      HitsFails(w, n - 1, g, [f, args[0]]);
  }

  /** With everything else sound, calling any function fails the assertion exactly when
      the call meets an application of an application. */
  lemma AssertionExact(w: World, n: nat, f: Value, args: seq<Value>)
    requires SoundWorld(w) && AllSound(args) && args != [] && SoundArgs(f) && HoldsArgs(f)
    requires Call(w, n, f, args).Some?
    ensures Call(w, n, f, args).value == Err(AssertionFailed) <==> Hits(f)
  {
    if Hits(f) {
      HitsFails(w, n, f, args);
    } else {
      SoundUnlessHits(f);
      CallSound(w, n, f, args);
    }
  }

  // --- where nested applications come from ---

  /** The assertion failed, or calling the value would make it fail. */
  predicate Bad(r: Result) {
    if r.Ok? then Hits(r.value) else r.error == AssertionFailed
  }

  /** What thunks, lambdas and primops answer in the course of forcing and calling. */
  function ForceAnswers(w: World, fuel: nat, v: Value): set<Result>
    decreases fuel, 0
  {
    match v
    case Thunk(t) => {w.thunk(t)}
    case App(left, args) => if Unsaturated(v) || fuel == 0 then {} else CallAnswers(w, fuel - 1, left, args)
    case _ => {}
  }

  function CallAnswers(w: World, fuel: nat, f: Value, args: seq<Value>): set<Result>
    decreases fuel, 2
  {
    var r := Force(w, fuel, f);
    ForceAnswers(w, fuel, f) + if r.Some? && r.value.Ok? then LoopAnswers(w, fuel, r.value.value, args) else {}
  }

  function LoopAnswers(w: World, fuel: nat, cur: Value, args: seq<Value>): set<Result>
    decreases fuel, 1
  {
    if args == [] || fuel == 0 then {}
    else
      var s := OneStep(w, fuel - 1, cur, args);
      StepAnswers(w, fuel - 1, cur, args) +
      if s.Some? && s.value.Next? then LoopAnswers(w, fuel - 1, s.value.cur, s.value.args) else {}
  }

  function StepAnswers(w: World, fuel: nat, cur: Value, args: seq<Value>): set<Result>
    requires args != []
    decreases fuel, 3
  {
    match cur
    case Lambda(l) => {w.lambda(l, args[0])}
    case PrimOp(p, arity) => if |args| < arity then {} else {w.prim(p, args[..arity])}
    case App(left, prev) =>
      if !Unsaturated(cur) || left.App? || |args| < left.arity - |prev| then {}
      else {w.prim(left.p, prev + args[..left.arity - |prev|])}
    case Attrs(Some(f), _) => CallAnswers(w, fuel, f, [cur, args[0]])
    case _ => {}
  }

  ghost predicate AnyBad(rs: set<Result>) {
    exists r :: r in rs && Bad(r)
  }

  /** Applications always hold arguments. */
  ghost predicate WellBuilt(w: World) {
    && ValidWorld(w)
    && (forall t :: w.thunk(t).Ok? ==> HoldsArgs(w.thunk(t).value))
    && (forall l, x :: w.lambda(l, x).Ok? ==> HoldsArgs(w.lambda(l, x).value))
    && (forall p, xs :: w.prim(p, xs).Ok? ==> HoldsArgs(w.prim(p, xs).value))
  }

  lemma {:induction false} StepBlame(w: World, n: nat, cur: Value, args: seq<Value>)
    requires WellBuilt(w) && HoldsArgs(cur) && !Hits(cur) && args != [] && OneStep(w, n, cur, args).Some?
    ensures match OneStep(w, n, cur, args).value
      case Next(cur', _) => HoldsArgs(cur') && (Hits(cur') <==> AnyBad(StepAnswers(w, n, cur, args)))
      case Return(v) => HoldsArgs(v) && !Hits(v) && StepAnswers(w, n, cur, args) == {}
      case Fail(e) => e == AssertionFailed <==> AnyBad(StepAnswers(w, n, cur, args))
    decreases n, 3
  {
    match cur
    case Attrs(Some(f), _) => CallBlame(w, n, f, [cur, args[0]]);
    case _ =>
  }

  lemma {:induction false} LoopBlame(w: World, n: nat, cur: Value, args: seq<Value>)
    requires WellBuilt(w) && Forced(cur) && HoldsArgs(cur) && Loop(w, n, cur, args).Some?
    ensures var r := Loop(w, n, cur, args).value;
      && (r.Ok? ==> HoldsArgs(r.value))
      && (Bad(r) <==> Hits(cur) || AnyBad(LoopAnswers(w, n, cur, args)))
    decreases n, 1
  {
    if args != [] {
      if Hits(cur) {
        assert Force(w, n, cur) == Some(Ok(cur));
        HitsFails(w, n, cur, args);
      } else {
        StepBlame(w, n - 1, cur, args);
        StepForced(w, n - 1, cur, args);
        var s := OneStep(w, n - 1, cur, args).value;
        if s.Next? { LoopBlame(w, n - 1, s.cur, s.args); }
      }
    }
  }

  /** In any evaluator, a call fails the assertion or returns a value that will exactly when
      the called value already would, or something it evaluates answers with such a value
      or failure: the loop itself adds none and loses none. */
  lemma {:induction false} CallBlame(w: World, n: nat, f: Value, args: seq<Value>)
    requires WellBuilt(w) && HoldsArgs(f) && Call(w, n, f, args).Some?
    ensures var r := Call(w, n, f, args).value;
      && (r.Ok? ==> HoldsArgs(r.value))
      && (Bad(r) <==> Hits(f) || AnyBad(CallAnswers(w, n, f, args)))
    decreases n, 2
  {
    ForceBlame(w, n, f);
    ForceForced(w, n, f);
    var r := Force(w, n, f).value;
    if r.Ok? { LoopBlame(w, n, r.value, args); }
  }

  lemma {:induction false} ForceBlame(w: World, n: nat, v: Value)
    requires WellBuilt(w) && HoldsArgs(v) && Force(w, n, v).Some?
    ensures var r := Force(w, n, v).value;
      && (r.Ok? ==> HoldsArgs(r.value))
      && (Bad(r) <==> Hits(v) || AnyBad(ForceAnswers(w, n, v)))
    decreases n, 0
  {
    if v.App? && !Unsaturated(v) { CallBlame(w, n - 1, v.left, v.args); }
  }
}
