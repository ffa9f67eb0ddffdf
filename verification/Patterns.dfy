/** Matching an argument set against the formals of an attribute-pattern lambda. */
module Patterns {
  import opened Options
  import opened AttributeSets

  /** A formal, with the word `maybeThunk` gives for its default. */
  datatype Formal = Formal(name: Symbol, def: Option<Value>)

  datatype Pattern = Pattern(name: Option<Symbol>, formals: seq<Formal>, ellipsis: bool)

  /** What the parser guarantees: formals sorted by name without duplicates, none of
      them named like the whole argument. */
  predicate ValidPattern(p: Pattern) {
    && (forall i, j :: 0 <= i < j < |p.formals| ==> p.formals[i].name < p.formals[j].name)
    && (p.name.Some? ==> forall i :: 0 <= i < |p.formals| ==> p.formals[i].name != p.name.value)
  }

  function FirstSlot(p: Pattern): nat { if p.name.Some? then 1 else 0 }

  function SlotCount(p: Pattern): nat { FirstSlot(p) + |p.formals| }

  ghost function FormalNames(formals: seq<Formal>): set<Symbol> {
    set f | f in formals :: f.name
  }

  predicate IsMissing(f: Formal, m: map<Symbol, Value>) {
    f.name !in m && f.def.None?
  }

  /** The names of formals that are neither given nor defaulted, in order. */
  function Missing(formals: seq<Formal>, m: map<Symbol, Value>): seq<Symbol> {
    if formals == [] then []
    else
      var k := |formals| - 1;
      Missing(formals[..k], m) + if IsMissing(formals[k], m) then [formals[k].name] else []
  }

  /** The given names that are not formals, in order. */
  ghost function Unexpected(s: seq<Attr>, names: set<Symbol>): seq<Symbol> {
    if s == [] then []
    else
      var k := |s| - 1;
      Unexpected(s[..k], names) + if s[k].name !in names then [s[k].name] else []
  }

  lemma {:induction false} NoneMissing(formals: seq<Formal>, m: map<Symbol, Value>)
    ensures Missing(formals, m) == [] <==> forall f :: f in formals ==> !IsMissing(f, m)
  {
    if formals != [] {
      var k := |formals| - 1;
      NoneMissing(formals[..k], m);
      assert formals == formals[..k] + [formals[k]];
    }
  }

  lemma {:induction false} NoneUnexpected(s: seq<Attr>, names: set<Symbol>)
    ensures Unexpected(s, names) == [] <==> MapOf(s).Keys <= names
  {
    if s != [] {
      NoneUnexpected(s[..|s| - 1], names);
    }
  }

  predicate Ascending(names: seq<Symbol>) {
    forall i, j :: 0 <= i < j < |names| ==> names[i] < names[j]
  }

  lemma AscendingPush(names: seq<Symbol>, x: Symbol)
    requires Ascending(names) && forall y :: y in names ==> y < x
    ensures Ascending(names + [x])
  {
    assert forall i :: 0 <= i < |names| ==> names[i] in names;
  }

  /** The missing names are those of the formals that are neither given nor defaulted. */
  lemma {:induction false} MissingExact(formals: seq<Formal>, m: map<Symbol, Value>, x: Symbol)
    ensures x in Missing(formals, m) <==> exists f :: f in formals && f.name == x && x !in m && f.def.None?
  {
    if formals != [] {
      var k := |formals| - 1;
      MissingExact(formals[..k], m, x);
      assert formals == formals[..k] + [formals[k]];
    }
  }

  /** They are reported in ascending order. */
  lemma {:induction false} MissingAscending(formals: seq<Formal>, m: map<Symbol, Value>)
    requires forall i, j :: 0 <= i < j < |formals| ==> formals[i].name < formals[j].name
    ensures Ascending(Missing(formals, m))
  {
    if formals != [] {
      var k := |formals| - 1;
      MissingAscending(formals[..k], m);
      forall y | y in Missing(formals[..k], m)
        ensures y < formals[k].name
      {
        MissingExact(formals[..k], m, y);
      }
      hide Ascending;
      if IsMissing(formals[k], m) { AscendingPush(Missing(formals[..k], m), formals[k].name); }
      assert Missing(formals[..k], m) + [] == Missing(formals[..k], m);
    }
  }

  /** The unexpected names are the given ones that are not formals. */
  lemma {:induction false} UnexpectedExact(s: seq<Attr>, names: set<Symbol>, x: Symbol)
    ensures x in Unexpected(s, names) <==> x !in names && exists i :: 0 <= i < |s| && s[i].name == x
  {
    if s != [] {
      var k := |s| - 1;
      UnexpectedExact(s[..k], names, x);
      assert forall i :: 0 <= i < k ==> s[..k][i] == s[i];
    }
  }

  lemma {:induction false} UnexpectedAscending(s: seq<Attr>, names: set<Symbol>)
    requires StrictlySorted(s)
    ensures Ascending(Unexpected(s, names))
  {
    if s != [] {
      var k := |s| - 1;
      UnexpectedAscending(s[..k], names);
      forall y | y in Unexpected(s[..k], names)
        ensures y < s[k].name
      {
        UnexpectedExact(s[..k], names, y);
      }
      hide Ascending;
      if s[k].name !in names { AscendingPush(Unexpected(s[..k], names), s[k].name); }
      assert Unexpected(s[..k], names) + [] == Unexpected(s[..k], names);
    }
  }

  // --- the used-count test ---

  lemma {:induction false} KeyCount(s: seq<Attr>)
    requires DistinctNames(s)
    ensures |MapOf(s).Keys| == |s|
  {
    if s != [] {
      var t := s[..|s| - 1];
      KeyCount(t);
      MapOfKeys(t);
      assert MapOf(s).Keys == MapOf(t).Keys + {s[|s| - 1].name};
    }
  }

  lemma {:induction false} SubsetCount(a: set<Symbol>, b: set<Symbol>)
    requires a <= b
    ensures |a| <= |b|
    ensures |a| == |b| ==> a == b
  {
    if a != {} {
      var x :| x in a;
      SubsetCount(a - {x}, b - {x});
    }
  }

  /** The used names number as many as the given ones exactly when every given name
      is a formal. */
  lemma UsedCountExact(formals: seq<Formal>, s: seq<Attr>, used: nat)
    requires DistinctNames(s)
    requires used == |FormalNames(formals) * MapOf(s).Keys|
    ensures used == |s| <==> MapOf(s).Keys <= FormalNames(formals)
  {
    var names, given := FormalNames(formals), MapOf(s).Keys;
    KeyCount(s);
    SubsetCount(names * given, given);
    if given <= names { assert names * given == given; }
  }

  lemma NamesNext(p: Pattern, i: nat)
    requires ValidPattern(p) && i < |p.formals|
    ensures p.formals[i].name !in FormalNames(p.formals[..i])
    ensures FormalNames(p.formals[..i + 1]) == FormalNames(p.formals[..i]) + {p.formals[i].name}
  {
    assert p.formals[..i + 1] == p.formals[..i] + [p.formals[i]];
  }

  lemma CountNext(names: set<Symbol>, x: Symbol, given: set<Symbol>)
    requires x !in names
    ensures |(names + {x}) * given| == |names * given| + if x in given then 1 else 0
  {
    if x in given {
      assert (names + {x}) * given == names * given + {x};
    } else {
      assert (names + {x}) * given == names * given;
    }
  }

  // --- slots ---

  /** What a formal's slot holds: the argument of that name, or the default. */
  function SlotValue(f: Formal, m: map<Symbol, Value>): Value
    requires !IsMissing(f, m)
  {
    if f.name in m then m[f.name] else f.def.value
  }

  predicate Fits(p: Pattern, m: map<Symbol, Value>) {
    && (forall f :: f in p.formals ==> f.name in m || f.def.Some?)
    && (p.ellipsis || forall x :: x in m ==> exists f :: f in p.formals && f.name == x)
  }

  datatype MatchResult = Match(missing: seq<Symbol>, unexpected: seq<Symbol>)

  /** `matchupLambdaAttrs`, filling `env` from slot `displ0` on. */
  method MatchupLambdaAttrs(env: array<Value>, displ0: nat, p: Pattern, attrs: Bindings) returns (r: MatchResult)
    requires ValidPattern(p) && attrs.Valid() && StrictlySorted(attrs.Contents())
    requires displ0 + |p.formals| <= env.Length && env as object != attrs.attrs
    modifies env
    ensures attrs.Valid() && attrs.Contents() == old(attrs.Contents())
    ensures var s := attrs.Contents();
      && r.missing == Missing(p.formals, MapOf(s))
      && r.unexpected == (if p.ellipsis then [] else Unexpected(s, FormalNames(p.formals)))
      && (r.missing == [] ==> FilledFrom(env[..], displ0, p.formals, |p.formals|, MapOf(s)))
    ensures forall k :: 0 <= k < displ0 ==> env[k] == old(env[k])
  {
    ghost var s := attrs.Contents();
    ghost var m := MapOf(s);
    var attrsUsed, displ := 0, displ0;
    var missing := [];
    assert Matching(p, m, 0, env[..], displ0, displ, attrsUsed, missing) by {
      assert FormalNames([]) * m.Keys == {};
    }
    hide Matching, MapOf;
    for i := 0 to |p.formals|
      invariant displ0 <= displ <= displ0 + i
      invariant Matching(p, m, i, env[..], displ0, displ, attrsUsed, missing)
      invariant forall k :: 0 <= k < displ0 ==> env[k] == old(env[k])
    {
      var formal := p.formals[i];
      var matching := attrs.Get(formal.name);
      if matching.Some? {
        MatchNext(p, m, i, env[..], displ0, displ, attrsUsed, missing, matching.value);
        attrsUsed := attrsUsed + 1;
        env[displ] := matching.value;
        displ := displ + 1;
      } else if formal.def.Some? {
        MatchNext(p, m, i, env[..], displ0, displ, attrsUsed, missing, formal.def.value);
        env[displ] := formal.def.value;
        displ := displ + 1;
      } else {
        MatchMissing(p, m, i, env[..], displ0, displ, attrsUsed, missing);
        missing := missing + [formal.name];
      }
    }
    MatchEnd(p, s, env[..], displ0, displ, attrsUsed, missing);
    var unexpected := [];
    if !p.ellipsis && attrsUsed != attrs.size {
      unexpected := CollectUnexpected(p, attrs);
    }
    return Match(missing, unexpected);
  }

  lemma UsedNext(p: Pattern, i: nat, given: set<Symbol>)
    requires ValidPattern(p) && i < |p.formals|
    ensures |FormalNames(p.formals[..i + 1]) * given|
         == |FormalNames(p.formals[..i]) * given| + if p.formals[i].name in given then 1 else 0
  {
    hide FormalNames;
    NamesNext(p, i);
    CountNext(FormalNames(p.formals[..i]), p.formals[i].name, given);
  }

  lemma MissingNext(formals: seq<Formal>, i: nat, m: map<Symbol, Value>)
    requires i < |formals|
    ensures Missing(formals[..i + 1], m)
         == Missing(formals[..i], m) + if IsMissing(formals[i], m) then [formals[i].name] else []
  {
    assert formals[..i + 1][..i] == formals[..i];
  }

  /** Where the loop stands after `i` formals. */
  ghost predicate Matching(p: Pattern, m: map<Symbol, Value>, i: nat, env: seq<Value>,
                           displ0: nat, displ: nat, used: nat, missing: seq<Symbol>)
  {
    && i <= |p.formals|
    && used == |FormalNames(p.formals[..i]) * m.Keys|
    && missing == Missing(p.formals[..i], m)
    && (missing == [] ==> displ == displ0 + i && FilledFrom(env, displ0, p.formals, i, m))
  }

  lemma MatchNext(p: Pattern, m: map<Symbol, Value>, i: nat, env: seq<Value>,
                  displ0: nat, displ: nat, used: nat, missing: seq<Symbol>, v: Value)
    requires ValidPattern(p) && i < |p.formals| && Matching(p, m, i, env, displ0, displ, used, missing)
    requires !IsMissing(p.formals[i], m) && v == SlotValue(p.formals[i], m) && displ < |env|
    ensures Matching(p, m, i + 1, env[displ := v], displ0, displ + 1,
                     used + (if p.formals[i].name in m then 1 else 0), missing)
  {
    hide FormalNames, Missing, ValidPattern;
    UsedNext(p, i, m.Keys);
    MissingNext(p.formals, i, m);
  }

  lemma MatchMissing(p: Pattern, m: map<Symbol, Value>, i: nat, env: seq<Value>,
                     displ0: nat, displ: nat, used: nat, missing: seq<Symbol>)
    requires ValidPattern(p) && i < |p.formals| && Matching(p, m, i, env, displ0, displ, used, missing)
    requires IsMissing(p.formals[i], m)
    ensures Matching(p, m, i + 1, env, displ0, displ, used, missing + [p.formals[i].name])
  {
    hide FormalNames, Missing, ValidPattern;
    UsedNext(p, i, m.Keys);
    MissingNext(p.formals, i, m);
  }

  lemma MatchEnd(p: Pattern, s: seq<Attr>, env: seq<Value>, displ0: nat, displ: nat, used: nat, missing: seq<Symbol>)
    requires DistinctNames(s) && Matching(p, MapOf(s), |p.formals|, env, displ0, displ, used, missing)
    ensures missing == Missing(p.formals, MapOf(s))
    ensures missing == [] ==> FilledFrom(env, displ0, p.formals, |p.formals|, MapOf(s))
    ensures used == |s| <==> Unexpected(s, FormalNames(p.formals)) == []
  {
    hide FormalNames, FilledFrom;
    assert p.formals[..|p.formals|] == p.formals;
    UsedCountExact(p.formals, s, used);
    NoneUnexpected(s, FormalNames(p.formals));
  }

  ghost predicate FilledFrom(env: seq<Value>, displ0: nat, formals: seq<Formal>, n: nat, m: map<Symbol, Value>) {
    n <= |formals| && displ0 + n <= |env| &&
    forall i :: 0 <= i < n ==> !IsMissing(formals[i], m) && env[displ0 + i] == SlotValue(formals[i], m)
  }

  method CollectUnexpected(p: Pattern, attrs: Bindings) returns (unexpected: seq<Symbol>)
    requires ValidPattern(p) && attrs.Valid()
    ensures unexpected == Unexpected(attrs.Contents(), FormalNames(p.formals))
  {
    ghost var s := attrs.Contents();
    unexpected := [];
    for i := 0 to attrs.size
      invariant unexpected == Unexpected(s[..i], FormalNames(p.formals))
    {
      assert s[..i + 1][..i] == s[..i];
      var known := Has(p, attrs.attrs[i].name);
      if !known { unexpected := unexpected + [attrs.attrs[i].name]; }
    }
    assert s[..|s|] == s;
  }

  /** `AttrsPattern::has`: binary search over the formals. */
  method Has(p: Pattern, x: Symbol) returns (known: bool)
    requires ValidPattern(p)
    ensures known <==> x in FormalNames(p.formals)
  {
    var lo, hi := 0, |p.formals|;
    while lo < hi
      invariant 0 <= lo <= hi <= |p.formals|
      invariant forall k :: 0 <= k < lo ==> p.formals[k].name < x
      invariant forall k :: hi <= k < |p.formals| ==> x <= p.formals[k].name
    {
      var mid := (lo + hi) / 2;
      if p.formals[mid].name < x { lo := mid + 1; } else { hi := mid; }
    }
    known := lo != |p.formals| && p.formals[lo].name == x;
    if known { assert p.formals[lo] in p.formals; }
  }

  /** The displacements of the whole argument and of the first `n` formals. */
  ghost predicate Numbered(p: Pattern, n: nat, vars: map<Symbol, nat>) {
    n <= |p.formals| && vars.Keys == NamesUpTo(p, n) && SlotsUpTo(p, n, vars)
  }

  ghost function NamesUpTo(p: Pattern, n: nat): set<Symbol>
    requires n <= |p.formals|
  {
    FormalNames(p.formals[..n]) + if p.name.Some? then {p.name.value} else {}
  }

  predicate SlotsUpTo(p: Pattern, n: nat, vars: map<Symbol, nat>)
    requires n <= |p.formals|
  {
    && (p.name.Some? ==> p.name.value in vars && vars[p.name.value] == 0)
    && forall k :: 0 <= k < n ==> p.formals[k].name in vars && vars[p.formals[k].name] == FirstSlot(p) + k
  }

  lemma NumberNext(p: Pattern, n: nat, vars: map<Symbol, nat>)
    requires ValidPattern(p) && n < |p.formals| && Numbered(p, n, vars)
    ensures Numbered(p, n + 1, vars[p.formals[n].name := FirstSlot(p) + n])
  {
    hide FormalNames, SlotsUpTo, ValidPattern;
    NamesNext(p, n);
    SlotsNext(p, n, vars);
  }

  lemma SlotsNext(p: Pattern, n: nat, vars: map<Symbol, nat>)
    requires ValidPattern(p) && n < |p.formals| && SlotsUpTo(p, n, vars)
    ensures SlotsUpTo(p, n + 1, vars[p.formals[n].name := FirstSlot(p) + n])
  {
  }

  /** `AttrsPattern::buildEnv`: the displacements the binder gives the argument's names. */
  method BuildEnv(p: Pattern) returns (vars: map<Symbol, nat>)
    requires ValidPattern(p)
    ensures Numbered(p, |p.formals|, vars)
  {
    vars := map[];
    var displ := 0;
    if p.name.Some? {
      vars := vars[p.name.value := displ];
      displ := displ + 1;
    }
    assert FormalNames([]) == {};
    assert Numbered(p, 0, vars);
    hide Numbered, FormalNames;
    for i := 0 to |p.formals|
      invariant displ == FirstSlot(p) + i
      invariant Numbered(p, i, vars)
    {
      NumberNext(p, i, vars);
      vars := vars[p.formals[i].name := displ];
      displ := displ + 1;
    }
  }

  /** What the body of the lambda must find under a name of the pattern. */
  function Meaning(p: Pattern, arg: Value, m: map<Symbol, Value>, x: Symbol): (r: Option<Value>)
  {
    if p.name == Some(x) then Some(arg)
    else
      var i := FindFormal(p.formals, x);
      if i.Some? && !IsMissing(p.formals[i.value], m) then Some(SlotValue(p.formals[i.value], m)) else None
  }

  function FindFormal(formals: seq<Formal>, x: Symbol): (i: Option<nat>)
    ensures i.Some? ==> i.value < |formals| && formals[i.value].name == x
    ensures i.None? ==> forall k :: 0 <= k < |formals| ==> formals[k].name != x
  {
    if formals == [] then None
    else if formals[|formals| - 1].name == x then Some(|formals| - 1)
    else FindFormal(formals[..|formals| - 1], x)
  }

  /** `AttrsPattern::match`: succeeds exactly when the argument fits, and then every
      name is found at the displacement the binder gave it. */
  method MatchPattern(p: Pattern, arg: Value, attrs: Bindings, ghost vars: map<Symbol, nat>)
    returns (r: Option<array<Value>>)
    requires ValidPattern(p) && attrs.Valid() && StrictlySorted(attrs.Contents())
    requires Numbered(p, |p.formals|, vars)
    ensures r.Some? <==> Fits(p, MapOf(attrs.Contents()))
    ensures r.Some? ==> fresh(r.value) && r.value.Length == SlotCount(p)
    ensures r.Some? ==> forall x :: x in vars ==>
      vars[x] < r.value.Length && Some(r.value[vars[x]]) == Meaning(p, arg, MapOf(attrs.Contents()), x)
    ensures r.Some? && p.name.Some? ==> r.value[vars[p.name.value]] == arg
    ensures r.Some? ==> forall f :: f in p.formals ==>
      && f.name in vars && vars[f.name] < r.value.Length
      && (f.name in MapOf(attrs.Contents()) ==> r.value[vars[f.name]] == MapOf(attrs.Contents())[f.name])
      && (f.name !in MapOf(attrs.Contents()) ==> f.def == Some(r.value[vars[f.name]]))
  {
    var env := new Value[SlotCount(p)];
    var displ := 0;
    if p.name.Some? {
      env[displ] := arg;
      displ := displ + 1;
    }
    var res := MatchupLambdaAttrs(env, displ, p, attrs);
    FitsExactly(p, attrs.Contents());
    if res.missing != [] || res.unexpected != [] { return None; }
    forall x | x in vars
      ensures vars[x] < env.Length && Some(env[vars[x]]) == Meaning(p, arg, MapOf(attrs.Contents()), x)
    {
      NameFound(p, env[..], arg, MapOf(attrs.Contents()), vars, x);
    }
    forall f | f in p.formals
      ensures f.name in vars && Meaning(p, arg, MapOf(attrs.Contents()), f.name)
           == if f.name in MapOf(attrs.Contents()) then Some(MapOf(attrs.Contents())[f.name]) else f.def
    {
      FormalMeaning(p, arg, MapOf(attrs.Contents()), vars, f);
    }
    return Some(env);
  }

  lemma FormalMeaning(p: Pattern, arg: Value, m: map<Symbol, Value>, vars: map<Symbol, nat>, f: Formal)
    requires ValidPattern(p) && Fits(p, m) && Numbered(p, |p.formals|, vars) && f in p.formals
    ensures f.name in vars && Meaning(p, arg, m, f.name) == if f.name in m then Some(m[f.name]) else f.def
  {
    hide FormalNames, SlotValue;
    var k :| 0 <= k < |p.formals| && p.formals[k] == f;
    hide Numbered, Fits;
    var i := FindFormal(p.formals, f.name);
    assert i == Some(k);
    SlotMeans(f, m);
  }

  lemma SlotMeans(f: Formal, m: map<Symbol, Value>)
    requires f.name in m || f.def.Some?
    ensures !IsMissing(f, m) && Some(SlotValue(f, m)) == if f.name in m then Some(m[f.name]) else f.def
  {
  }

  lemma FitsExactly(p: Pattern, s: seq<Attr>)
    ensures Fits(p, MapOf(s)) <==>
      Missing(p.formals, MapOf(s)) == [] && (p.ellipsis || Unexpected(s, FormalNames(p.formals)) == [])
  {
    NoneMissing(p.formals, MapOf(s));
    NoneUnexpected(s, FormalNames(p.formals));
    forall x
      ensures x in FormalNames(p.formals) <==> exists f :: f in p.formals && f.name == x
    {
    }
  }

  lemma NameFound(p: Pattern, env: seq<Value>, arg: Value, m: map<Symbol, Value>, vars: map<Symbol, nat>, x: Symbol)
    requires ValidPattern(p) && |env| == SlotCount(p) && x in vars
    requires Numbered(p, |p.formals|, vars) && (p.name.Some? ==> env[0] == arg)
    requires FilledFrom(env, FirstSlot(p), p.formals, |p.formals|, m)
    ensures vars[x] < |env| && Some(env[vars[x]]) == Meaning(p, arg, m, x)
  {
    assert p.formals[..|p.formals|] == p.formals;
    var i := FindFormal(p.formals, x);
    if p.name == Some(x) {
      hide FormalNames, ValidPattern, FilledFrom;
    } else {
      assert i.Some?;
      hide FormalNames, ValidPattern;
      assert vars[p.formals[i.value].name] == FirstSlot(p) + i.value;
    }
  }
}
