/** Comparison of forced values, and the canonical form it decides. */
module Equality {
  import opened Options
  import opened AttributeSets

  const SYM_TYPE: Symbol := 0
  const SYM_OUT_PATH: Symbol := 1

  /** Finite forced values. Strings carry their context; lists and sets carry the
      address that `pointerEqProxy` exposes. */
  datatype Value =
    | Int(i: int)
    | Bool(b: bool)
    | Str(s: string, context: set<string>)
    | Path(p: string)
    | Null
    | List(addr: nat, elems: seq<Value>)
    | Attrs(addr: nat, attrs: seq<Attr>)

  type Attr = Attribute<Value>

  /** Values up to what comparison can see: no context, no address, sets as maps, and a
      derivation with an `outPath` as that `outPath` alone. */
  datatype Canonical =
    | CInt(i: int)
    | CBool(b: bool)
    | CStr(s: string)
    | CPath(p: string)
    | CNull
    | CList(elems: seq<Canonical>)
    | CAttrs(attrs: map<Symbol, Canonical>)
    | CDerivation(outPath: Canonical)

  /** Every address in the value leads to one object of the heap `h`, and sets are
      sorted. */
  ghost predicate InHeap(h: nat -> Value, v: Value) {
    match v
    case List(addr, elems) => h(addr) == v && forall i :: 0 <= i < |elems| ==> InHeap(h, elems[i])
    case Attrs(addr, attrs) =>
      && h(addr) == v && StrictlySorted(attrs)
      && forall i :: 0 <= i < |attrs| ==> InHeap(h, attrs[i].value)
    case _ => true
  }

  function Get(attrs: seq<Attr>, x: Symbol): (r: Option<Value>)
    ensures r.Some? ==> Attr(x, r.value) in attrs
    ensures r.None? ==> forall i :: 0 <= i < |attrs| ==> attrs[i].name != x
  {
    if attrs == [] then None
    else
      var k := |attrs| - 1;
      if attrs[k].name == x then Some(attrs[k].value) else Get(attrs[..k], x)
  }

  /** `EvalState::isDerivation`. */
  predicate IsDerivation(v: Value) {
    v.Attrs? &&
    var t := Get(v.attrs, SYM_TYPE);
    t.Some? && t.value.Str? && t.value.s == "derivation"
  }

  ghost function Canon(v: Value): Canonical
    decreases v, 1
  {
    match v
    case Int(i) => CInt(i)
    case Bool(b) => CBool(b)
    case Str(s, _) => CStr(s)
    case Path(p) => CPath(p)
    case Null => CNull
    case List(_, elems) => CList(seq(|elems|, i requires 0 <= i < |elems| => Canon(elems[i])))
    case Attrs(_, attrs) =>
      var out := Get(attrs, SYM_OUT_PATH);
      if IsDerivation(v) && out.Some? then
        var k :| 0 <= k < |attrs| && attrs[k] == Attr(SYM_OUT_PATH, out.value);
        CDerivation(Canon(attrs[k].value))
      else CAttrs(CanonMap(attrs))
  }

  ghost function CanonMap(attrs: seq<Attr>): map<Symbol, Canonical>
    decreases attrs, 0
  {
    if attrs == [] then map[]
    else
      var k := |attrs| - 1;
      CanonMap(attrs[..k])[attrs[k].name := CanonEntry(attrs[k])]
  }

  ghost function CanonEntry(a: Attr): Canonical
    decreases a, 0
  {
    Canon(a.value)
  }

  lemma EmptyMap(attrs: seq<Attr>)
    ensures CanonMap(attrs) == map[] <==> attrs == []
  {
    if attrs != [] { assert attrs[|attrs| - 1].name in CanonMap(attrs); }
  }

  lemma {:induction false} CanonMapAt(attrs: seq<Attr>, x: Symbol)
    ensures x in CanonMap(attrs) <==> Get(attrs, x).Some?
    ensures x in CanonMap(attrs) ==> CanonMap(attrs)[x] == Canon(Get(attrs, x).value)
  {
    if attrs != [] && attrs[|attrs| - 1].name != x { CanonMapAt(attrs[..|attrs| - 1], x); }
  }

  /** Two sorted arrays stand for the same map exactly when they agree entry by entry. */
  lemma {:induction false} EntryByEntry(s: seq<Attr>, t: seq<Attr>)
    requires StrictlySorted(s) && StrictlySorted(t)
    ensures CanonMap(s) == CanonMap(t) <==>
      |s| == |t| && forall i :: 0 <= i < |s| ==> s[i].name == t[i].name && Canon(s[i].value) == Canon(t[i].value)
  {
    if |s| == |t| && forall i :: 0 <= i < |s| ==> s[i].name == t[i].name && Canon(s[i].value) == Canon(t[i].value) {
      SameEntries(s, t);
    } else if CanonMap(s) == CanonMap(t) {
      SameLength(s, t);
    }
  }

  lemma {:induction false} SameEntries(s: seq<Attr>, t: seq<Attr>)
    requires |s| == |t|
    requires forall i :: 0 <= i < |s| ==> s[i].name == t[i].name && Canon(s[i].value) == Canon(t[i].value)
    ensures CanonMap(s) == CanonMap(t)
  {
    if s != [] { SameEntries(s[..|s| - 1], t[..|s| - 1]); }
  }

  lemma LastName(s: seq<Attr>, t: seq<Attr>)
    requires StrictlySorted(s) && s != [] && t != []
    requires CanonMap(s) == CanonMap(t)
    ensures t[|t| - 1].name <= s[|s| - 1].name
  {
    var x := t[|t| - 1].name;
    CanonMapAt(s, x);
    CanonMapAt(t, x);
    var a := Attr(x, Get(s, x).value);
    var i :| 0 <= i < |s| && s[i] == a;
  }

  lemma WithoutLast(s: seq<Attr>)
    requires StrictlySorted(s) && s != []
    ensures var a := s[|s| - 1];
      a.name in CanonMap(s) && CanonMap(s)[a.name] == Canon(a.value) && CanonMap(s[..|s| - 1]) == CanonMap(s) - {a.name}
  {
    var k := |s| - 1;
    CanonMapAt(s[..k], s[k].name);
  }

  lemma {:induction false} SameLength(s: seq<Attr>, t: seq<Attr>)
    requires StrictlySorted(s) && StrictlySorted(t) && CanonMap(s) == CanonMap(t)
    ensures |s| == |t|
    ensures forall i :: 0 <= i < |s| ==> s[i].name == t[i].name && Canon(s[i].value) == Canon(t[i].value)
  {
    EmptyMap(s);
    EmptyMap(t);
    if s != [] {
      LastName(s, t);
      LastName(t, s);
      WithoutLast(s);
      WithoutLast(t);
      var s', t' := s[..|s| - 1], t[..|t| - 1];
      assert StrictlySorted(s') && StrictlySorted(t');
      hide CanonMap, Canon, StrictlySorted;
      SameLength(s', t');
      assert forall i :: 0 <= i < |s'| ==> s[i] == s'[i] && t[i] == t'[i];
    }
  }

  /** Entry-by-entry comparison separates derivations from other sets. */
  lemma DerivationApart(v1: Value, v2: Value)
    requires v1.Attrs? && v2.Attrs?
    requires CanonMap(v1.attrs) == CanonMap(v2.attrs)
    ensures IsDerivation(v1) <==> IsDerivation(v2)
    ensures Get(v1.attrs, SYM_OUT_PATH).Some? <==> Get(v2.attrs, SYM_OUT_PATH).Some?
  {
    CanonMapAt(v1.attrs, SYM_TYPE);
    CanonMapAt(v2.attrs, SYM_TYPE);
    CanonMapAt(v1.attrs, SYM_OUT_PATH);
    CanonMapAt(v2.attrs, SYM_OUT_PATH);
    if Get(v1.attrs, SYM_TYPE).Some? {
      StrCanon(Get(v1.attrs, SYM_TYPE).value, Get(v2.attrs, SYM_TYPE).value);
    }
  }

  lemma StrCanon(a: Value, b: Value)
    requires Canon(a) == Canon(b)
    ensures a.Str? <==> b.Str?
    ensures a.Str? ==> a.s == b.s
  {
  }

  /** When the sets are not both derivations with an `outPath`, their canonical forms
      agree exactly when their arrays do. */
  lemma PlainSets(v1: Value, v2: Value)
    requires v1.Attrs? && v2.Attrs? && StrictlySorted(v1.attrs) && StrictlySorted(v2.attrs)
    requires !(IsDerivation(v1) && IsDerivation(v2) &&
      Get(v1.attrs, SYM_OUT_PATH).Some? && Get(v2.attrs, SYM_OUT_PATH).Some?)
    ensures Canon(v1) == Canon(v2) <==> CanonMap(v1.attrs) == CanonMap(v2.attrs)
  {
    if CanonMap(v1.attrs) == CanonMap(v2.attrs) { DerivationApart(v1, v2); }
  }

  // --- equality without canonical forms ---

  /** The set says that it is a derivation. */
  predicate SaysDerivation(attrs: seq<Attr>) {
    exists i :: 0 <= i < |attrs| && IsDerivationType(attrs[i])
  }

  predicate IsDerivationType(a: Attr) {
    a.name == SYM_TYPE && a.value.Str? && a.value.s == "derivation"
  }

  predicate HasOutPath(attrs: seq<Attr>) {
    exists i :: 0 <= i < |attrs| && attrs[i].name == SYM_OUT_PATH
  }

  /** Equality as users see it: strings by their text, lists and sets by what they hold, but
      two derivations with an `outPath` by that alone. */
  ghost predicate Same(v1: Value, v2: Value) {
    match (v1, v2)
    case (Int(i), Int(j)) => i == j
    case (Bool(b), Bool(c)) => b == c
    case (Str(s, _), Str(t, _)) => s == t
    case (Path(p), Path(q)) => p == q
    case (Null, Null) => true
    case (List(_, xs), List(_, ys)) => |xs| == |ys| && forall i :: 0 <= i < |xs| ==> Same(xs[i], ys[i])
    case (Attrs(_, s), Attrs(_, t)) =>
      if SaysDerivation(s) && SaysDerivation(t) && HasOutPath(s) && HasOutPath(t) then
        forall i, j :: 0 <= i < |s| && 0 <= j < |t| && s[i].name == t[j].name == SYM_OUT_PATH ==>
          Same(s[i].value, t[j].value)
      else
        |s| == |t| && forall i :: 0 <= i < |s| ==> s[i].name == t[i].name && Same(s[i].value, t[i].value)
    case _ => false
  }

  lemma {:induction false} GetSorted(attrs: seq<Attr>, i: nat)
    requires StrictlySorted(attrs) && i < |attrs|
    ensures Get(attrs, attrs[i].name) == Some(attrs[i].value)
  {
    var r := Get(attrs, attrs[i].name);
    assert r.Some?;
    var a := Attr(attrs[i].name, r.value);
    var j :| 0 <= j < |attrs| && attrs[j] == a;
    assert i == j;
  }

  lemma {:induction false} DerivationMeans(v: Value)
    requires v.Attrs? && StrictlySorted(v.attrs)
    ensures IsDerivation(v) <==> SaysDerivation(v.attrs)
    ensures Get(v.attrs, SYM_OUT_PATH).Some? <==> HasOutPath(v.attrs)
  {
    if SaysDerivation(v.attrs) {
      var i :| 0 <= i < |v.attrs| && IsDerivationType(v.attrs[i]);
      GetSorted(v.attrs, i);
    }
    if IsDerivation(v) {
      var a := Attr(SYM_TYPE, Get(v.attrs, SYM_TYPE).value);
      var i :| 0 <= i < |v.attrs| && v.attrs[i] == a;
    }
    if Get(v.attrs, SYM_OUT_PATH).Some? {
      var a := Attr(SYM_OUT_PATH, Get(v.attrs, SYM_OUT_PATH).value);
      var i :| 0 <= i < |v.attrs| && v.attrs[i] == a;
    }
  }

  /** Canonical forms are equal exactly when the values are the same. */
  lemma {:induction false} CanonMeans(h: nat -> Value, v1: Value, v2: Value)
    requires InHeap(h, v1) && InHeap(h, v2)
    ensures Canon(v1) == Canon(v2) <==> Same(v1, v2)
    decreases v1
  {
    match (v1, v2)
    case (List(_, xs), List(_, ys)) =>
      if |xs| == |ys| {
        forall i | 0 <= i < |xs|
          ensures Canon(xs[i]) == Canon(ys[i]) <==> Same(xs[i], ys[i])
        {
          CanonMeans(h, xs[i], ys[i]);
        }
        ListsEqual(v1, v2);
      } else {
        assert |Canon(v1).elems| != |Canon(v2).elems|;
      }
    case (Attrs(_, s), Attrs(_, t)) =>
      forall i, j | 0 <= i < |s| && 0 <= j < |t|
        ensures Canon(s[i].value) == Canon(t[j].value) <==> Same(s[i].value, t[j].value)
      {
        CanonMeans(h, s[i].value, t[j].value);
      }
      SetsMean(v1, v2);
    case _ =>
  }

  lemma {:induction false} ListsEqual(v1: Value, v2: Value)
    requires v1.List? && v2.List? && |v1.elems| == |v2.elems|
    ensures Canon(v1) == Canon(v2) <==> forall i :: 0 <= i < |v1.elems| ==> Canon(v1.elems[i]) == Canon(v2.elems[i])
  {
    var c1, c2 := Canon(v1).elems, Canon(v2).elems;
    assert forall i :: 0 <= i < |c1| ==> c1[i] == Canon(v1.elems[i]) && c2[i] == Canon(v2.elems[i]);
    if forall i :: 0 <= i < |v1.elems| ==> Canon(v1.elems[i]) == Canon(v2.elems[i]) { assert c1 == c2; }
  }

  lemma {:induction false} SetsMean(v1: Value, v2: Value)
    requires v1.Attrs? && v2.Attrs? && StrictlySorted(v1.attrs) && StrictlySorted(v2.attrs)
    requires forall i, j :: 0 <= i < |v1.attrs| && 0 <= j < |v2.attrs| ==>
      (Canon(v1.attrs[i].value) == Canon(v2.attrs[j].value) <==> Same(v1.attrs[i].value, v2.attrs[j].value))
    ensures Canon(v1) == Canon(v2) <==> Same(v1, v2)
  {
    var s, t := v1.attrs, v2.attrs;
    DerivationMeans(v1);
    DerivationMeans(v2);
    hide Canon, CanonMap, IsDerivation, SaysDerivation, HasOutPath;
    if SaysDerivation(s) && SaysDerivation(t) && HasOutPath(s) && HasOutPath(t) {
      DerivationsMean(v1, v2);
    } else {
      PlainSets(v1, v2);
      EntryByEntry(s, t);
    }
  }

  lemma {:induction false} DerivationsMean(v1: Value, v2: Value)
    requires v1.Attrs? && v2.Attrs? && StrictlySorted(v1.attrs) && StrictlySorted(v2.attrs)
    requires IsDerivation(v1) && IsDerivation(v2) && HasOutPath(v1.attrs) && HasOutPath(v2.attrs)
    ensures Canon(v1) == Canon(v2) <==>
      forall i, j ::
        0 <= i < |v1.attrs| && 0 <= j < |v2.attrs| && v1.attrs[i].name == v2.attrs[j].name == SYM_OUT_PATH ==>
          Canon(v1.attrs[i].value) == Canon(v2.attrs[j].value)
  {
    var s, t := v1.attrs, v2.attrs;
    var i :| 0 <= i < |s| && s[i].name == SYM_OUT_PATH;
    var j :| 0 <= j < |t| && t[j].name == SYM_OUT_PATH;
    DerivationForm(v1, i);
    DerivationForm(v2, j);
    hide Canon, IsDerivation;
    assert forall k :: 0 <= k < |s| && s[k].name == SYM_OUT_PATH ==> k == i;
    assert forall k :: 0 <= k < |t| && t[k].name == SYM_OUT_PATH ==> k == j;
  }

  /** A derivation with an `outPath` is that `outPath`. */
  lemma {:induction false} DerivationForm(v: Value, i: nat)
    requires v.Attrs? && StrictlySorted(v.attrs) && IsDerivation(v) && i < |v.attrs| && v.attrs[i].name == SYM_OUT_PATH
    ensures Canon(v) == CDerivation(Canon(v.attrs[i].value))
  {
    GetSorted(v.attrs, i);
  }

  // --- the comparison ---

  /** `EvalState::eqValues`: decides equality of canonical forms, so it is an
      equivalence relation. */
  method EqValues(ghost h: nat -> Value, v1: Value, v2: Value) returns (r: bool)
    requires InHeap(h, v1) && InHeap(h, v2)
    ensures r <==> Canon(v1) == Canon(v2)
    ensures r <==> Same(v1, v2)
    decreases v1
  {
    CanonMeans(h, v1, v2);
    hide Same;
    match (v1, v2)
    case (Int(i), Int(j)) => return i == j;
    case (Bool(b), Bool(c)) => return b == c;
    case (Str(s, _), Str(t, _)) => return s == t;
    case (Path(p), Path(q)) => return p == q;
    case (Null, Null) => return true;
    case (List(a, xs), List(b, ys)) =>
      if a == b { return true; }
      if |xs| != |ys| {
        assert |Canon(v1).elems| == |xs| && |Canon(v2).elems| == |ys|;
        return false;
      }
      r := EqLists(h, v1, v2);
    case (Attrs(a, s), Attrs(b, t)) =>
      if a == b { return true; }
      if IsDerivation(v1) && IsDerivation(v2) {
        var i, j := Get(s, SYM_OUT_PATH), Get(t, SYM_OUT_PATH);
        if i.Some? && j.Some? {
          var k :| 0 <= k < |s| && s[k] == Attr(SYM_OUT_PATH, i.value);
          var l :| 0 <= l < |t| && t[l] == Attr(SYM_OUT_PATH, j.value);
          r := EqValues(h, s[k].value, t[l].value);
          return;
        }
      }
      PlainSets(v1, v2);
      EntryByEntry(s, t);
      if |s| != |t| { return false; }
      r := EqEntries(h, s, t);
    case _ =>
      return false;
  }

  method EqLists(ghost h: nat -> Value, v1: Value, v2: Value) returns (r: bool)
    requires v1.List? && v2.List? && |v1.elems| == |v2.elems|
    requires InHeap(h, v1) && InHeap(h, v2)
    ensures r <==> Canon(v1) == Canon(v2)
    decreases v1, 0
  {
    ghost var c1, c2 := Canon(v1).elems, Canon(v2).elems;
    for n := 0 to |v1.elems|
      invariant forall k :: 0 <= k < n ==> c1[k] == c2[k]
    {
      var same := EqValues(h, v1.elems[n], v2.elems[n]);
      if !same {
        assert c1[n] != c2[n];
        return false;
      }
    }
    assert c1 == c2;
    return true;
  }

  method EqEntries(ghost h: nat -> Value, s: seq<Attr>, t: seq<Attr>) returns (r: bool)
    requires |s| == |t|
    requires forall i :: 0 <= i < |s| ==> InHeap(h, s[i].value) && InHeap(h, t[i].value)
    ensures r <==> forall i :: 0 <= i < |s| ==> s[i].name == t[i].name && Canon(s[i].value) == Canon(t[i].value)
    decreases s, 0
  {
    for i := 0 to |s|
      invariant forall k :: 0 <= k < i ==> s[k].name == t[k].name && Canon(s[k].value) == Canon(t[k].value)
    {
      var same := EqEntry(h, s[i], t[i]);
      if !same { return false; }
    }
    return true;
  }

  method EqEntry(ghost h: nat -> Value, a: Attr, b: Attr) returns (r: bool)
    requires InHeap(h, a.value) && InHeap(h, b.value)
    ensures r <==> a.name == b.name && Canon(a.value) == Canon(b.value)
    decreases a
  {
    if a.name != b.name { return false; }
    r := EqValues(h, a.value, b.value);
  }
}
