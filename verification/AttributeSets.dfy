/** Attribute sets as sorted arrays: `Bindings`, its binary search, and the merge of
    two sets. */
module AttributeSets {
  import opened Options

  /** Interned names, ordered as the symbol table numbers them. */
  type Symbol = nat

  /** A value word: a literal or a pointer to a heap cell. */
  type Value = nat

  datatype Attribute<V> = Attr(name: Symbol, value: V)

  type Attr = Attribute<Value>

  predicate StrictlySorted<V>(s: seq<Attribute<V>>) {
    forall i, j :: 0 <= i < j < |s| ==> s[i].name < s[j].name
  }

  predicate DistinctNames(s: seq<Attr>) {
    forall i, j :: 0 <= i < j < |s| ==> s[i].name != s[j].name
  }

  /** The map an array of attributes stands for. */
  function MapOf(s: seq<Attr>): map<Symbol, Value> {
    if s == [] then map[]
    else var a := s[|s| - 1]; MapOf(s[..|s| - 1])[a.name := a.value]
  }

  lemma {:induction false} MapOfKeys(s: seq<Attr>)
    ensures forall x :: x in MapOf(s) <==> exists i :: 0 <= i < |s| && s[i].name == x
  {
    if s != [] {
      var t := s[..|s| - 1];
      MapOfKeys(t);
      forall x | x in MapOf(s)
        ensures exists i :: 0 <= i < |s| && s[i].name == x
      {
        if x == s[|s| - 1].name {
          assert s[|s| - 1].name == x;
        } else {
          assert x in MapOf(t);
          var i :| 0 <= i < |t| && t[i].name == x;
          assert s[i].name == x;
        }
      }
      forall i | 0 <= i < |s|
        ensures s[i].name in MapOf(s)
      {
        if i < |s| - 1 { assert t[i].name in MapOf(t); }
      }
    }
  }

  lemma {:induction false} MapOfAt(s: seq<Attr>, i: nat)
    requires DistinctNames(s) && i < |s|
    ensures s[i].name in MapOf(s) && MapOf(s)[s[i].name] == s[i].value
  {
    if i < |s| - 1 {
      var t := s[..|s| - 1];
      assert t[i] == s[i];
      MapOfAt(t, i);
      assert s[i].name != s[|s| - 1].name;
    }
  }

  lemma MapOfPush(s: seq<Attr>, a: Attr)
    ensures MapOf(s + [a]) == MapOf(s)[a.name := a.value]
  {
    assert (s + [a])[..|s|] == s;
  }

  /** Arrays with the same entries stand for the same map, whatever their order. */
  lemma SameMap(s: seq<Attr>, t: seq<Attr>)
    requires DistinctNames(s) && DistinctNames(t)
    requires forall a :: a in s <==> a in t
    ensures MapOf(s) == MapOf(t)
  {
    SubMap(s, t);
    SubMap(t, s);
  }

  lemma SubMap(s: seq<Attr>, t: seq<Attr>)
    requires DistinctNames(s) && DistinctNames(t)
    requires forall a :: a in s ==> a in t
    ensures forall x :: x in MapOf(s) ==> x in MapOf(t) && MapOf(t)[x] == MapOf(s)[x]
  {
    MapOfKeys(s);
    forall x | x in MapOf(s)
      ensures x in MapOf(t) && MapOf(t)[x] == MapOf(s)[x]
    {
      var i :| 0 <= i < |s| && s[i].name == x;
      MapOfAt(s, i);
      assert s[i] in s;
      var j :| 0 <= j < |t| && t[j] == s[i];
      MapOfAt(t, j);
    }
  }

  /** What `Bindings::sort` leaves behind. */
  function SortByName(s: seq<Attr>): (r: seq<Attr>)
    ensures |r| == |s|
  {
    if s == [] then [] else InsertByName(SortByName(s[..|s| - 1]), s[|s| - 1])
  }

  function InsertByName(s: seq<Attr>, a: Attr): (r: seq<Attr>)
    ensures |r| == |s| + 1
  {
    if s == [] || s[|s| - 1].name <= a.name then s + [a]
    else InsertByName(s[..|s| - 1], a) + [s[|s| - 1]]
  }

  lemma {:induction false} InsertSorted(s: seq<Attr>, a: Attr)
    requires StrictlySorted(s)
    requires forall i :: 0 <= i < |s| ==> s[i].name != a.name
    ensures StrictlySorted(InsertByName(s, a))
    ensures forall b :: b in InsertByName(s, a) <==> b in s || b == a
  {
    if s != [] && s[|s| - 1].name > a.name {
      var t := s[..|s| - 1];
      InsertSorted(t, a);
      assert s == t + [s[|s| - 1]];
      var r := InsertByName(t, a);
      forall i | 0 <= i < |r|
        ensures r[i].name < s[|s| - 1].name
      {
        assert r[i] in r;
      }
    }
  }

  lemma {:induction false} SortSorted(s: seq<Attr>)
    requires DistinctNames(s)
    ensures StrictlySorted(SortByName(s))
    ensures forall b :: b in SortByName(s) <==> b in s
  {
    if s != [] {
      var t, a := s[..|s| - 1], s[|s| - 1];
      hide StrictlySorted;
      SortSorted(t);
      var r := SortByName(t);
      forall i | 0 <= i < |r|
        ensures r[i].name != a.name
      {
        assert r[i] in r;
        var j :| 0 <= j < |t| && t[j] == r[i];
        assert s[j].name != a.name;
      }
      InsertSorted(r, a);
      assert s == t + [a];
    }
  }

  /** Sorting keeps the map. */
  lemma SortKeepsMap(s: seq<Attr>)
    requires DistinctNames(s)
    ensures StrictlySorted(SortByName(s)) && MapOf(SortByName(s)) == MapOf(s)
  {
    SortSorted(s);
    SameMap(SortByName(s), s);
  }

  class Bindings {
    var attrs: array<Attr>
    var size: nat

    ghost predicate Valid()
      reads this
    {
      size <= attrs.Length
    }

    ghost function Contents(): seq<Attr>
      requires Valid()
      reads this, attrs
    {
      attrs[..size]
    }

    /** `EvalMemory::allocBindings`. */
    constructor (capacity: nat)
      ensures Valid() && fresh(attrs) && attrs.Length == capacity && Contents() == []
    {
      attrs := new Attr[capacity](_ => Attr(0, 0));
      size := 0;
    }

    method PushBack(a: Attr)
      requires Valid() && size < attrs.Length
      modifies this`size, attrs
      ensures Valid() && attrs == old(attrs)
      ensures Contents() == old(Contents()) + [a]
    {
      attrs[size] := a;
      size := size + 1;
    }

    method Replace(i: nat, a: Attr)
      requires Valid() && i < size
      modifies attrs
      ensures Valid()
      ensures Contents() == old(Contents())[i := a]
    {
      attrs[i] := a;
    }

    method Sort()
      requires Valid() && DistinctNames(Contents())
      modifies attrs
      ensures Valid()
      ensures StrictlySorted(Contents()) && MapOf(Contents()) == old(MapOf(Contents()))
    {
      var sorted := SortByName(attrs[..size]);
      SortKeepsMap(attrs[..size]);
      forall i | 0 <= i < size {
        attrs[i] := sorted[i];
      }
      assert Contents() == sorted;
    }

    /** `Bindings::get`: the lower bound of the name, if it carries that name. */
    method Get(name: Symbol) returns (r: Option<Value>)
      requires Valid() && StrictlySorted(Contents())
      ensures r == var m := MapOf(Contents()); if name in m then Some(m[name]) else None
    {
      var lo, hi := 0, size;
      while lo < hi
        invariant 0 <= lo <= hi <= size
        invariant forall k :: 0 <= k < lo ==> attrs[k].name < name
        invariant forall k :: hi <= k < size ==> attrs[k].name >= name
      {
        var mid := (lo + hi) / 2;
        if attrs[mid].name < name { lo := mid + 1; } else { hi := mid; }
      }
      MapOfKeys(Contents());
      if lo != size && attrs[lo].name == name {
        MapOfAt(Contents(), lo);
        return Some(attrs[lo].value);
      }
      assert forall k :: 0 <= k < size ==> Contents()[k].name != name;
      return None;
    }
  }

  predicate Below(s: seq<Attr>, x: Symbol) {
    forall i :: 0 <= i < |s| ==> s[i].name < x
  }

  lemma PushSorted(s: seq<Attr>, a: Attr)
    requires StrictlySorted(s) && Below(s, a.name)
    ensures StrictlySorted(s + [a])
    ensures a.name !in MapOf(s)
    ensures forall x :: a.name < x ==> Below(s + [a], x)
  {
    MapOfKeys(s);
  }

  /** What the merge loop has produced: everything before either cursor. */
  ghost predicate Merged(out: seq<Attr>, s1: seq<Attr>, i: nat, s2: seq<Attr>, j: nat)
    requires i <= |s1| && j <= |s2|
  {
    && StrictlySorted(out)
    && |out| <= i + j
    && MapOf(out) == MapOf(s1[..i]) + MapOf(s2[..j])
    && (i < |s1| ==> Below(out, s1[i].name))
    && (j < |s2| ==> Below(out, s2[j].name))
  }

  lemma MapOfNext(s: seq<Attr>, i: nat)
    requires i < |s|
    ensures MapOf(s[..i + 1]) == MapOf(s[..i])[s[i].name := s[i].value]
  {
    assert s[..i + 1] == s[..i] + [s[i]];
    MapOfPush(s[..i], s[i]);
  }

  lemma MergeLeft(out: seq<Attr>, s1: seq<Attr>, i: nat, s2: seq<Attr>, j: nat)
    requires i < |s1| && j <= |s2| && StrictlySorted(s1)
    requires Merged(out, s1, i, s2, j)
    requires j < |s2| ==> s1[i].name < s2[j].name
    ensures Merged(out + [s1[i]], s1, i + 1, s2, j)
  {
    assert i + 1 < |s1| ==> s1[i].name < s1[i + 1].name;
    hide MapOf, Below, StrictlySorted;
    PushSorted(out, s1[i]);
    MapOfPush(out, s1[i]);
    MapOfNext(s1, i);
  }

  lemma MergeRight(out: seq<Attr>, s1: seq<Attr>, i: nat, s2: seq<Attr>, j: nat)
    requires i <= |s1| && j < |s2| && StrictlySorted(s2)
    requires Merged(out, s1, i, s2, j)
    requires i < |s1| ==> s2[j].name < s1[i].name
    ensures Merged(out + [s2[j]], s1, i, s2, j + 1)
  {
    assert j + 1 < |s2| ==> s2[j].name < s2[j + 1].name;
    hide MapOf, Below, StrictlySorted;
    PushSorted(out, s2[j]);
    MapOfPush(out, s2[j]);
    MapOfNext(s2, j);
  }

  lemma MergeBoth(out: seq<Attr>, s1: seq<Attr>, i: nat, s2: seq<Attr>, j: nat)
    requires i < |s1| && j < |s2| && StrictlySorted(s1) && StrictlySorted(s2)
    requires Merged(out, s1, i, s2, j)
    requires s1[i].name == s2[j].name
    ensures Merged(out + [s2[j]], s1, i + 1, s2, j + 1)
  {
    assert i + 1 < |s1| ==> s1[i].name < s1[i + 1].name;
    assert j + 1 < |s2| ==> s2[j].name < s2[j + 1].name;
    hide MapOf, Below, StrictlySorted;
    PushSorted(out, s2[j]);
    MergeBothMap(out, s1, i, s2, j);
  }

  lemma MergeBothMap(out: seq<Attr>, s1: seq<Attr>, i: nat, s2: seq<Attr>, j: nat)
    requires i < |s1| && j < |s2| && s1[i].name == s2[j].name
    requires MapOf(out) == MapOf(s1[..i]) + MapOf(s2[..j])
    ensures MapOf(out + [s2[j]]) == MapOf(s1[..i + 1]) + MapOf(s2[..j + 1])
  {
    hide MapOf;
    MapOfPush(out, s2[j]);
    MapOfNext(s1, i);
    MapOfNext(s2, j);
    ReplaceBoth(MapOf(s1[..i]), MapOf(s2[..j]), s1[i].name, s1[i].value, s2[j].value);
  }

  lemma ReplaceBoth(m1: map<Symbol, Value>, m2: map<Symbol, Value>, x: Symbol, v1: Value, v2: Value)
    ensures (m1 + m2)[x := v2] == m1[x := v1] + m2[x := v2]
  {
  }

  lemma MergeDone(out: seq<Attr>, s1: seq<Attr>, s2: seq<Attr>)
    requires Merged(out, s1, |s1|, s2, |s2|)
    ensures StrictlySorted(out) && MapOf(out) == MapOf(s1) + MapOf(s2)
  {
    assert s1[..|s1|] == s1 && s2[..|s2|] == s2;
  }

  lemma MergeRoom(out: seq<Attr>, s1: seq<Attr>, i: nat, s2: seq<Attr>, j: nat)
    requires i <= |s1| && j <= |s2| && Merged(out, s1, i, s2, j)
    ensures |out| <= i + j
  {
  }

  method MergeCommon(r: Bindings, b1: Bindings, b2: Bindings) returns (i: nat, j: nat)
    requires b1.Valid() && b2.Valid() && r.Valid()
    requires StrictlySorted(b1.Contents()) && StrictlySorted(b2.Contents())
    requires r.attrs.Length == b1.size + b2.size && r.Contents() == []
    requires {r, r.attrs} !! {b1, b1.attrs, b2, b2.attrs}
    modifies r`size, r.attrs
    ensures r.attrs == old(r.attrs) && r.Valid()
    ensures i <= b1.size && j <= b2.size && (i == b1.size || j == b2.size)
    ensures Merged(r.Contents(), b1.Contents(), i, b2.Contents(), j)
  {
    i, j := 0, 0;
    ghost var s1, s2 := b1.Contents(), b2.Contents();
    assert Merged([], s1, 0, s2, 0);
    hide Merged, MapOf;
    while i < b1.size && j < b2.size
      invariant r.attrs == old(r.attrs) && r.Valid()
      invariant i <= b1.size && j <= b2.size
      invariant Merged(r.Contents(), s1, i, s2, j)
      decreases b1.size - i + b2.size - j
    {
      MergeRoom(r.Contents(), s1, i, s2, j);
      if b1.attrs[i].name == b2.attrs[j].name {
        MergeBoth(r.Contents(), s1, i, s2, j);
        r.PushBack(b2.attrs[j]);
        i, j := i + 1, j + 1;
      } else if b1.attrs[i].name < b2.attrs[j].name {
        MergeLeft(r.Contents(), s1, i, s2, j);
        r.PushBack(b1.attrs[i]);
        i := i + 1;
      } else {
        MergeRight(r.Contents(), s1, i, s2, j);
        r.PushBack(b2.attrs[j]);
        j := j + 1;
      }
    }
  }

  method MergeRest(r: Bindings, b1: Bindings, i0: nat, b2: Bindings, j0: nat)
    requires b1.Valid() && b2.Valid() && r.Valid()
    requires StrictlySorted(b1.Contents()) && StrictlySorted(b2.Contents())
    requires r.attrs.Length == b1.size + b2.size
    requires {r, r.attrs} !! {b1, b1.attrs, b2, b2.attrs}
    requires i0 <= b1.size && j0 <= b2.size && (i0 == b1.size || j0 == b2.size)
    requires Merged(r.Contents(), b1.Contents(), i0, b2.Contents(), j0)
    modifies r`size, r.attrs
    ensures r.attrs == old(r.attrs) && r.Valid()
    ensures Merged(r.Contents(), b1.Contents(), b1.size, b2.Contents(), b2.size)
  {
    hide Merged, MapOf;
    ghost var s1, s2 := b1.Contents(), b2.Contents();
    var i, j := i0, j0;
    while i < b1.size
      invariant r.attrs == old(r.attrs) && r.Valid()
      invariant i <= b1.size && (i < b1.size ==> j == b2.size)
      invariant Merged(r.Contents(), s1, i, s2, j)
    {
      MergeRoom(r.Contents(), s1, i, s2, j);
      MergeLeft(r.Contents(), s1, i, s2, j);
      r.PushBack(b1.attrs[i]);
      i := i + 1;
    }
    while j < b2.size
      invariant r.attrs == old(r.attrs) && r.Valid()
      invariant j <= b2.size
      invariant Merged(r.Contents(), s1, i, s2, j)
    {
      MergeRoom(r.Contents(), s1, i, s2, j);
      MergeRight(r.Contents(), s1, i, s2, j);
      r.PushBack(b2.attrs[j]);
      j := j + 1;
    }
  }

  /** `EvalState::updateAttrs`: merges two sets, the second one winning, and never
      outgrows the array it allocated. */
  method UpdateAttrs(b1: Bindings, b2: Bindings) returns (r: Bindings)
    requires b1.Valid() && b2.Valid()
    requires StrictlySorted(b1.Contents()) && StrictlySorted(b2.Contents())
    ensures r.Valid() && StrictlySorted(r.Contents())
    ensures MapOf(r.Contents()) == MapOf(b1.Contents()) + MapOf(b2.Contents())
    ensures b1.size == 0 ==> r == b2
    ensures b1.size != 0 && b2.size == 0 ==> r == b1
    ensures b1.size != 0 && b2.size != 0 ==> fresh(r) && r.attrs.Length == b1.size + b2.size
  {
    if b1.size == 0 { return b2; }
    if b2.size == 0 { return b1; }
    hide Merged, MapOf;
    r := new Bindings(b1.size + b2.size);
    var i, j := MergeCommon(r, b1, b2);
    MergeRest(r, b1, i, b2, j);
    MergeDone(r.Contents(), b1.Contents(), b2.Contents());
  }
}
