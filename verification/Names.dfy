/** Strings in byte order, as ordered sets and maps of the C++ library list them. */
module Names {
  predicate Before(a: string, b: string) {
    b != [] && (a == [] || a[0] < b[0] || (a[0] == b[0] && Before(a[1..], b[1..])))
  }

  predicate Ascending(s: seq<string>) {
    forall i, j :: 0 <= i < j < |s| ==> Before(s[i], s[j])
  }

  function SetOf(s: seq<string>): set<string> {
    set x | x in s
  }

  lemma {:induction false} BeforeTotal(a: string, b: string)
    ensures !(Before(a, b) && Before(b, a)) && !Before(a, a)
    ensures a != b ==> Before(a, b) || Before(b, a)
  {
    if a != [] { BeforeTotal(a[1..], if b == [] then [] else b[1..]); }
    if a != [] && b != [] {
      assert a == [a[0]] + a[1..] && b == [b[0]] + b[1..];
    }
  }

  lemma {:induction false} BeforeTransitive(a: string, b: string, c: string)
    requires Before(a, b) && Before(b, c)
    ensures Before(a, c)
  {
    if a != [] && a[0] == b[0] == c[0] { BeforeTransitive(a[1..], b[1..], c[1..]); }
  }

  /** The first difference decides, the smaller character first; a beginning of a string comes
      before it. */
  lemma {:induction false} BeforeMeans(p: string, a: char, b: char, s: string, t: string)
    ensures a != b ==> (Before(p + [a] + s, p + [b] + t) <==> a < b)
    ensures Before(p, p + [b] + t) && !Before(p + [b] + t, p)
    decreases |p|
  {
    var x, y := p + [a] + s, p + [b] + t;
    if p == [] {
      assert x[0] == a && y[0] == b;
    } else {
      assert x[0] == p[0] == y[0] && x[1..] == p[1..] + [a] + s && y[1..] == p[1..] + [b] + t;
      BeforeMeans(p[1..], a, b, s, t);
    }
  }

  function Insert(s: seq<string>, x: string): (r: seq<string>) {
    if s == [] || Before(s[|s| - 1], x) then s + [x]
    else Insert(s[..|s| - 1], x) + [s[|s| - 1]]
  }

  lemma {:induction false} InsertAscending(s: seq<string>, x: string)
    requires Ascending(s) && x !in s
    ensures Ascending(Insert(s, x))
    ensures forall y :: y in Insert(s, x) <==> y in s || y == x
  {
    if s != [] {
      var t, last := s[..|s| - 1], s[|s| - 1];
      assert s == t + [last];
      BeforeTotal(last, x);
      hide Before;
      if Before(last, x) {
        forall i | 0 <= i < |t|
          ensures Before(s[i], x)
        {
          BeforeTransitive(s[i], last, x);
        }
      } else {
        InsertAscending(t, x);
        var r := Insert(t, x);
        forall i | 0 <= i < |r|
          ensures Before(r[i], last)
        {
          assert r[i] in r;
        }
      }
    }
  }

  /** The elements of an ordered set, as iteration meets them. */
  method Listed(names: set<string>) returns (s: seq<string>)
    ensures Ascending(s)
    ensures forall x :: x in s <==> x in names
  {
    s := [];
    var rest := names;
    while rest != {}
      invariant rest <= names && Ascending(s)
      invariant forall x :: x in s <==> x in names && x !in rest
      decreases rest
    {
      var x :| x in rest;
      InsertAscending(s, x);
      s, rest := Insert(s, x), rest - {x};
    }
  }

  lemma AscendingDistinct(s: seq<string>, n: nat)
    requires Ascending(s) && n < |s|
    ensures s[n] !in s[n + 1..]
  {
    BeforeTotal(s[n], s[n]);
    hide Before;
  }

  lemma AscendingApart(s: seq<string>, i: nat, j: nat)
    requires Ascending(s) && i < j < |s|
    ensures s[i] != s[j]
  {
    BeforeTotal(s[i], s[j]);
  }

  /** There is only one ascending listing of a set. */
  lemma {:induction false} AscendingUnique(s: seq<string>, t: seq<string>)
    requires Ascending(s) && Ascending(t)
    requires forall x :: x in s <==> x in t
    ensures s == t
  {
    assert (forall i :: 0 <= i < |s| ==> s[i] in t) && (forall i :: 0 <= i < |t| ==> t[i] in s);
    if s != [] && t != [] {
      FirstLeast(s, t);
      FirstLeast(t, s);
      BeforeTotal(s[0], t[0]);
      AscendingDistinct(s, 0);
      AscendingDistinct(t, 0);
      hide Before;
      assert s == [s[0]] + s[1..] && t == [t[0]] + t[1..];
      forall x
        ensures x in s[1..] <==> x in t[1..]
      {
        assert x in s <==> x == s[0] || x in s[1..];
        assert x in t <==> x == t[0] || x in t[1..];
      }
      AscendingUnique(s[1..], t[1..]);
    }
  }

  lemma SameListing(s: seq<string>, t: seq<string>)
    requires Ascending(s) && Ascending(t) && SetOf(s) == SetOf(t)
    ensures s == t
  {
    assert forall x :: x in s <==> x in SetOf(s);
    assert forall x :: x in t <==> x in SetOf(t);
    hide Ascending;
    AscendingUnique(s, t);
  }

  lemma FirstLeast(s: seq<string>, t: seq<string>)
    requires Ascending(s) && s != [] && t != [] && t[0] in s
    ensures s[0] == t[0] || Before(s[0], t[0])
  {
  }
}
