/** Access checks for source paths in restricted and pure evaluation: a trie of allowed
    paths, a walk that restarts at every symbolic link, and a cache of answers. */
module SourcePaths {
  import opened Options

  type Name = string

  /** Canonical absolute paths, as their components. */
  type Path = seq<Name>

  /** The text of a symbolic link, split at its slashes. */
  datatype Link = Link(absolute: bool, raw: seq<Name>)

  /** A fixed file tree, as far as links matter: what `lstat` and `readLink` find. */
  type FileTree = Path -> Option<Link>

  datatype Result = Ok(path: Path) | Forbidden | TooManyLinks

  const MAX_FOLLOW := 1024

  /** No component that `CanonPath::push` would reject. */
  predicate Canonical(p: Path) {
    forall i :: 0 <= i < |p| ==> p[i] != "" && p[i] != "." && p[i] != ".."
  }

  /** `CanonPath` of `base` followed by the text `raw`. */
  function Normalise(base: Path, raw: seq<Name>): Path
    decreases |raw|
  {
    if raw == [] then base
    else if raw[0] == "" || raw[0] == "." then Normalise(base, raw[1..])
    else if raw[0] == ".." then Normalise(if base == [] then [] else base[..|base| - 1], raw[1..])
    else Normalise(base + [raw[0]], raw[1..])
  }

  lemma {:induction false} NormaliseCanonical(base: Path, raw: seq<Name>)
    requires Canonical(base)
    ensures Canonical(Normalise(base, raw))
    decreases |raw|
  {
    if raw != [] {
      if raw[0] == "" || raw[0] == "." {
        NormaliseCanonical(base, raw[1..]);
      } else if raw[0] == ".." {
        NormaliseCanonical(if base == [] then [] else base[..|base| - 1], raw[1..]);
      } else {
        NormaliseCanonical(base + [raw[0]], raw[1..]);
      }
    }
  }

  /** Text is read piece by piece. */
  lemma {:induction false} NormaliseSplit(base: Path, a: seq<Name>, b: seq<Name>)
    ensures Normalise(base, a + b) == Normalise(Normalise(base, a), b)
    decreases |a|
  {
    if a == [] {
      assert a + b == b;
    } else {
      assert (a + b)[0] == a[0] && (a + b)[1..] == a[1..] + b;
      var next :=
        if a[0] == "" || a[0] == "." then base
        else if a[0] == ".." then (if base == [] then [] else base[..|base| - 1])
        else base + [a[0]];
      NormaliseSplit(next, a[1..], b);
    }
  }

  /** Empty components and `.` stay where they are, `..` goes up but not above the root, and
      canonical text goes down. */
  lemma {:induction false} NormaliseText(base: Path, raw: seq<Name>)
    ensures Normalise(base, [""]) == base && Normalise(base, ["."]) == base
    ensures Normalise(base, [".."]) == if base == [] then [] else base[..|base| - 1]
    ensures Canonical(raw) ==> Normalise(base, raw) == base + raw
    decreases |raw|
  {
    assert [""][1..] == [] && ["."][1..] == [] && [".."][1..] == [];
    if Canonical(raw) && raw != [] {
      NormaliseText(base + [raw[0]], raw[1..]);
      assert base + [raw[0]] + raw[1..] == base + raw;
    }
  }

  // --- the trie and the set it stands for ---

  datatype Trie = Node(allowAll: bool, children: map<Name, Trie>)

  const NOTHING: Trie := Node(false, map[])

  /** At or under an allowed path. */
  predicate Permits(t: Trie, q: Path) {
    t.allowAll || (q != [] && q[0] in t.children && Permits(t.children[q[0]], q[1..]))
  }

  /** At, under or on the way to an allowed path. */
  predicate Visible(t: Trie, q: Path) {
    t.allowAll || q == [] || (q[0] in t.children && Visible(t.children[q[0]], q[1..]))
  }

  function Insert(t: Trie, p: Path): Trie
    decreases |p|
  {
    if p == [] then t.(allowAll := true)
    else
      var child := if p[0] in t.children then t.children[p[0]] else NOTHING;
      t.(children := t.children[p[0] := Insert(child, p[1..])])
  }

  lemma {:induction false} InsertPermits(t: Trie, p: Path, q: Path)
    ensures Permits(Insert(t, p), q) <==> Permits(t, q) || p <= q
    decreases |p|
  {
    if p != [] && q != [] && p[0] == q[0] {
      var child := if p[0] in t.children then t.children[p[0]] else NOTHING;
      InsertPermits(child, p[1..], q[1..]);
      assert p == [p[0]] + p[1..] && q == [q[0]] + q[1..];
      assert p <= q <==> p[1..] <= q[1..];
    }
  }

  lemma {:induction false} InsertVisible(t: Trie, p: Path, q: Path)
    ensures Visible(Insert(t, p), q) <==> Visible(t, q) || p <= q || q <= p
    decreases |p|
  {
    if p != [] && q != [] && p[0] == q[0] {
      var child := if p[0] in t.children then t.children[p[0]] else NOTHING;
      InsertVisible(child, p[1..], q[1..]);
      assert p == [p[0]] + p[1..] && q == [q[0]] + q[1..];
      assert p <= q <==> p[1..] <= q[1..];
      assert q <= p <==> q[1..] <= p[1..];
    }
  }

  lemma {:induction false} VisiblePrefix(t: Trie, q: Path, k: nat)
    requires k <= |q| && Visible(t, q)
    ensures Visible(t, q[..k])
    decreases |q|
  {
    if !t.allowAll && k > 0 {
      VisiblePrefix(t.children[q[0]], q[1..], k - 1);
      assert q[..k][1..] == q[1..][..k - 1];
    }
  }

  lemma {:induction false} PermitsVisible(t: Trie, q: Path)
    requires Permits(t, q)
    ensures Visible(t, q)
    decreases |q|
  {
    if !t.allowAll { PermitsVisible(t.children[q[0]], q[1..]); }
  }

  /** The trie stands for the set of paths that were allowed. */
  ghost predicate Refines(t: Trie, granted: set<Path>) {
    && (forall q :: Permits(t, q) <==> exists p :: p in granted && p <= q)
    && (forall q :: Visible(t, q) <==> q == [] || exists p :: p in granted && (p <= q || q <= p))
  }

  lemma EmptyRefines()
    ensures Refines(NOTHING, {})
  {
  }

  lemma InsertRefines(t: Trie, granted: set<Path>, p: Path)
    requires Refines(t, granted)
    ensures Refines(Insert(t, p), granted + {p})
  {
    forall q
      ensures Permits(Insert(t, p), q) <==> exists r :: r in granted + {p} && r <= q
    {
      InsertPermits(t, p, q);
      assert p in granted + {p};
    }
    forall q
      ensures Visible(Insert(t, p), q) <==> q == [] || exists r :: r in granted + {p} && (r <= q || q <= r)
    {
      InsertVisible(t, p, q);
      assert p in granted + {p};
    }
  }

  // --- the walk, one component at a time ---

  /** `level`: everything below is allowed, or a node of the trie; `Nowhere` when the
      walk has left the trie. */
  datatype Level = Everything | At(node: Trie) | Nowhere

  function Descend(l: Level, x: Name): Level {
    match l
    case At(t) =>
      if t.allowAll then Everything
      else if x in t.children then At(t.children[x])
      else Nowhere
    case _ => l
  }

  function LevelFrom(l: Level, q: Path): Level
    decreases |q|
  {
    if q == [] then l else LevelFrom(Descend(l, q[0]), q[1..])
  }

  lemma {:induction false} LevelNext(l: Level, q: Path, x: Name)
    ensures LevelFrom(l, q + [x]) == Descend(LevelFrom(l, q), x)
    decreases |q|
  {
    if q == [] {
      assert (q + [x])[1..] == [];
    } else {
      assert (q + [x])[1..] == q[1..] + [x];
      LevelNext(Descend(l, q[0]), q[1..], x);
    }
  }

  lemma {:induction false} LevelMeaning(t: Trie, q: Path)
    ensures Visible(t, q) <==> LevelFrom(At(t), q) != Nowhere
    ensures Permits(t, q) <==> var l := LevelFrom(At(t), q); l == Everything || (l.At? && l.node.allowAll)
    decreases |q|
  {
    if q != [] {
      if t.allowAll {
        LevelEnds(Everything, q[1..]);
      } else if q[0] in t.children {
        LevelMeaning(t.children[q[0]], q[1..]);
      } else {
        LevelEnds(Nowhere, q[1..]);
      }
    }
  }

  lemma {:induction false} LevelEnds(l: Level, q: Path)
    requires !l.At?
    ensures LevelFrom(l, q) == l
    decreases |q|
  {
    if q != [] { LevelEnds(l, q[1..]); }
  }

  /** The shortest prefix that is a link, as the index of its last component. */
  function FirstLink(fs: FileTree, comps: Path, i: nat): (r: Option<nat>)
    requires i <= |comps|
    ensures r.Some? ==> i <= r.value < |comps| && fs(comps[..r.value + 1]).Some?
    decreases |comps| - i
  {
    if i == |comps| then None
    else if fs(comps[..i + 1]).Some? then Some(i)
    else FirstLink(fs, comps, i + 1)
  }

  /** The components after following the link at index `i`. */
  function Redirect(fs: FileTree, comps: Path, i: nat): Path
    requires i < |comps| && fs(comps[..i + 1]).Some?
  {
    var link := fs(comps[..i + 1]).value;
    Normalise(if link.absolute then [] else comps[..i], link.raw) + comps[i + 1..]
  }

  datatype Walked = Arrived | Redirected(comps: Path) | Left

  function WalkSpec(t: Trie, fs: FileTree, comps: Path): Walked {
    var i := FirstLink(fs, comps, 0);
    if i.None? then (if Permits(t, comps) then Arrived else Left)
    else if Visible(t, comps[..i.value + 1]) then Redirected(Redirect(fs, comps, i.value))
    else Left
  }

  function Check(t: Trie, fs: FileTree, comps: Path, walks: nat): Result
    decreases walks
  {
    if walks == 0 then TooManyLinks
    else match WalkSpec(t, fs, comps)
      case Arrived => Ok(comps)
      case Left => Forbidden
      case Redirected(next) => Check(t, fs, next, walks - 1)
  }

  /** One pass of `checkSourcePath` over the components; `seen` collects the paths it
      looks at. */
  method Walk(t: Trie, fs: FileTree, comps: Path) returns (r: Walked, ghost seen: set<Path>)
    requires Canonical(comps)
    ensures r == WalkSpec(t, fs, comps)
    ensures r.Redirected? ==> Canonical(r.comps)
    ensures forall q :: q in seen ==> Visible(t, q)
  {
    var level, current := At(t), [];
    seen := {};
    LevelMeaning(t, comps);
    for k := 0 to |comps|
      invariant current == comps[..k]
      invariant level == LevelFrom(At(t), comps[..k]) && level != Nowhere
      invariant FirstLink(fs, comps, 0) == FirstLink(fs, comps, k)
      invariant forall q :: q in seen ==> Visible(t, q)
    {
      var p := comps[k];
      assert comps[..k + 1] == comps[..k] + [p];
      LevelNext(At(t), comps[..k], p);
      LevelMeaning(t, comps[..k + 1]);
      if level.At? {
        if level.node.allowAll {
          level := Everything;
        } else if p in level.node.children {
          level := At(level.node.children[p]);
        } else {
          LeftAt(t, fs, comps, k);
          return Left, seen;
        }
      }
      var next := current + [p];
      seen := seen + {next};
      var st := fs(next);
      if st.Some? {
        var target := Normalise(if st.value.absolute then [] else current, st.value.raw);
        NormaliseCanonical(if st.value.absolute then [] else current, st.value.raw);
        return Redirected(target + comps[k + 1..]), seen;
      }
      current := next;
    }
    assert comps[..|comps|] == comps;
    if level.At? && !level.node.allowAll { return Left, seen; }
    return Arrived, seen;
  }

  lemma LeftAt(t: Trie, fs: FileTree, comps: Path, k: nat)
    requires k < |comps| && !Visible(t, comps[..k + 1]) && FirstLink(fs, comps, 0) == FirstLink(fs, comps, k)
    ensures WalkSpec(t, fs, comps) == Left
  {
    var i := FirstLink(fs, comps, 0);
    if i.None? {
      if Permits(t, comps) {
        PermitsVisible(t, comps);
        VisiblePrefix(t, comps, k + 1);
      }
    } else if Visible(t, comps[..i.value + 1]) {
      assert comps[..i.value + 1][..k + 1] == comps[..k + 1];
      VisiblePrefix(t, comps[..i.value + 1], k + 1);
    }
  }

  // --- what an answer guarantees ---

  predicate NoLinks(fs: FileTree, p: Path) {
    forall n :: 0 < n <= |p| ==> fs(p[..n]).None?
  }

  lemma {:induction false} FirstLinkNone(fs: FileTree, comps: Path, i: nat)
    requires i <= |comps| && FirstLink(fs, comps, i).None?
    ensures forall n :: i < n <= |comps| ==> fs(comps[..n]).None?
    decreases |comps| - i
  {
    if i < |comps| { FirstLinkNone(fs, comps, i + 1); }
  }

  lemma {:induction false} FirstLinkAt(fs: FileTree, comps: Path, i: nat, k: nat)
    requires i <= k < |comps| && fs(comps[..k + 1]).Some? && forall n :: i < n <= k ==> fs(comps[..n]).None?
    ensures FirstLink(fs, comps, i) == Some(k)
    decreases k - i
  {
    if i < k { FirstLinkAt(fs, comps, i + 1, k); }
  }

  lemma {:induction false} NoLinkFound(fs: FileTree, comps: Path, i: nat)
    requires i <= |comps| && NoLinks(fs, comps)
    ensures FirstLink(fs, comps, i).None?
    decreases |comps| - i
  {
    if i < |comps| { NoLinkFound(fs, comps, i + 1); }
  }

  /** A path without links is answered at once, by itself if it is permitted. */
  lemma LinkFree(t: Trie, fs: FileTree, p: Path, walks: nat)
    requires NoLinks(fs, p)
    ensures Check(t, fs, p, walks + 1) == if Permits(t, p) then Ok(p) else Forbidden
  {
    NoLinkFound(fs, p, 0);
  }

  /** A path through a link is answered as the path with the link's target in its place:
      relative to where the link lies or to the root, and followed by the rest. */
  lemma LinkFollowed(t: Trie, fs: FileTree, q: Path, x: Name, rest: Path, walks: nat)
    requires NoLinks(fs, q) && fs(q + [x]).Some?
    ensures var link := fs(q + [x]).value;
      Check(t, fs, q + [x] + rest, walks + 1) ==
      if Visible(t, q + [x]) then Check(t, fs, Normalise(if link.absolute then [] else q, link.raw) + rest, walks)
      else Forbidden
  {
    var comps := q + [x] + rest;
    assert comps[..|q|] == q && comps[..|q| + 1] == q + [x] && comps[|q| + 1..] == rest;
    forall n | 0 < n <= |q|
      ensures fs(comps[..n]).None?
    {
      assert comps[..n] == q[..n];
    }
    FirstLinkAt(fs, comps, 0, |q|);
  }

  /** In particular, where the text of the link is canonical. */
  lemma LinkReplaced(t: Trie, fs: FileTree, q: Path, x: Name, rest: Path, walks: nat)
    requires NoLinks(fs, q) && fs(q + [x]).Some? && Visible(t, q + [x]) && Canonical(fs(q + [x]).value.raw)
    ensures var link := fs(q + [x]).value;
      Check(t, fs, q + [x] + rest, walks + 1)
      == Check(t, fs, (if link.absolute then [] else q) + link.raw + rest, walks)
  {
    LinkFollowed(t, fs, q, x, rest, walks);
    var link := fs(q + [x]).value;
    NormaliseText(if link.absolute then [] else q, link.raw);
  }

  /** An accepted path has no link at any prefix and lies at or under an allowed path. */
  lemma {:induction false} AcceptedIsAllowed(t: Trie, fs: FileTree, comps: Path, walks: nat, granted: set<Path>)
    requires Refines(t, granted) && Check(t, fs, comps, walks).Ok?
    ensures var r := Check(t, fs, comps, walks).path;
      NoLinks(fs, r) && exists p :: p in granted && p <= r
    decreases walks
  {
    match WalkSpec(t, fs, comps)
    case Arrived => FirstLinkNone(fs, comps, 0);
    case Redirected(next) => AcceptedIsAllowed(t, fs, next, walks - 1, granted);
  }

  /** An accepted path checks out as itself. */
  lemma AcceptedIsStable(t: Trie, fs: FileTree, comps: Path, walks: nat)
    requires Check(t, fs, comps, walks).Ok?
    ensures Check(t, fs, Check(t, fs, comps, walks).path, walks) == Check(t, fs, comps, walks)
    decreases walks
  {
    match WalkSpec(t, fs, comps)
    case Arrived =>
    case Redirected(next) =>
      AcceptedIsStable(t, fs, next, walks - 1);
      AcceptedArrives(t, fs, next, walks - 1);
  }

  lemma {:induction false} AcceptedArrives(t: Trie, fs: FileTree, comps: Path, walks: nat)
    requires Check(t, fs, comps, walks).Ok?
    ensures WalkSpec(t, fs, Check(t, fs, comps, walks).path) == Arrived
    decreases walks
  {
    match WalkSpec(t, fs, comps)
    case Arrived =>
    case Redirected(next) => AcceptedArrives(t, fs, next, walks - 1);
  }

  /** Allowing more paths never changes an answer that was given. */
  lemma {:induction false} GrantKeepsAnswers(t: Trie, fs: FileTree, comps: Path, walks: nat, p: Path)
    requires Check(t, fs, comps, walks).Ok?
    ensures Check(Insert(t, p), fs, comps, walks) == Check(t, fs, comps, walks)
    decreases walks
  {
    var i := FirstLink(fs, comps, 0);
    if i.None? {
      InsertPermits(t, p, comps);
    } else {
      InsertVisible(t, p, comps[..i.value + 1]);
      GrantKeepsAnswers(t, fs, Redirect(fs, comps, i.value), walks - 1, p);
    }
  }

  /** A path that needs fewer restarts than the limit is not affected by the limit. */
  lemma {:induction false} LimitIrrelevant(t: Trie, fs: FileTree, comps: Path, walks: nat, more: nat)
    requires walks <= more && Check(t, fs, comps, walks) != TooManyLinks
    ensures Check(t, fs, comps, more) == Check(t, fs, comps, walks)
    decreases walks
  {
    if WalkSpec(t, fs, comps).Redirected? {
      LimitIrrelevant(t, fs, WalkSpec(t, fs, comps).comps, walks - 1, more - 1);
    }
  }

  // --- the checker ---

  /** Each restart counts twice towards the limit, so this many passes are possible. */
  const MAX_WALKS: nat := MAX_FOLLOW / 2

  predicate IsCorePackage(p: Path) {
    |p| >= 2 && p[0] == "__corepkgs__"
  }

  class EvalPaths {
    const fs: FileTree
    var allowed: Option<Trie>
    var resolved: map<Path, Path>
    ghost var granted: set<Path>

    /** The trie stands for the allowed set, and every cached answer is the one a fresh
        check would give. */
    ghost predicate Valid()
      reads this
    {
      allowed.Some? ==>
        && Refines(allowed.value, granted)
        && forall p :: p in resolved ==> !IsCorePackage(p) && Check(allowed.value, fs, p, MAX_WALKS) == Ok(resolved[p])
    }

    constructor (fs: FileTree, restricted: bool)
      ensures Valid() && granted == {} && this.fs == fs && (allowed.Some? <==> restricted)
    {
      this.fs := fs;
      allowed := if restricted then Some(NOTHING) else None;
      resolved, granted := map[], {};
      new;
      EmptyRefines();
    }

    method AllowPath(p: Path)
      requires Valid()
      modifies this`allowed, this`granted
      ensures Valid()
      ensures old(allowed).None? ==> allowed.None? && granted == old(granted)
      ensures old(allowed).Some? ==> allowed.Some? && granted == old(granted) + {p}
    {
      if allowed.None? { return; }
      InsertRefines(allowed.value, granted, p);
      forall q | q in resolved
        ensures Check(Insert(allowed.value, p), fs, q, MAX_WALKS) == Ok(resolved[q])
      {
        GrantKeepsAnswers(allowed.value, fs, q, MAX_WALKS, p);
      }
      hide Refines, Check, Insert;
      allowed := Some(Insert(allowed.value, p));
      granted := granted + {p};
    }

    /** `checkSourcePath`: cached or not, the answer is that of a fresh check. */
    method CheckSourcePath(path: Path) returns (r: Result, ghost seen: set<Path>)
      requires Valid() && Canonical(path)
      modifies this`resolved
      ensures Valid()
      ensures allowed.None? ==> r == Ok(path)
      ensures allowed.Some? ==>
        r == if |path| >= 2 && path[0] == "__corepkgs__" then Ok(path) else Check(allowed.value, fs, path, 512)
      ensures allowed.Some? && r.Ok? && !IsCorePackage(path) ==>
        NoLinks(fs, r.path) && exists p :: p in granted && p <= r.path
      ensures forall q :: q in seen ==> q == [] || exists p :: p in granted && (p <= q || q <= p)
      ensures resolved ==
        if allowed.Some? && r.Ok? && !IsCorePackage(path) then old(resolved)[path := r.path] else old(resolved)
    {
      hide Check;
      seen := {};
      if allowed.None? { return Ok(path), seen; }
      if path in resolved {
        AcceptedIsAllowed(allowed.value, fs, path, MAX_WALKS, granted);
        return Ok(resolved[path]), seen;
      }
      if IsCorePackage(path) { return Ok(path), seen; }
      r, seen := FreshCheck(allowed.value, fs, path);
      if r.Ok? {
        AcceptedIsAllowed(allowed.value, fs, path, MAX_WALKS, granted);
        resolved := resolved[path := r.path];
      }
    }
  }

  lemma CheckStep(t: Trie, fs: FileTree, comps: Path, walks: nat)
    ensures Check(t, fs, comps, walks) ==
      if walks == 0 then TooManyLinks
      else match WalkSpec(t, fs, comps)
        case Arrived => Ok(comps)
        case Left => Forbidden
        case Redirected(next) => Check(t, fs, next, walks - 1)
  {
  }

  method FreshCheck(t: Trie, fs: FileTree, path: Path) returns (r: Result, ghost seen: set<Path>)
    requires Canonical(path)
    ensures r == Check(t, fs, path, 512)
    ensures forall q :: q in seen ==> Visible(t, q)
  {
    hide Check, WalkSpec, Visible;
    var followCount, components := 0, path;
    seen := {};
    ghost var left: nat := MAX_WALKS;
    while true
      invariant Canonical(components)
      invariant followCount == 2 * (MAX_WALKS - left) && left <= MAX_WALKS
      invariant Check(t, fs, path, MAX_WALKS) == Check(t, fs, components, left)
      invariant forall q :: q in seen ==> Visible(t, q)
      decreases left
    {
      followCount := followCount + 1;
      CheckStep(t, fs, components, left);
      if followCount >= MAX_FOLLOW { return TooManyLinks, seen; }
      ghost var looked;
      var w;
      w, looked := Walk(t, fs, components);
      seen := seen + looked;
      match w {
        case Arrived => return Ok(components), seen;
        case Left => return Forbidden, seen;
        case Redirected(next) =>
          components := next;
          followCount := followCount + 1;
          left := left - 1;
      }
    }
  }
}
