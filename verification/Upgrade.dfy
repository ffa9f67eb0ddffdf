/** Which derivation an upgrade installs, and which of several matches a selector
    picks. A lower priority number is a higher priority. */
module Upgrade {
  import opened Options
  import opened Names

  type Version = string

  datatype Drv = Drv(
    name: string, version: Version, priority: int, system: string, outPath: string, keep: bool, prebuilt: bool)

  datatype Ordering = Less | Equal | Greater

  /** `compareVersions`. */
  type VersionOrder = (Version, Version) -> Ordering

  ghost predicate TotalPreorder(cmp: VersionOrder) {
    && (forall a, b :: cmp(a, b) == Less <==> cmp(b, a) == Greater)
    && (forall a, b, c :: cmp(a, b) != Greater && cmp(b, c) != Greater ==> cmp(a, c) != Greater)
  }

  datatype Mode = Lt | Leq | Eq | Always

  predicate Meets(mode: Mode, d: Ordering) {
    match mode
    case Lt => d == Less
    case Leq => d != Greater
    case Eq => d == Equal
    case Always => true
  }

  /** `comparePriorities`. */
  function ComparePriorities(a: Drv, b: Drv): Ordering {
    if b.priority < a.priority then Less else if b.priority == a.priority then Equal else Greater
  }

  // --- upgrade ---

  /** `j` may replace the installed `i`. */
  predicate Candidate(cmp: VersionOrder, mode: Mode, prebuiltOnly: bool, i: Drv, j: Drv) {
    && j.priority <= i.priority
    && j.name == i.name
    && Meets(mode, cmp(i.version, j.version))
    && (prebuiltOnly ==> j.prebuilt)
  }

  /** `j` beats `k` by priority, then by version. */
  predicate Better(cmp: VersionOrder, j: Drv, k: Drv) {
    j.priority < k.priority || (j.priority == k.priority && cmp(k.version, j.version) == Less)
  }

  /** The first candidate that no candidate beats. */
  predicate FirstBest(cmp: VersionOrder, mode: Mode, prebuiltOnly: bool, i: Drv, avail: seq<Drv>, best: Option<nat>) {
    match best
    case None => forall j :: 0 <= j < |avail| ==> !Candidate(cmp, mode, prebuiltOnly, i, avail[j])
    case Some(k) =>
      && k < |avail| && Candidate(cmp, mode, prebuiltOnly, i, avail[k])
      && (forall j :: 0 <= j < |avail| && Candidate(cmp, mode, prebuiltOnly, i, avail[j]) ==>
            if j < k then Better(cmp, avail[k], avail[j]) else !Better(cmp, avail[j], avail[k]))
  }

  lemma BetterTransitive(cmp: VersionOrder, a: Drv, b: Drv, c: Drv)
    requires TotalPreorder(cmp)
    ensures Better(cmp, a, b) && Better(cmp, b, c) ==> Better(cmp, a, c)
    ensures Better(cmp, a, b) && !Better(cmp, c, b) ==> Better(cmp, a, c)
    ensures Better(cmp, a, b) ==> !Better(cmp, b, a)
  {
    assert cmp(b.version, a.version) == Less <==> cmp(a.version, b.version) == Greater;
    assert cmp(c.version, a.version) == Less <==> cmp(a.version, c.version) == Greater;
    assert cmp(c.version, b.version) == Less <==> cmp(b.version, c.version) == Greater;
  }

  /** There is only one such choice. */
  lemma FirstBestUnique(cmp: VersionOrder, mode: Mode, prebuiltOnly: bool, i: Drv, avail: seq<Drv>, b1: Option<nat>,
                        b2: Option<nat>)
    requires TotalPreorder(cmp)
    requires FirstBest(cmp, mode, prebuiltOnly, i, avail, b1) && FirstBest(cmp, mode, prebuiltOnly, i, avail, b2)
    ensures b1 == b2
  {
    if b1.Some? && b2.Some? {
      BetterTransitive(cmp, avail[b1.value], avail[b2.value], avail[b1.value]);
      BetterTransitive(cmp, avail[b2.value], avail[b1.value], avail[b2.value]);
    }
  }

  lemma NextBest(cmp: VersionOrder, mode: Mode, prebuiltOnly: bool, i: Drv, avail: seq<Drv>, n: nat, best: Option<nat>)
    requires TotalPreorder(cmp) && n < |avail|
    requires FirstBest(cmp, mode, prebuiltOnly, i, avail[..n], best)
    requires Candidate(cmp, mode, prebuiltOnly, i, avail[n])
    requires best.Some? ==> Better(cmp, avail[n], avail[best.value])
    ensures FirstBest(cmp, mode, prebuiltOnly, i, avail[..n + 1], Some(n))
  {
    BetterTransitive(cmp, avail[n], avail[n], avail[n]);
    forall j | 0 <= j < n + 1 && Candidate(cmp, mode, prebuiltOnly, i, avail[j])
      ensures if j < n then Better(cmp, avail[n], avail[j]) else !Better(cmp, avail[j], avail[n])
    {
      if j < n {
        assert avail[..n][j] == avail[j];
        BetterTransitive(cmp, avail[n], avail[best.value], avail[j]);
      }
    }
  }

  lemma SameBest(cmp: VersionOrder, mode: Mode, prebuiltOnly: bool, i: Drv, avail: seq<Drv>, n: nat, best: Option<nat>)
    requires n < |avail| && FirstBest(cmp, mode, prebuiltOnly, i, avail[..n], best)
    requires Candidate(cmp, mode, prebuiltOnly, i, avail[n]) ==> best.Some? && !Better(cmp, avail[n], avail[best.value])
    ensures FirstBest(cmp, mode, prebuiltOnly, i, avail[..n + 1], best)
  {
    assert forall j :: 0 <= j < n ==> avail[..n + 1][j] == avail[..n][j];
  }

  /** The choice loop of `upgradeDerivations`. */
  method ChooseUpgrade(cmp: VersionOrder, mode: Mode, prebuiltOnly: bool, i: Drv, avail: seq<Drv>)
    returns (bestElem: Option<nat>)
    requires TotalPreorder(cmp)
    ensures FirstBest(cmp, mode, prebuiltOnly, i, avail, bestElem)
  {
    bestElem := None;
    var bestVersion := "";
    assert FirstBest(cmp, mode, prebuiltOnly, i, [], None);
    hide FirstBest, TotalPreorder;
    for j := 0 to |avail|
      invariant bestElem.Some? ==> bestElem.value < j && bestVersion == avail[bestElem.value].version
      invariant FirstBest(cmp, mode, prebuiltOnly, i, avail[..j], bestElem)
    {
      if Candidate(cmp, mode, prebuiltOnly, i, avail[j]) &&
         (bestElem.None? || Better(cmp, avail[j], avail[bestElem.value]))
      {
        NextBest(cmp, mode, prebuiltOnly, i, avail, j, bestElem);
      } else {
        SameBest(cmp, mode, prebuiltOnly, i, avail, j, bestElem);
      }
      if ComparePriorities(i, avail[j]) == Greater { continue; }
      if avail[j].name == i.name {
        var d := cmp(i.version, avail[j].version);
        if Meets(mode, d) {
          var d2 := Less;
          if bestElem.Some? {
            d2 := ComparePriorities(avail[bestElem.value], avail[j]);
            if d2 == Equal { d2 := cmp(bestVersion, avail[j].version); }
          }
          if d2 == Less && (!prebuiltOnly || avail[j].prebuilt) {
            bestElem, bestVersion := Some(j), avail[j].version;
          }
        }
      }
    }
    assert avail[..|avail|] == avail;
  }

  /** What an upgrade puts in the place of the installed `i`. */
  ghost predicate Upgraded(cmp: VersionOrder, mode: Mode, prebuiltOnly: bool, avail: seq<Drv>, i: Drv, r: Drv) {
    if i.keep then r == i
    else exists best :: FirstBest(cmp, mode, prebuiltOnly, i, avail, best) && r == Replacement(avail, i, best)
  }

  function Replacement(avail: seq<Drv>, i: Drv, best: Option<nat>): Drv {
    if best.Some? && best.value < |avail| && i.outPath != avail[best.value].outPath then avail[best.value] else i
  }

  /** One turn of `upgradeDerivations` over the installed elements. */
  method UpgradeElems(cmp: VersionOrder, mode: Mode, prebuiltOnly: bool, installed: seq<Drv>, avail: seq<Drv>)
    returns (newElems: seq<Drv>)
    requires TotalPreorder(cmp)
    ensures |newElems| == |installed|
    ensures forall n :: 0 <= n < |installed| ==> Upgraded(cmp, mode, prebuiltOnly, avail, installed[n], newElems[n])
  {
    newElems := [];
    for n := 0 to |installed|
      invariant |newElems| == n
      invariant forall m :: 0 <= m < n ==> Upgraded(cmp, mode, prebuiltOnly, avail, installed[m], newElems[m])
    {
      var i := installed[n];
      if i.keep {
        newElems := newElems + [i];
        continue;
      }
      var best := ChooseUpgrade(cmp, mode, prebuiltOnly, i, avail);
      if best.Some? && i.outPath != avail[best.value].outPath {
        newElems := newElems + [avail[best.value]];
      } else {
        newElems := newElems + [i];
      }
    }
  }

  /** The installed elements and the available ones determine the new elements. */
  lemma UpgradeDetermined(cmp: VersionOrder, mode: Mode, prebuiltOnly: bool, avail: seq<Drv>, i: Drv, r1: Drv, r2: Drv)
    requires TotalPreorder(cmp)
    requires Upgraded(cmp, mode, prebuiltOnly, avail, i, r1) && Upgraded(cmp, mode, prebuiltOnly, avail, i, r2)
    ensures r1 == r2
  {
    if !i.keep {
      var b1 :| FirstBest(cmp, mode, prebuiltOnly, i, avail, b1) && r1 == Replacement(avail, i, b1);
      var b2 :| FirstBest(cmp, mode, prebuiltOnly, i, avail, b2) && r2 == Replacement(avail, i, b2);
      FirstBestUnique(cmp, mode, prebuiltOnly, i, avail, b1, b2);
    }
  }

  /** An upgrade keeps the package and never lowers its priority; a change of version
      is one the mode allows. */
  lemma UpgradeKeepsPackage(cmp: VersionOrder, mode: Mode, prebuiltOnly: bool, avail: seq<Drv>, i: Drv, r: Drv)
    requires Upgraded(cmp, mode, prebuiltOnly, avail, i, r)
    ensures r.name == i.name && r.priority <= i.priority
    ensures r != i ==> !i.keep && Meets(mode, cmp(i.version, r.version)) && (prebuiltOnly ==> r.prebuilt)
  {
  }

  /** What the choice is, spelled out. `j` may replace `i` if it is the same package, of no
      lower priority, prebuilt if that is asked for, and of a version the mode allows: newer,
      no older, the same, or any. The chosen one has the highest priority among them and,
      among those, the newest version; the first of several. */
  lemma ChoiceSpelledOut(cmp: VersionOrder, mode: Mode, prebuiltOnly: bool, i: Drv, avail: seq<Drv>, best: Option<nat>)
    requires TotalPreorder(cmp) && FirstBest(cmp, mode, prebuiltOnly, i, avail, best)
    ensures forall j :: 0 <= j < |avail| && MayReplace(cmp, mode, prebuiltOnly, i, avail[j]) ==>
      && best.Some? && best.value < |avail|
      && avail[best.value].priority <= avail[j].priority
      && (avail[best.value].priority == avail[j].priority ==>
            var d := cmp(avail[j].version, avail[best.value].version);
            d == Less || (d == Equal && best.value <= j))
    ensures best.Some? ==> best.value < |avail| && MayReplace(cmp, mode, prebuiltOnly, i, avail[best.value])
  {
    forall j | 0 <= j < |avail|
      ensures MayReplace(cmp, mode, prebuiltOnly, i, avail[j]) <==> Candidate(cmp, mode, prebuiltOnly, i, avail[j])
    {
    }
    if best.Some? {
      var b := avail[best.value];
      forall j | 0 <= j < |avail|
        ensures cmp(b.version, avail[j].version) == Less <==> cmp(avail[j].version, b.version) == Greater
      {
      }
    }
  }

  predicate MayReplace(cmp: VersionOrder, mode: Mode, prebuiltOnly: bool, i: Drv, j: Drv) {
    && j.name == i.name && j.priority <= i.priority && (j.prebuilt || !prebuiltOnly)
    && (mode == Lt ==> cmp(i.version, j.version) == Less)
    && (mode == Leq ==> cmp(i.version, j.version) != Greater)
    && (mode == Eq ==> cmp(i.version, j.version) == Equal)
  }

  /** An element stays if it is kept, if nothing may replace it, or if the choice has the
      same output; otherwise the choice takes its place. */
  lemma UpgradedIs(cmp: VersionOrder, mode: Mode, prebuiltOnly: bool, avail: seq<Drv>, i: Drv, r: Drv,
                   best: Option<nat>)
    requires TotalPreorder(cmp) && FirstBest(cmp, mode, prebuiltOnly, i, avail, best)
    ensures Upgraded(cmp, mode, prebuiltOnly, avail, i, r) <==>
      r == if i.keep || best.None? || avail[best.value].outPath == i.outPath then i else avail[best.value]
  {
    if Upgraded(cmp, mode, prebuiltOnly, avail, i, r) && !i.keep {
      var b :| FirstBest(cmp, mode, prebuiltOnly, i, avail, b) && r == Replacement(avail, i, b);
      FirstBestUnique(cmp, mode, prebuiltOnly, i, avail, best, b);
    }
  }

  // --- one match per name ---

  datatype Match = Match(drv: Drv, index: nat)

  /** Current system, then priority, then version. */
  function CompareMatches(cmp: VersionOrder, thisSystem: string, a: Drv, b: Drv): Ordering {
    var bySystem :=
      if a.system == b.system then Equal
      else if a.system == thisSystem then Greater
      else if b.system == thisSystem then Less
      else Equal;
    if bySystem != Equal then bySystem
    else if ComparePriorities(a, b) != Equal then ComparePriorities(a, b)
    else cmp(a.version, b.version)
  }

  lemma MatchesPreordered(cmp: VersionOrder, thisSystem: string, a: Drv, b: Drv, c: Drv)
    requires TotalPreorder(cmp)
    ensures CompareMatches(cmp, thisSystem, a, b) == Less <==> CompareMatches(cmp, thisSystem, b, a) == Greater
    ensures CompareMatches(cmp, thisSystem, a, b) == Greater && CompareMatches(cmp, thisSystem, c, b) != Greater
      ==> CompareMatches(cmp, thisSystem, a, c) == Greater
  {
    assert cmp(a.version, b.version) == Less <==> cmp(b.version, a.version) == Greater;
    assert cmp(c.version, b.version) == Less <==> cmp(b.version, c.version) == Greater;
    assert cmp(a.version, c.version) == Less <==> cmp(c.version, a.version) == Greater;
    if cmp(a.version, c.version) != Greater && cmp(c.version, b.version) != Greater {
      assert cmp(a.version, b.version) != Greater;
    }
    assert cmp(b.version, a.version) == Less <==> cmp(a.version, b.version) == Greater;
  }

  /** Match `k` is the first greatest one of its name. */
  predicate FirstGreatest(cmp: VersionOrder, thisSystem: string, matches: seq<Match>, k: nat) {
    k < |matches| &&
    forall j :: 0 <= j < |matches| && matches[j].drv.name == matches[k].drv.name ==>
      if j < k then CompareMatches(cmp, thisSystem, matches[k].drv, matches[j].drv) == Greater
      else CompareMatches(cmp, thisSystem, matches[j].drv, matches[k].drv) != Greater
  }

  /** What the pick is, spelled out: no match of the name is for this system unless the pick
      is; among those alike in that, none has a higher priority; among those, none is newer;
      and the pick is the first of several. */
  lemma PickSpelledOut(cmp: VersionOrder, thisSystem: string, matches: seq<Match>, k: nat, j: nat)
    requires TotalPreorder(cmp) && FirstGreatest(cmp, thisSystem, matches, k)
    requires j < |matches| && matches[j].drv.name == matches[k].drv.name
    ensures matches[j].drv.system == thisSystem ==> matches[k].drv.system == thisSystem
    ensures var a, b := matches[k].drv, matches[j].drv;
      (a.system == thisSystem <==> b.system == thisSystem) ==>
        && a.priority <= b.priority
        && (a.priority == b.priority ==>
              && cmp(b.version, a.version) != Greater
              && (cmp(b.version, a.version) == Equal ==> k <= j))
  {
    var a, b := matches[k].drv, matches[j].drv;
    assert cmp(a.version, b.version) == Less <==> cmp(b.version, a.version) == Greater;
    assert cmp(b.version, a.version) == Less <==> cmp(a.version, b.version) == Greater;
  }

  /** What the first loop of `pickNewestOnly` knows after some matches. */
  ghost predicate Newest(cmp: VersionOrder, thisSystem: string, matches: seq<Match>, newest: map<string, Match>,
                         at: map<string, nat>)
  {
    && newest.Keys == at.Keys
    && (forall j :: 0 <= j < |matches| ==> matches[j].drv.name in newest)
    && (forall x :: x in newest ==>
          && FirstGreatest(cmp, thisSystem, matches, at[x])
          && matches[at[x]] == newest[x] && newest[x].drv.name == x)
  }

  lemma NewestKept(cmp: VersionOrder, thisSystem: string, matches: seq<Match>, n: nat, newest: map<string, Match>,
                   at: map<string, nat>)
    requires TotalPreorder(cmp) && n < |matches| && Newest(cmp, thisSystem, matches[..n], newest, at)
    requires matches[n].drv.name in newest
    requires CompareMatches(cmp, thisSystem, matches[n].drv, newest[matches[n].drv.name].drv) != Greater
    ensures Newest(cmp, thisSystem, matches[..n + 1], newest, at)
  {
    hide CompareMatches, TotalPreorder;
    assert forall j :: 0 <= j < n ==> matches[..n + 1][j] == matches[..n][j];
    assert matches[..n + 1][n] == matches[n];
    forall x | x in newest
      ensures FirstGreatest(cmp, thisSystem, matches[..n + 1], at[x])
    {
      assert FirstGreatest(cmp, thisSystem, matches[..n], at[x]);
    }
  }

  lemma NewestTaken(cmp: VersionOrder, thisSystem: string, matches: seq<Match>, n: nat, newest: map<string, Match>,
                    at: map<string, nat>)
    requires TotalPreorder(cmp) && n < |matches| && Newest(cmp, thisSystem, matches[..n], newest, at)
    requires var x := matches[n].drv.name;
      x in newest ==> CompareMatches(cmp, thisSystem, matches[n].drv, newest[x].drv) == Greater
    ensures var name := matches[n].drv.name;
      Newest(cmp, thisSystem, matches[..n + 1], newest[name := matches[n]], at[name := n])
  {
    hide CompareMatches, TotalPreorder;
    var all, x := matches[..n + 1], matches[n].drv.name;
    assert forall j :: 0 <= j < n ==> all[j] == matches[..n][j];
    assert all[n] == matches[n];
    forall y | y in newest && y != x
      ensures FirstGreatest(cmp, thisSystem, all, at[y])
    {
      assert FirstGreatest(cmp, thisSystem, matches[..n], at[y]);
    }
    forall j | 0 <= j < |all| && all[j].drv.name == x
      ensures if j < n then CompareMatches(cmp, thisSystem, all[n].drv, all[j].drv) == Greater
        else CompareMatches(cmp, thisSystem, all[j].drv, all[n].drv) != Greater
    {
      if j < n {
        assert matches[..n][j].drv.name in newest;
        BeatsTheRest(cmp, thisSystem, matches[..n], at[x], matches[n].drv, j);
      } else {
        MatchesPreordered(cmp, thisSystem, matches[n].drv, matches[n].drv, matches[n].drv);
      }
    }
    assert FirstGreatest(cmp, thisSystem, all, n);
  }

  lemma BeatsTheRest(cmp: VersionOrder, thisSystem: string, matches: seq<Match>, k: nat, d: Drv, j: nat)
    requires TotalPreorder(cmp) && FirstGreatest(cmp, thisSystem, matches, k) && j < |matches|
    requires matches[j].drv.name == matches[k].drv.name
    requires CompareMatches(cmp, thisSystem, d, matches[k].drv) == Greater
    ensures CompareMatches(cmp, thisSystem, d, matches[j].drv) == Greater
  {
    MatchesPreordered(cmp, thisSystem, d, matches[k].drv, matches[j].drv);
    MatchesPreordered(cmp, thisSystem, matches[k].drv, matches[j].drv, d);
  }

  method CollectNewest(cmp: VersionOrder, thisSystem: string, matches: seq<Match>)
    returns (newest: map<string, Match>, ghost at: map<string, nat>)
    requires TotalPreorder(cmp)
    ensures Newest(cmp, thisSystem, matches, newest, at)
  {
    newest, at := map[], map[];
    assert Newest(cmp, thisSystem, [], newest, at);
    hide Newest, TotalPreorder;
    for n := 0 to |matches|
      invariant Newest(cmp, thisSystem, matches[..n], newest, at)
    {
      var oneDrv := matches[n].drv;
      var comparison := Greater;
      if oneDrv.name in newest {
        comparison := CompareMatches(cmp, thisSystem, oneDrv, newest[oneDrv.name].drv);
      }
      if comparison == Greater {
        NewestTaken(cmp, thisSystem, matches, n, newest, at);
        newest := newest[oneDrv.name := matches[n]];
        at := at[oneDrv.name := n];
      } else {
        NewestKept(cmp, thisSystem, matches, n, newest, at);
      }
    }
    assert matches[..|matches|] == matches;
  }

  lemma GreatestInRange(cmp: VersionOrder, thisSystem: string, matches: seq<Match>, k: nat)
    requires FirstGreatest(cmp, thisSystem, matches, k)
    ensures k < |matches|
  {
  }

  predicate HasName(picked: seq<Match>, name: string) {
    exists m :: m in picked && m.drv.name == name
  }

  /** `pickNewestOnly`: one match per name, the first greatest one, in byte order of the
      names. */
  method PickNewestOnly(cmp: VersionOrder, thisSystem: string, matches: seq<Match>) returns (picked: seq<Match>)
    requires TotalPreorder(cmp)
    ensures forall m :: m in picked ==>
      exists k: nat :: k < |matches| && matches[k] == m && FirstGreatest(cmp, thisSystem, matches, k)
    ensures forall j :: 0 <= j < |matches| ==> HasName(picked, matches[j].drv.name)
    ensures forall i, j :: 0 <= i < j < |picked| ==> Before(picked[i].drv.name, picked[j].drv.name)
  {
    hide CompareMatches, FirstGreatest, TotalPreorder, Before;
    ghost var at;
    var newest;
    newest, at := CollectNewest(cmp, thisSystem, matches);
    picked := [];
    var names := Listed(newest.Keys);
    for n := 0 to |names|
      invariant |picked| == n
      invariant forall i :: 0 <= i < n ==> names[i] in newest && picked[i] == newest[names[i]]
    {
      assert names[n] in names;
      picked := picked + [newest[names[n]]];
    }
    forall j | 0 <= j < |matches|
      ensures HasName(picked, matches[j].drv.name)
    {
      assert newest[matches[j].drv.name] in picked;
    }
    forall m | m in picked
      ensures exists k: nat :: k < |matches| && matches[k] == m && FirstGreatest(cmp, thisSystem, matches, k)
    {
      GreatestInRange(cmp, thisSystem, matches, at[m.drv.name]);
      assert matches[at[m.drv.name]] == m;
    }
  }
}
