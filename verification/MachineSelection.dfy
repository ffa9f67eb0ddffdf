/** Choice of a remote builder: the scan over machines and slots, and the retry loop
    around it. Speeds are non-negative reals; the quotient of a load by a speed follows
    floating point where the speed is zero. */
module MachineSelection {
  import opened Options

  datatype Machine = Machine(
    systems: set<string>, maxJobs: nat, speed: real,
    supported: set<string>, mandatory: set<string>, enabled: bool)

  datatype Need = Need(system: string, features: set<string>)

  /** `Machine::is_eligible`. */
  predicate IsEligible(m: Machine, need: Need) {
    && m.enabled
    && (need.system == "builtin" || need.system in m.systems)
    && (forall f :: f in need.features ==> f in m.supported || f in m.mandatory)
    && m.mandatory <= need.features
  }

  predicate ValidMachines(machines: seq<Machine>) {
    forall i :: 0 <= i < |machines| ==> machines[i].speed >= 0.0
  }

  /** What the probes of one scan answer: is this slot of this machine taken? */
  type Probes = (nat, nat) -> bool

  // --- quotients as the hardware gives them ---

  datatype Quotient = Finite(q: real) | Infinity | NotANumber

  function Divide(load: nat, speed: real): Quotient
    requires speed >= 0.0
  {
    if speed > 0.0 then Finite(load as real / speed)
    else if load > 0 then Infinity
    else NotANumber
  }

  predicate QLess(a: Quotient, b: Quotient) {
    (a.Finite? && b.Finite? && a.q < b.q) || (a.Finite? && b.Infinity?)
  }

  predicate QEqual(a: Quotient, b: Quotient) {
    !a.NotANumber? && a == b
  }

  // --- one scan ---

  /** A machine that has a free slot: its load, its speed and the first free slot. */
  datatype Offer = Offer(machine: nat, load: nat, speed: real, slot: nat)

  /** The test that lets a later offer replace the best one so far. */
  predicate Replaces(a: Offer, best: Offer)
    requires a.speed >= 0.0 && best.speed >= 0.0
  {
    var qa, qb := Divide(a.load, a.speed), Divide(best.load, best.speed);
    QLess(qa, qb) ||
    (QEqual(qa, qb) && (a.speed > best.speed || (a.speed == best.speed && a.load < best.load)))
  }

  function CountTaken(taken: Probes, i: nat, n: nat): nat {
    if n == 0 then 0 else CountTaken(taken, i, n - 1) + if taken(i, n - 1) then 1 else 0
  }

  predicate IsFirstFree(taken: Probes, i: nat, n: nat, slot: nat) {
    slot < n && !taken(i, slot) && forall k :: 0 <= k < slot ==> taken(i, k)
  }

  predicate NoneFree(taken: Probes, i: nat, n: nat) {
    forall k :: 0 <= k < n ==> taken(i, k)
  }

  /** The offers of the first `n` machines, in order. */
  function Offers(machines: seq<Machine>, need: Need, taken: Probes, n: nat): (r: seq<Offer>)
    requires n <= |machines|
    ensures |r| <= n
  {
    if n == 0 then []
    else Offers(machines, need, taken, n - 1) + OfferOf(machines, need, taken, n - 1)
  }

  function OfferOf(machines: seq<Machine>, need: Need, taken: Probes, i: nat): (r: seq<Offer>)
    requires i < |machines|
    ensures |r| <= 1
  {
    var slot := FirstFree(taken, i, machines[i].maxJobs);
    if IsEligible(machines[i], need) && slot.Some?
    then [Offer(i, CountTaken(taken, i, machines[i].maxJobs), machines[i].speed, slot.value)]
    else []
  }

  function FirstFree(taken: Probes, i: nat, n: nat): (r: Option<nat>)
    ensures r.Some? ==> IsFirstFree(taken, i, n, r.value)
    ensures r.None? ==> NoneFree(taken, i, n)
  {
    if n == 0 then None
    else
      var r := FirstFree(taken, i, n - 1);
      if r.Some? then r else if taken(i, n - 1) then None else Some(n - 1)
  }

  /** The load is the number of slots that are taken. */
  lemma {:induction false} LoadIsTaken(taken: Probes, i: nat, n: nat)
    ensures CountTaken(taken, i, n) == |set k: nat | k < n && taken(i, k)|
  {
    if n > 0 {
      LoadIsTaken(taken, i, n - 1);
      var before := set k: nat | k < n - 1 && taken(i, k);
      assert (set k: nat | k < n && taken(i, k)) == before + if taken(i, n - 1) then {n - 1} else {};
    }
  }

  /** The offer is that of an eligible machine among the first `n`. */
  ghost predicate IsOffer(machines: seq<Machine>, need: Need, taken: Probes, n: nat, o: Offer) {
    && o.machine < n <= |machines| && IsEligible(machines[o.machine], need) && o.speed == machines[o.machine].speed
    && o.speed >= 0.0 && IsFirstFree(taken, o.machine, machines[o.machine].maxJobs, o.slot)
    && IsLoad(taken, o.machine, machines[o.machine].maxJobs, o.load)
  }

  ghost predicate IsLoad(taken: Probes, i: nat, n: nat, load: nat) {
    load == |set k: nat | k < n && taken(i, k)|
  }

  ghost predicate NothingOffered(machines: seq<Machine>, need: Need, taken: Probes, n: nat)
    requires n <= |machines|
  {
    forall i :: 0 <= i < n && IsEligible(machines[i], need) ==> NoneFree(taken, i, machines[i].maxJobs)
  }

  lemma OneOffer(machines: seq<Machine>, need: Need, taken: Probes, i: nat)
    requires i < |machines| && ValidMachines(machines)
    ensures forall o :: o in OfferOf(machines, need, taken, i) ==> IsOffer(machines, need, taken, i + 1, o)
    ensures OfferOf(machines, need, taken, i) == [] <==>
      (IsEligible(machines[i], need) ==> NoneFree(taken, i, machines[i].maxJobs))
    ensures OfferOf(machines, need, taken, i) != [] ==> OfferOf(machines, need, taken, i)[0].machine == i
  {
    hide IsEligible;
    LoadIsTaken(taken, i, machines[i].maxJobs);
  }

  lemma {:induction false} OffersAre(machines: seq<Machine>, need: Need, taken: Probes, n: nat)
    requires n <= |machines| && ValidMachines(machines)
    ensures forall o :: o in Offers(machines, need, taken, n) ==> IsOffer(machines, need, taken, n, o)
    ensures Offers(machines, need, taken, n) == [] <==> NothingOffered(machines, need, taken, n)
  {
    if n > 0 {
      OffersAre(machines, need, taken, n - 1);
      OneOffer(machines, need, taken, n - 1);
      hide IsEligible, NoneFree, IsFirstFree, OfferOf, ValidMachines, IsLoad;
    }
  }

  predicate ValidOffers(os: seq<Offer>) {
    forall k :: 0 <= k < |os| ==> os[k].speed >= 0.0
  }

  lemma OffersValid(machines: seq<Machine>, need: Need, taken: Probes, n: nat)
    requires n <= |machines| && ValidMachines(machines)
    ensures ValidOffers(Offers(machines, need, taken, n))
  {
    OffersAre(machines, need, taken, n);
    var os := Offers(machines, need, taken, n);
    assert forall k :: 0 <= k < |os| ==> os[k] in os;
  }

  /** The offer the scan ends with: the last one that replaced the best before it. */
  function Picked(os: seq<Offer>): (k: nat)
    requires os != [] && ValidOffers(os)
    ensures k < |os|
  {
    if |os| == 1 then 0
    else
      var k := Picked(os[..|os| - 1]);
      if Replaces(os[|os| - 1], os[k]) then |os| - 1 else k
  }

  /** The offer a whole scan ends with. */
  function Selected(machines: seq<Machine>, need: Need, taken: Probes): Option<Offer>
    requires ValidMachines(machines)
  {
    var os := Offers(machines, need, taken, |machines|);
    OffersValid(machines, need, taken, |machines|);
    if os == [] then None else Some(os[Picked(os)])
  }

  /** A machine is selected exactly if one is enabled, builds for the system, supports every
      feature the build requires, is asked for every feature it insists on and has a free
      slot; and the selected one is such a machine. */
  lemma SelectedIsFit(machines: seq<Machine>, need: Need, taken: Probes)
    requires ValidMachines(machines)
    ensures Selected(machines, need, taken).Some? <==>
      exists i, k :: 0 <= i < |machines| && CanBuild(machines[i], need) && 0 <= k < machines[i].maxJobs && !taken(i, k)
    ensures var best := Selected(machines, need, taken);
      best.Some? ==>
        && best.value.machine < |machines| && CanBuild(machines[best.value.machine], need)
        && best.value.slot < machines[best.value.machine].maxJobs && !taken(best.value.machine, best.value.slot)
  {
    OffersAre(machines, need, taken, |machines|);
    OffersValid(machines, need, taken, |machines|);
    var os := Offers(machines, need, taken, |machines|);
    forall i | 0 <= i < |machines|
      ensures CanBuild(machines[i], need) <==> IsEligible(machines[i], need)
    {
      EligibleMeans(machines[i], need);
    }
    if os != [] { assert os[Picked(os)] in os; }
    hide IsEligible, CanBuild;
  }

  /** What a build asks of a machine. */
  predicate CanBuild(m: Machine, need: Need) {
    && m.enabled
    && (need.system != "builtin" ==> need.system in m.systems)
    && need.features <= m.supported + m.mandatory
    && m.mandatory <= need.features
  }

  lemma EligibleMeans(m: Machine, need: Need)
    ensures IsEligible(m, need) <==> CanBuild(m, need)
  {
  }

  /** The slots of one machine. */
  method ProbeSlots(taken: Probes, i: nat, maxJobs: nat) returns (free: Option<nat>, load: nat)
    ensures free == FirstFree(taken, i, maxJobs) && load == CountTaken(taken, i, maxJobs)
  {
    free, load := None, 0;
    for slot := 0 to maxJobs
      invariant free == FirstFree(taken, i, slot) && load == CountTaken(taken, i, slot)
    {
      if !taken(i, slot) {
        if free.None? { free := Some(slot); }
      } else {
        load := load + 1;
      }
    }
  }

  /** `selectBestMachine`. */
  method SelectBestMachine(machines: seq<Machine>, need: Need, taken: Probes)
    returns (rightType: bool, best: Option<Offer>)
    requires ValidMachines(machines)
    ensures rightType <==> exists i :: 0 <= i < |machines| && IsEligible(machines[i], need)
    ensures best == Selected(machines, need, taken)
  {
    hide IsEligible, Replaces, Picked, CountTaken, FirstFree, PickedSoFar;
    rightType, best := false, None;
    PickStart();
    for i := 0 to |machines|
      invariant rightType <==> exists k :: 0 <= k < i && IsEligible(machines[k], need)
      invariant PickedSoFar(Offers(machines, need, taken, i), best)
    {
      var m := machines[i];
      ghost var before, added := Offers(machines, need, taken, i), OfferOf(machines, need, taken, i);
      if IsEligible(m, need) {
        rightType := true;
        var free, load := ProbeSlots(taken, i, m.maxJobs);
        if free.None? {
          assert before + added == before;
          continue;
        }
        var offer := Offer(i, load, m.speed, free.value);
        assert added == [offer];
        PickNext(before, best, offer);
        assert Offers(machines, need, taken, i + 1) == before + [offer];
        var better := best.None? || Replaces(offer, best.value);
        if better { best := Some(offer); }
      } else {
        assert before + added == before;
      }
    }
    PickEnd(Offers(machines, need, taken, |machines|), best);
  }

  lemma PickStart()
    ensures PickedSoFar([], None)
  {
  }

  lemma PickEnd(os: seq<Offer>, best: Option<Offer>)
    requires PickedSoFar(os, best)
    ensures if os == [] then best == None else ValidOffers(os) && best == Some(os[Picked(os)])
  {
  }

  predicate PickedSoFar(os: seq<Offer>, best: Option<Offer>) {
    ValidOffers(os) && best == if os == [] then None else Some(os[Picked(os)])
  }

  lemma PickNext(os: seq<Offer>, best: Option<Offer>, o: Offer)
    requires PickedSoFar(os, best) && o.speed >= 0.0
    ensures best.Some? ==> best.value.speed >= 0.0
    ensures PickedSoFar(os + [o], if best.None? || Replaces(o, best.value) then Some(o) else best)
  {
    assert (os + [o])[..|os|] == os;
  }

  // --- what the scan is meant to find ---

  /** An idle machine of speed zero: its quotient is not a number. */
  predicate Hopeless(o: Offer) {
    o.speed == 0.0 && o.load == 0
  }

  /** Load over speed; none for a machine of speed zero, which comes after all others. */
  function Ratio(o: Offer): Option<real>
    requires o.speed >= 0.0
  {
    if o.speed == 0.0 then None else Some(o.load as real / o.speed)
  }

  /** By load over speed, then higher speed, then lower load; hopeless offers last. */
  predicate Beats(a: Offer, b: Offer)
    requires a.speed >= 0.0 && b.speed >= 0.0
  {
    var ra, rb := Ratio(a), Ratio(b);
    if Hopeless(a) || Hopeless(b) then !Hopeless(a) && Hopeless(b)
    else if ra != rb then ra.Some? && (rb.None? || ra.value < rb.value)
    else a.speed > b.speed || (a.speed == b.speed && a.load < b.load)
  }

  /** Between offers that are not hopeless, the test in the scan is this order. */
  lemma ReplacesMeans(a: Offer, b: Offer)
    requires a.speed >= 0.0 && b.speed >= 0.0 && !Hopeless(a) && !Hopeless(b)
    ensures Replaces(a, b) <==> Beats(a, b)
  {
  }

  /** The earliest offer that no offer beats. */
  predicate EarliestBest(os: seq<Offer>, k: nat)
    requires ValidOffers(os)
  {
    k < |os| && forall j :: 0 <= j < |os| ==> if j < k then Beats(os[k], os[j]) else !Beats(os[j], os[k])
  }

  lemma BeatsOrder(a: Offer, b: Offer, c: Offer)
    requires a.speed >= 0.0 && b.speed >= 0.0 && c.speed >= 0.0
    ensures Beats(a, b) ==> !Beats(b, a)
    ensures Beats(a, b) && !Beats(c, b) ==> Beats(a, c)
  {
  }

  lemma EarliestBestUnique(os: seq<Offer>, k: nat, l: nat)
    requires ValidOffers(os) && EarliestBest(os, k) && EarliestBest(os, l)
    ensures k == l
  {
    BeatsOrder(os[k], os[l], os[k]);
    BeatsOrder(os[l], os[k], os[l]);
  }

  /** The first offer is hopeless and some later one is not. */
  predicate Stuck(os: seq<Offer>) {
    os != [] && Hopeless(os[0]) && exists k :: 0 < k < |os| && !Hopeless(os[k])
  }

  /** The scan finds the earliest best offer exactly when it does not start with an idle
      machine of speed zero that a usable one follows. */
  lemma PickedExact(os: seq<Offer>)
    requires os != [] && ValidOffers(os)
    ensures EarliestBest(os, Picked(os)) <==> !Stuck(os)
  {
    if Hopeless(os[0]) {
      PickedHopeless(os);
      if Stuck(os) {
        var k :| 0 < k < |os| && !Hopeless(os[k]);
        assert Beats(os[k], os[0]);
      }
    } else {
      PickedBest(os);
    }
  }

  /** Every eligible machine with a free slot makes an offer. */
  lemma {:induction false} OffersComplete(machines: seq<Machine>, need: Need, taken: Probes, n: nat, i: nat)
    requires i < n <= |machines| && ValidMachines(machines)
    requires IsEligible(machines[i], need) && !NoneFree(taken, i, machines[i].maxJobs)
    ensures exists o :: o in Offers(machines, need, taken, n) && o.machine == i
  {
    hide IsEligible, NoneFree;
    if i == n - 1 {
      OneOffer(machines, need, taken, i);
      assert OfferOf(machines, need, taken, i)[0] in Offers(machines, need, taken, n);
    } else {
      OffersComplete(machines, need, taken, n - 1, i);
    }
  }

  /** The offers follow the order of the machines. */
  lemma {:induction false} OffersInOrder(machines: seq<Machine>, need: Need, taken: Probes, n: nat)
    requires n <= |machines| && ValidMachines(machines)
    ensures var os := Offers(machines, need, taken, n);
      forall i, j :: 0 <= i < j < |os| ==> os[i].machine < os[j].machine
  {
    if n > 0 {
      OffersInOrder(machines, need, taken, n - 1);
      OffersAre(machines, need, taken, n - 1);
      var before := Offers(machines, need, taken, n - 1);
      assert forall i :: 0 <= i < |before| ==> before[i] in before;
      hide IsEligible, NoneFree, IsFirstFree;
    }
  }

  /** The selected machine, spelled out: unless the scan begins with an idle machine of speed
      zero, no machine that can build and has a free slot has a smaller load over speed, or the
      same and a higher speed, or both the same and a smaller load; and none before it is as
      good. Its slot is its first free one. */
  lemma SelectedIsBest(machines: seq<Machine>, need: Need, taken: Probes, o: Offer)
    requires ValidMachines(machines) && Selected(machines, need, taken).Some?
    requires !Stuck(Offers(machines, need, taken, |machines|))
    requires IsOffer(machines, need, taken, |machines|, o)
    ensures var best := Selected(machines, need, taken).value;
      && IsOffer(machines, need, taken, |machines|, best)
      && !Beats(o, best) && (o.machine < best.machine ==> Beats(best, o))
  {
    var os := Offers(machines, need, taken, |machines|);
    OffersAre(machines, need, taken, |machines|);
    OffersValid(machines, need, taken, |machines|);
    OffersInOrder(machines, need, taken, |machines|);
    PickedExact(os);
    OffersComplete(machines, need, taken, |machines|, o.machine);
    var o' :| o' in os && o'.machine == o.machine;
    SameOffer(machines, need, taken, o, o');
    var j :| 0 <= j < |os| && os[j] == o;
    hide Beats, IsEligible, IsOffer;
    assert os[Picked(os)] in os;
  }

  /** A machine has one offer. */
  lemma SameOffer(machines: seq<Machine>, need: Need, taken: Probes, a: Offer, b: Offer)
    requires IsOffer(machines, need, taken, |machines|, a) && IsOffer(machines, need, taken, |machines|, b)
    requires a.machine == b.machine
    ensures a == b
  {
    hide IsEligible;
  }

  lemma {:induction false} PickedHopeless(os: seq<Offer>)
    requires os != [] && ValidOffers(os) && Hopeless(os[0])
    ensures Picked(os) == 0
  {
    if |os| > 1 { PickedHopeless(os[..|os| - 1]); }
  }

  lemma {:induction false} PickedBest(os: seq<Offer>)
    requires os != [] && ValidOffers(os) && !Hopeless(os[0])
    ensures EarliestBest(os, Picked(os)) && !Hopeless(os[Picked(os)])
  {
    if |os| > 1 {
      var n := |os| - 1;
      var t, o := os[..n], os[n];
      PickedBest(t);
      var k := Picked(t);
      BestNext(os, k);
    }
  }

  lemma BestNext(os: seq<Offer>, k: nat)
    requires |os| > 1 && ValidOffers(os) && EarliestBest(os[..|os| - 1], k) && !Hopeless(os[k])
    ensures var n := |os| - 1; var k' := if Replaces(os[n], os[k]) then n else k;
      EarliestBest(os, k') && !Hopeless(os[k'])
  {
    var n := |os| - 1;
    assert forall j :: 0 <= j < n ==> os[..n][j] == os[j];
    if !Hopeless(os[n]) { ReplacesMeans(os[n], os[k]); }
    if Replaces(os[n], os[k]) {
      assert !Hopeless(os[n]) && Beats(os[n], os[k]);
      forall j | 0 <= j < |os|
        ensures if j < n then Beats(os[n], os[j]) else !Beats(os[j], os[n])
      {
        BeatsOrder(os[n], os[k], os[j]);
        BeatsOrder(os[n], os[n], os[n]);
        BeatsOrder(os[k], os[j], os[k]);
      }
    }
  }

  function Builder(speed: real): Machine {
    Machine({"x86_64-linux"}, 1, speed, {}, {}, true)
  }

  function NothingTaken(i: nat, slot: nat): bool {
    false
  }

  /** Two idle builders, one of speed zero and one of speed one. Listed first, the
      useless one is selected. */
  lemma UselessMachineTaken()
    ensures var machines, need := [Builder(0.0), Builder(1.0)], Need("x86_64-linux", {});
      && ValidMachines(machines)
      && Selected(machines, need, NothingTaken) == Some(Offer(0, 0, 0.0, 0))
      && IsOffer(machines, need, NothingTaken, 2, Offer(1, 0, 1.0, 0))
      && Beats(Offer(1, 0, 1.0, 0), Offer(0, 0, 0.0, 0))
  {
    var machines, need := [Builder(0.0), Builder(1.0)], Need("x86_64-linux", {});
    var os := Offers(machines, need, NothingTaken, 2);
    assert FirstFree(NothingTaken, 0, 1) == FirstFree(NothingTaken, 1, 1) == Some(0);
    assert CountTaken(NothingTaken, 0, 1) == CountTaken(NothingTaken, 1, 1) == 0;
    assert os == OfferOf(machines, need, NothingTaken, 0) + OfferOf(machines, need, NothingTaken, 1);
    assert os == [Offer(0, 0, 0.0, 0), Offer(1, 0, 1.0, 0)];
    PickedHopeless(os);
  }

  // --- the retry loop ---

  datatype Answer = Accepted(machine: nat, slot: nat) | Temporarily | Permanently

  /** `connectToBuilder`. `taken` and `connects` answer per round; `tried` lists the
      machines it connected to. */
  method ConnectToBuilder(machines: array<Machine>, need: Need, canBuildLocally: bool,
                          taken: nat -> Probes, connects: (nat, nat) -> bool)
    returns (answer: Answer, tried: seq<nat>)
    requires ValidMachines(machines[..])
    modifies machines
    ensures Attempts(old(machines[..]), machines[..], need, connects, answer, tried)
    ensures Justified(machines[..], need, canBuildLocally, taken, answer, tried)
  {
    hide Offers, Picked, NoFreeSlot, Chosen, IsEligible, Trying, Attempts, Justified, Disabled, Distinct, AnyEligible;
    tried := [];
    ghost var start := machines[..];
    TryingStart(start, need);
    while true
      invariant Trying(start, machines[..], need, tried) && |tried| <= machines.Length
      invariant forall n :: 0 <= n < |tried| ==> !connects(n, tried[n])
      invariant ValidMachines(machines[..])
      decreases machines.Length - |tried|
    {
      ghost var now := machines[..];
      var rightType, best := SelectBestMachine(machines[..], need, taken(|tried|));
      ScanResult(now, need, taken(|tried|), best);
      if best.None? {
        answer := if rightType && !canBuildLocally then Temporarily else Permanently;
        GaveUp(start, now, need, connects, answer, tried);
        JustifiedRefusal(now, need, canBuildLocally, taken, answer, tried, rightType);
        return;
      }
      var i, round := best.value.machine, |tried|;
      TryOne(start, now, need, tried, i);
      if connects(round, i) {
        answer := Accepted(i, best.value.slot);
        GotOne(start, now, need, connects, answer, tried, i);
        JustifiedChoice(now, need, canBuildLocally, taken, answer, tried + [i]);
        tried := tried + [i];
        return;
      }
      tried := tried + [i];
      machines[i] := machines[i].(enabled := false);
      assert machines[..] == now[i := now[i].(enabled := false)];
    }
  }

  /** The machines it connected to were eligible and all different; every connection but
      an accepted last one failed and disabled its machine, and no other was touched. */
  ghost predicate Attempts(start: seq<Machine>, now: seq<Machine>, need: Need, connects: (nat, nat) -> bool,
                           answer: Answer, tried: seq<nat>)
  {
    && Distinct(tried) && |tried| <= |start|
    && (forall n :: 0 <= n < |tried| ==> tried[n] < |start| && IsEligible(start[tried[n]], need))
    && (forall n :: 0 <= n < |tried| ==> (connects(n, tried[n]) <==> answer.Accepted? && n == |tried| - 1))
    && now == Disabled(start, if answer.Accepted? then Init(tried) else tried)
  }

  /** Accepted: the machine and slot the last scan picked. Temporarily: an eligible
      machine remains, none has a free slot, and no local build is possible now. */
  ghost predicate Justified(now: seq<Machine>, need: Need, canBuildLocally: bool, taken: nat -> Probes, answer: Answer,
                            tried: seq<nat>)
  {
    match answer
    case Accepted(i, slot) =>
      tried != [] && i == tried[|tried| - 1] && Chosen(now, need, taken(|tried| - 1), i, slot)
    case Temporarily =>
      AnyEligible(now, need) && NoFreeSlot(now, need, taken(|tried|)) && !canBuildLocally
    case Permanently =>
      NoFreeSlot(now, need, taken(|tried|)) && (AnyEligible(now, need) ==> canBuildLocally)
  }

  lemma JustifiedRefusal(now: seq<Machine>, need: Need, canBuildLocally: bool, taken: nat -> Probes, answer: Answer,
                         tried: seq<nat>, rightType: bool)
    requires NoFreeSlot(now, need, taken(|tried|))
    requires rightType <==> exists i :: 0 <= i < |now| && IsEligible(now[i], need)
    requires answer == if rightType && !canBuildLocally then Temporarily else Permanently
    ensures Justified(now, need, canBuildLocally, taken, answer, tried)
  {
  }

  lemma JustifiedChoice(now: seq<Machine>, need: Need, canBuildLocally: bool, taken: nat -> Probes, answer: Answer,
                        tried: seq<nat>)
    requires answer.Accepted? && tried != [] && answer.machine == tried[|tried| - 1]
    requires Chosen(now, need, taken(|tried| - 1), answer.machine, answer.slot)
    ensures Justified(now, need, canBuildLocally, taken, answer, tried)
  {
  }

  lemma GaveUp(start: seq<Machine>, now: seq<Machine>, need: Need, connects: (nat, nat) -> bool, answer: Answer,
               tried: seq<nat>)
    requires Trying(start, now, need, tried) && !answer.Accepted?
    requires forall n :: 0 <= n < |tried| ==> !connects(n, tried[n])
    ensures Attempts(start, now, need, connects, answer, tried)
  {
    TryingBound(start, now, need, tried);
  }

  lemma GotOne(start: seq<Machine>, now: seq<Machine>, need: Need, connects: (nat, nat) -> bool, answer: Answer,
               tried: seq<nat>, i: nat)
    requires Trying(start, now, need, tried) && answer.Accepted? && i < |now| && IsEligible(now[i], need)
    requires forall n :: 0 <= n < |tried| ==> !connects(n, tried[n])
    requires connects(|tried|, i)
    ensures Attempts(start, now, need, connects, answer, tried + [i])
  {
    TryOne(start, now, need, tried, i);
    TryingBound(start, now[i := now[i].(enabled := false)], need, tried + [i]);
    assert Init(tried + [i]) == tried;
  }

  predicate Distinct(s: seq<nat>) {
    forall i, j :: 0 <= i < j < |s| ==> s[i] != s[j]
  }

  function Init(s: seq<nat>): seq<nat> {
    if s == [] then [] else s[..|s| - 1]
  }

  function Disabled(machines: seq<Machine>, tried: seq<nat>): (r: seq<Machine>)
    ensures |r| == |machines|
    ensures forall i :: 0 <= i < |machines| ==>
      r[i] == if i in tried then machines[i].(enabled := false) else machines[i]
  {
    seq(|machines|, i requires 0 <= i < |machines| =>
      if i in tried then machines[i].(enabled := false) else machines[i])
  }

  predicate AnyEligible(machines: seq<Machine>, need: Need) {
    exists i :: 0 <= i < |machines| && IsEligible(machines[i], need)
  }

  predicate NoFreeSlot(machines: seq<Machine>, need: Need, taken: Probes) {
    forall i :: 0 <= i < |machines| && IsEligible(machines[i], need) ==> NoneFree(taken, i, machines[i].maxJobs)
  }

  /** The machine and slot that one scan picks. */
  ghost predicate Chosen(machines: seq<Machine>, need: Need, taken: Probes, i: nat, slot: nat) {
    var os := Offers(machines, need, taken, |machines|);
    os != [] && ValidOffers(os) && os[Picked(os)].machine == i && os[Picked(os)].slot == slot
  }

  ghost predicate Trying(start: seq<Machine>, now: seq<Machine>, need: Need, tried: seq<nat>) {
    && ValidMachines(now) && Distinct(tried) && now == Disabled(start, tried)
    && forall n :: 0 <= n < |tried| ==> tried[n] < |start| && IsEligible(start[tried[n]], need)
  }

  lemma TryOne(start: seq<Machine>, now: seq<Machine>, need: Need, tried: seq<nat>, i: nat)
    requires Trying(start, now, need, tried) && i < |now| && IsEligible(now[i], need)
    ensures i !in tried && Distinct(tried + [i]) && IsEligible(start[i], need) && now == Disabled(start, tried)
    ensures Trying(start, now[i := now[i].(enabled := false)], need, tried + [i])
    ensures |tried + [i]| <= |now| && ValidMachines(now[i := now[i].(enabled := false)])
  {
    assert forall n :: 0 <= n < |tried| ==> tried[n] in tried;
    assert now[i := now[i].(enabled := false)] == Disabled(start, tried + [i]);
    TryingBound(start, now[i := now[i].(enabled := false)], need, tried + [i]);
  }

  lemma TryingBound(start: seq<Machine>, now: seq<Machine>, need: Need, tried: seq<nat>)
    requires Trying(start, now, need, tried)
    ensures |tried| <= |start| == |now| && now == Disabled(start, tried) && Distinct(tried) && ValidMachines(now)
    ensures forall n :: 0 <= n < |tried| ==> tried[n] < |start| && IsEligible(start[tried[n]], need)
  {
    Pigeonhole(tried, |start|);
  }

  lemma TryingStart(start: seq<Machine>, need: Need)
    requires ValidMachines(start)
    ensures Trying(start, start, need, [])
  {
    assert start == Disabled(start, []);
  }

  /** What the outcome of one scan tells the caller. */
  lemma ScanResult(machines: seq<Machine>, need: Need, taken: Probes, best: Option<Offer>)
    requires ValidMachines(machines)
    requires best == Selected(machines, need, taken)
    ensures best.None? <==> NoFreeSlot(machines, need, taken)
    ensures best.Some? ==>
      && best.value.machine < |machines| && IsEligible(machines[best.value.machine], need)
      && Chosen(machines, need, taken, best.value.machine, best.value.slot)
  {
    hide IsEligible;
    OffersAre(machines, need, taken, |machines|);
    OffersValid(machines, need, taken, |machines|);
    var os := Offers(machines, need, taken, |machines|);
    if os != [] { assert os[Picked(os)] in os; }
  }

  lemma {:induction false} Pigeonhole(s: seq<nat>, n: nat)
    requires Distinct(s) && forall i :: 0 <= i < |s| ==> s[i] < n
    ensures |s| <= n
    decreases n
  {
    if s != [] {
      assert s[0] < n;
      if n - 1 in s {
        var i :| 0 <= i < |s| && s[i] == n - 1;
        Pigeonhole(s[..i] + s[i + 1..], n - 1);
      } else {
        Pigeonhole(s, n - 1);
      }
    }
  }
}
