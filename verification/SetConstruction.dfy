/** Construction of an attribute set from its static definitions, its `__overrides`
    and its dynamic attributes. */
module SetConstruction {
  import opened Options
  import opened AttributeSets

  datatype Kind = Plain | Inherited | InheritedFrom

  /** A definition, with the words `makeThunk` and `maybeThunk` give for it. */
  datatype AttrDef = AttrDef(name: Symbol, kind: Kind, made: Value, maybe: Value)

  /** The outcome of evaluating the name of a dynamic attribute. */
  datatype NameResult = NullName | Name(sym: Symbol) | BadName

  datatype BuildError = OverridesNotASet | DynamicNameFailed | DynamicNameTaken(sym: Symbol)

  datatype Outcome<T> = Built(value: T) | Failed(error: BuildError)

  /** A forced attribute set: the word that replaces the thunk, its entries, and the slots
      of the environment afterwards. */
  datatype ForcedSet = ForcedSet(word: Value, attrs: seq<Attr>, slots: seq<Value>)

  /** What evaluation does while a set is built, given the slots of the set's own
      environment: it forces `__overrides` and finds the names of the dynamic attributes,
      and may leave forced words in slots. `forcedTo` tells which word forcing can make of
      which. */
  datatype Oracle = Oracle(
    symOverrides: Symbol,
    forceOverrides: (nat, seq<Value>) -> Option<ForcedSet>,
    dynamicName: (nat, seq<Value>) -> (NameResult, seq<Value>),
    forcedTo: (Value, Value) -> bool)

  predicate SlotsForced(o: Oracle, slots: seq<Value>, slots': seq<Value>) {
    |slots| == |slots'| && forall i :: 0 <= i < |slots| ==> o.forcedTo(slots[i], slots'[i])
  }

  predicate OverridesForced(o: Oracle, displ: nat, slots: seq<Value>, f: ForcedSet)
    requires displ < |slots|
  {
    StrictlySorted(f.attrs) && o.forcedTo(slots[displ], f.word) && SlotsForced(o, slots, f.slots)
  }

  ghost predicate ValidOracle(o: Oracle) {
    && (forall a :: o.forcedTo(a, a))
    && (forall a, b, c :: o.forcedTo(a, b) && o.forcedTo(b, c) ==> o.forcedTo(a, c))
    && (forall displ: nat, slots :: displ < |slots| && o.forceOverrides(displ, slots).Some? ==>
          OverridesForced(o, displ, slots, o.forceOverrides(displ, slots).value))
    && (forall k, slots :: SlotsForced(o, slots, o.dynamicName(k, slots).1))
  }

  predicate SortedDefs(attrs: seq<AttrDef>) {
    forall i, j :: 0 <= i < j < |attrs| ==> attrs[i].name < attrs[j].name
  }

  function FindDef(attrs: seq<AttrDef>, x: Symbol): (i: Option<nat>)
    ensures i.Some? ==> i.value < |attrs| && attrs[i.value].name == x
    ensures i.None? ==> forall k :: 0 <= k < |attrs| ==> attrs[k].name != x
  {
    if attrs == [] then None
    else if attrs[|attrs| - 1].name == x then Some(|attrs| - 1)
    else FindDef(attrs[..|attrs| - 1], x)
  }

  predicate HasOverrides(recursive: bool, attrs: seq<AttrDef>, o: Oracle) {
    recursive && FindDef(attrs, o.symOverrides).Some?
  }

  /** With overrides, only inherited definitions may skip their thunk. */
  function Entry(d: AttrDef, overriding: bool): Attr {
    Attr(d.name, if overriding && d.kind != Inherited then d.made else d.maybe)
  }

  function StaticAttrs(attrs: seq<AttrDef>, overriding: bool): (s: seq<Attr>)
    ensures |s| == |attrs|
    ensures forall i :: 0 <= i < |s| ==> s[i] == Entry(attrs[i], overriding)
  {
    seq(|attrs|, i requires 0 <= i < |attrs| => Entry(attrs[i], overriding))
  }

  function ValuesOf(s: seq<Attr>): (r: seq<Value>)
    ensures |r| == |s|
    ensures forall i :: 0 <= i < |s| ==> r[i] == s[i].value
  {
    seq(|s|, i requires 0 <= i < |s| => s[i].value)
  }

  // --- the set as a map ---

  /** The entries before the dynamic attributes, and the slots of the set's own
      environment; a plain set has none. */
  datatype Base = Base(entries: map<Symbol, Value>, slots: seq<Value>)

  /** The slots, each holding the override of its name if there is one. */
  function Overridden(attrs: seq<AttrDef>, slots: seq<Value>, m: map<Symbol, Value>): (r: seq<Value>)
    requires |slots| == |attrs|
    ensures |r| == |attrs|
    ensures forall i :: 0 <= i < |r| ==> r[i] == if attrs[i].name in m then m[attrs[i].name] else slots[i]
  {
    seq(|attrs|, i requires 0 <= i < |attrs| => if attrs[i].name in m then m[attrs[i].name] else slots[i])
  }

  /** The static attributes, overridden by `__overrides` if there is one. Forcing it
      overwrites its entry but not its slot. */
  ghost function BaseMeaning(recursive: bool, attrs: seq<AttrDef>, o: Oracle): Outcome<Base>
    requires ValidOracle(o)
  {
    var statics := StaticAttrs(attrs, HasOverrides(recursive, attrs, o));
    var slots := ValuesOf(statics);
    if !recursive then Built(Base(MapOf(statics), []))
    else if !HasOverrides(recursive, attrs, o) then Built(Base(MapOf(statics), slots))
    else match o.forceOverrides(FindDef(attrs, o.symOverrides).value, slots)
      case None => Failed(OverridesNotASet)
      case Some(f) =>
        var m := MapOf(f.attrs);
        assert OverridesForced(o, FindDef(attrs, o.symOverrides).value, slots, f);
        Built(Base(MapOf(statics)[o.symOverrides := f.word] + m, Overridden(attrs, f.slots, m)))
  }

  /** The names of the first `n` dynamic attributes, and the slots after evaluating them. */
  function DynamicNames(n: nat, slots: seq<Value>, o: Oracle): (r: (seq<NameResult>, seq<Value>))
    ensures |r.0| == n
  {
    if n == 0 then ([], slots)
    else
      var before := DynamicNames(n - 1, slots, o);
      var one := o.dynamicName(n - 1, before.1);
      (before.0 + [one.0], one.1)
  }

  lemma {:induction false} DynamicNameAt(n: nat, k: nat, slots: seq<Value>, o: Oracle)
    requires k < n
    ensures DynamicNames(n, slots, o).0[k] == o.dynamicName(k, DynamicNames(k, slots, o).1).0
  {
    if k < n - 1 { DynamicNameAt(n - 1, k, slots, o); }
  }

  lemma {:induction false} DynamicNamesForce(n: nat, slots: seq<Value>, o: Oracle)
    requires ValidOracle(o)
    ensures SlotsForced(o, slots, DynamicNames(n, slots, o).1)
  {
    if n > 0 {
      DynamicNamesForce(n - 1, slots, o);
      var before := DynamicNames(n - 1, slots, o).1;
      assert SlotsForced(o, before, o.dynamicName(n - 1, before).1);
    }
  }

  /** Adds the dynamic attributes one by one. */
  function AddDynamics(m: map<Symbol, Value>, names: seq<NameResult>, thunks: seq<Value>): Outcome<map<Symbol, Value>>
    requires |names| == |thunks|
    decreases names
  {
    if names == [] then Built(m)
    else match names[0]
      case NullName => AddDynamics(m, names[1..], thunks[1..])
      case BadName => Failed(DynamicNameFailed)
      case Name(x) =>
        if x in m then Failed(DynamicNameTaken(x))
        else AddDynamics(m[x := thunks[0]], names[1..], thunks[1..])
  }

  ghost function SetMeaning(recursive: bool, attrs: seq<AttrDef>, thunks: seq<Value>,
                            o: Oracle): Outcome<map<Symbol, Value>>
    requires ValidOracle(o)
  {
    match BaseMeaning(recursive, attrs, o)
    case Failed(e) => Failed(e)
    case Built(base) => AddDynamics(base.entries, DynamicNames(|thunks|, base.slots, o).0, thunks)
  }

  // --- the dynamic attributes, all at once ---

  predicate NamesEvaluate(names: seq<NameResult>) {
    forall k :: 0 <= k < |names| ==> names[k] != BadName
  }

  predicate NamesApart(names: seq<NameResult>) {
    forall j, k :: 0 <= j < k < |names| && names[j].Name? ==> names[j] != names[k]
  }

  predicate NamesNew(names: seq<NameResult>, m: map<Symbol, Value>) {
    forall k :: 0 <= k < |names| && names[k].Name? ==> names[k].sym !in m
  }

  function DynamicMap(names: seq<NameResult>, thunks: seq<Value>): map<Symbol, Value>
    requires |names| == |thunks|
  {
    if names == [] then map[]
    else
      var rest := DynamicMap(names[1..], thunks[1..]);
      if names[0].Name? then rest[names[0].sym := thunks[0]] else rest
  }

  lemma {:induction false} DynamicMapKeys(names: seq<NameResult>, thunks: seq<Value>, x: Symbol)
    requires |names| == |thunks|
    ensures x in DynamicMap(names, thunks) <==> Name(x) in names
  {
    if names != [] {
      DynamicMapKeys(names[1..], thunks[1..], x);
      assert names == [names[0]] + names[1..];
    }
  }

  /** Dynamic attributes are accepted exactly when every name is null or a string and
      the names are new and pairwise different; then all of them are added. */
  lemma {:induction false} DynamicsExact(m: map<Symbol, Value>, names: seq<NameResult>, thunks: seq<Value>)
    requires |names| == |thunks|
    ensures AddDynamics(m, names, thunks).Built? <==> NamesEvaluate(names) && NamesApart(names) && NamesNew(names, m)
    ensures AddDynamics(m, names, thunks).Built? ==>
      AddDynamics(m, names, thunks).value == m + DynamicMap(names, thunks)
    decreases names
  {
    if names != [] {
      var n, rest, restThunks := names[0], names[1..], thunks[1..];
      assert names == [n] + rest;
      match n
      case NullName =>
        DynamicsExact(m, rest, restThunks);
        NamesSplit(n, rest, m);
      case BadName =>
      case Name(x) =>
        DynamicMapKeys(rest, restThunks, x);
        NamesSplit(n, rest, m);
        if x !in m {
          DynamicsExact(m[x := thunks[0]], rest, restThunks);
          NamesNewUpdate(rest, m, x, thunks[0]);
        }
    }
  }

  /** Where adding stops: at the first name that does not evaluate, or is in the set or an
      earlier dynamic name; and it reports that one. */
  lemma {:induction false} DynamicsFailure(m: map<Symbol, Value>, names: seq<NameResult>, thunks: seq<Value>, k: nat)
    requires |names| == |thunks| && k < |names|
    requires NamesEvaluate(names[..k]) && NamesApart(names[..k]) && NamesNew(names[..k], m)
    ensures names[k] == BadName ==> AddDynamics(m, names, thunks) == Failed(DynamicNameFailed)
    ensures names[k].Name? && (names[k].sym in m || names[k] in names[..k]) ==>
      AddDynamics(m, names, thunks) == Failed(DynamicNameTaken(names[k].sym))
    decreases names
  {
    if k > 0 {
      var n, rest := names[0], names[1..];
      assert names[..k] == [n] + rest[..k - 1];
      NamesSplit(n, rest[..k - 1], m);
      if n.Name? { NamesNewUpdate(rest[..k - 1], m, n.sym, thunks[0]); }
      DynamicsFailure(if n.Name? then m[n.sym := thunks[0]] else m, rest, thunks[1..], k - 1);
    }
  }

  lemma NamesSplit(n: NameResult, rest: seq<NameResult>, m: map<Symbol, Value>)
    ensures NamesEvaluate([n] + rest) <==> n != BadName && NamesEvaluate(rest)
    ensures NamesApart([n] + rest) <==> (n.Name? ==> n !in rest) && NamesApart(rest)
    ensures NamesNew([n] + rest, m) <==> (n.Name? ==> n.sym !in m) && NamesNew(rest, m)
  {
    var all := [n] + rest;
    assert forall k :: 0 <= k < |rest| ==> all[k + 1] == rest[k];
    assert all[0] == n;
    assert forall k :: 1 <= k < |all| ==> all[k] == rest[k - 1];
  }

  lemma NamesNewUpdate(rest: seq<NameResult>, m: map<Symbol, Value>, x: Symbol, v: Value)
    ensures NamesNew(rest, m[x := v]) <==> NamesNew(rest, m) && Name(x) !in rest
  {
    assert Name(x) in rest ==> exists k :: 0 <= k < |rest| && rest[k] == Name(x);
  }

  /** Each dynamic attribute has the thunk that stands with its name. */
  lemma {:induction false} DynamicMapAt(names: seq<NameResult>, thunks: seq<Value>, k: nat)
    requires |names| == |thunks| && NamesApart(names) && k < |names| && names[k].Name?
    ensures names[k].sym in DynamicMap(names, thunks) && DynamicMap(names, thunks)[names[k].sym] == thunks[k]
  {
    if k > 0 {
      DynamicMapAt(names[1..], thunks[1..], k - 1);
      assert names[0] != names[k];
    } else if names[0].Name? {
      assert names[0].sym in DynamicMap(names, thunks);
    }
  }

  // --- the static part, spelled out ---

  /** The word a definition starts with: in a recursive set that has `__overrides`, everything
      but an inherited definition is suspended; otherwise whatever `maybeThunk` gives. */
  predicate StartsWith(recursive: bool, attrs: seq<AttrDef>, o: Oracle, i: nat, v: Value)
    requires i < |attrs|
  {
    if recursive && attrs[i].kind != Inherited && exists j :: 0 <= j < |attrs| && attrs[j].name == o.symOverrides
    then v == attrs[i].made
    else v == attrs[i].maybe
  }

  /** Without `__overrides`, a set has its definitions and nothing else. */
  lemma PlainEntries(recursive: bool, attrs: seq<AttrDef>, o: Oracle, words: seq<Value>)
    requires SortedDefs(attrs) && ValidOracle(o) && |words| == |attrs|
    requires forall i :: 0 <= i < |attrs| ==> StartsWith(recursive, attrs, o, i, words[i])
    requires !(recursive && exists j :: 0 <= j < |attrs| && attrs[j].name == o.symOverrides)
    ensures BaseMeaning(recursive, attrs, o).Built?
    ensures var base := BaseMeaning(recursive, attrs, o).value;
      && base.slots == (if recursive then words else [])
      && (forall x :: x in base.entries <==> exists i :: 0 <= i < |attrs| && attrs[i].name == x)
      && forall i :: 0 <= i < |attrs| ==> attrs[i].name in base.entries && base.entries[attrs[i].name] == words[i]
  {
    assert !HasOverrides(recursive, attrs, o);
    StaticsAre(recursive, attrs, o, words);
  }

  lemma StaticsAre(recursive: bool, attrs: seq<AttrDef>, o: Oracle, words: seq<Value>)
    requires SortedDefs(attrs) && |words| == |attrs|
    requires forall i :: 0 <= i < |attrs| ==> StartsWith(recursive, attrs, o, i, words[i])
    ensures var statics := StaticAttrs(attrs, HasOverrides(recursive, attrs, o));
      && ValuesOf(statics) == words
      && (forall x :: x in MapOf(statics) <==> exists i :: 0 <= i < |attrs| && attrs[i].name == x)
      && forall i :: 0 <= i < |attrs| ==> attrs[i].name in MapOf(statics) && MapOf(statics)[attrs[i].name] == words[i]
  {
    var overriding := HasOverrides(recursive, attrs, o);
    assert overriding <==> recursive && exists j :: 0 <= j < |attrs| && attrs[j].name == o.symOverrides;
    var statics := StaticAttrs(attrs, overriding);
    StaticsDistinct(attrs, overriding);
    MapOfKeys(statics);
    forall i | 0 <= i < |attrs|
      ensures statics[i] == Attr(attrs[i].name, words[i])
      ensures attrs[i].name in MapOf(statics) && MapOf(statics)[attrs[i].name] == words[i]
    {
      assert statics[i] == Entry(attrs[i], overriding);
      MapOfAt(statics, i);
    }
  }

  /** With `__overrides`, its attributes win over definitions of the same name, the others are
      added, and every other definition stays; the slots follow. */
  lemma OverriddenEntries(attrs: seq<AttrDef>, o: Oracle, words: seq<Value>, displ: nat)
    requires SortedDefs(attrs) && ValidOracle(o) && |words| == |attrs|
    requires forall i :: 0 <= i < |attrs| ==> StartsWith(true, attrs, o, i, words[i])
    requires displ < |attrs| && attrs[displ].name == o.symOverrides
    ensures o.forceOverrides(displ, words).None? ==> BaseMeaning(true, attrs, o) == Failed(OverridesNotASet)
    ensures o.forceOverrides(displ, words).Some? ==>
      && BaseMeaning(true, attrs, o).Built?
      && OverridesWin(attrs, words, displ, o.forceOverrides(displ, words).value, BaseMeaning(true, attrs, o).value)
  {
    assert FindDef(attrs, o.symOverrides).value == displ;
    StaticsAre(true, attrs, o, words);
    var f := o.forceOverrides(displ, words);
    if f.Some? {
      assert OverridesForced(o, displ, words, f.value);
      OverridesMap(f.value.attrs);
      hide MapOf, StrictlySorted, OverridesWin, StartsWith, ValidOracle;
      var m, statics := MapOf(f.value.attrs), MapOf(StaticAttrs(attrs, true));
      OverridesWinInMaps(attrs, words, displ, f.value, statics, m);
      assert BaseMeaning(true, attrs, o).value
          == Base(statics[o.symOverrides := f.value.word] + m, Overridden(attrs, f.value.slots, m));
    }
  }

  lemma OverridesWinInMaps(attrs: seq<AttrDef>, words: seq<Value>, displ: nat, f: ForcedSet,
                           statics: map<Symbol, Value>, m: map<Symbol, Value>)
    requires SortedDefs(attrs) && |words| == |attrs| == |f.slots| && displ < |attrs|
    requires forall x :: x in statics <==> exists i :: 0 <= i < |attrs| && attrs[i].name == x
    requires forall i :: 0 <= i < |attrs| ==> attrs[i].name in statics && statics[attrs[i].name] == words[i]
    requires forall x :: x in m <==> IsOverride(f, x)
    requires forall k :: 0 <= k < |f.attrs| ==> f.attrs[k].name in m && m[f.attrs[k].name] == f.attrs[k].value
    ensures OverridesWin(attrs, words, displ, f,
                         Base(statics[attrs[displ].name := f.word] + m, Overridden(attrs, f.slots, m)))
  {
    assert forall i :: 0 <= i < |attrs| && attrs[i].name == attrs[displ].name ==> i == displ;
    hide IsOverride;
  }

  lemma OverridesMap(s: seq<Attr>)
    requires StrictlySorted(s)
    ensures forall x :: x in MapOf(s) <==> exists k :: 0 <= k < |s| && s[k].name == x
    ensures forall k :: 0 <= k < |s| ==> s[k].name in MapOf(s) && MapOf(s)[s[k].name] == s[k].value
  {
    MapOfKeys(s);
    forall k | 0 <= k < |s| { MapOfAt(s, k); }
  }

  predicate IsOverride(f: ForcedSet, x: Symbol) {
    exists k :: 0 <= k < |f.attrs| && f.attrs[k].name == x
  }

  ghost predicate OverridesWin(attrs: seq<AttrDef>, words: seq<Value>, displ: nat, f: ForcedSet, base: Base)
    requires |words| == |attrs|
  {
    && |base.slots| == |attrs| == |f.slots|
    && (forall x :: x in base.entries <==> IsOverride(f, x) || exists i :: 0 <= i < |attrs| && attrs[i].name == x)
    && (forall k :: 0 <= k < |f.attrs| ==>
          f.attrs[k].name in base.entries && base.entries[f.attrs[k].name] == f.attrs[k].value)
    && (forall i :: 0 <= i < |attrs| && !IsOverride(f, attrs[i].name) ==>
          && attrs[i].name in base.entries
          && base.entries[attrs[i].name] == (if i == displ then f.word else words[i])
          && base.slots[i] == f.slots[i])
    && (forall i, k :: 0 <= i < |attrs| && 0 <= k < |f.attrs| && attrs[i].name == f.attrs[k].name ==>
          base.slots[i] == f.attrs[k].value)
  }

  // --- slots and entries ---

  /** Two words that come from the same one by forcing. */
  ghost predicate Alike(o: Oracle, a: Value, b: Value) {
    exists w :: o.forcedTo(w, a) && o.forcedTo(w, b)
  }

  /** Every slot of the set's own environment holds the set's value of its name, up to
      forcing. */
  ghost predicate SlotsAgree(attrs: seq<AttrDef>, o: Oracle, slots: seq<Value>, m: map<Symbol, Value>) {
    && |slots| == |attrs|
    && forall i :: 0 <= i < |attrs| ==> attrs[i].name in m && Alike(o, m[attrs[i].name], slots[i])
  }

  lemma BaseSlotsAgree(attrs: seq<AttrDef>, o: Oracle)
    requires SortedDefs(attrs) && ValidOracle(o) && BaseMeaning(true, attrs, o).Built?
    ensures SlotsAgree(attrs, o, BaseMeaning(true, attrs, o).value.slots, BaseMeaning(true, attrs, o).value.entries)
  {
    var statics := StaticAttrs(attrs, HasOverrides(true, attrs, o));
    var slots, base := ValuesOf(statics), BaseMeaning(true, attrs, o).value;
    StaticsDistinct(attrs, HasOverrides(true, attrs, o));
    forall i | 0 <= i < |attrs|
      ensures attrs[i].name in base.entries && Alike(o, base.entries[attrs[i].name], base.slots[i])
    {
      assert statics[i].name == attrs[i].name;
      MapOfAt(statics, i);
      hide MapOf;
      if HasOverrides(true, attrs, o) {
        var displ := FindDef(attrs, o.symOverrides).value;
        var f := o.forceOverrides(displ, slots).value;
        assert OverridesForced(o, displ, slots, f) && o.forcedTo(slots[i], f.slots[i]);
        assert attrs[i].name == o.symOverrides ==> i == displ;
        var word := base.entries[attrs[i].name];
        if attrs[i].name in MapOf(f.attrs) {
          assert o.forcedTo(word, word);
        } else {
          assert o.forcedTo(slots[i], word) && base.slots[i] == f.slots[i];
        }
      } else {
        assert o.forcedTo(slots[i], slots[i]);
      }
    }
  }

  /** Dynamic attributes and the forcing of slots never disturb the agreement. */
  lemma SlotsKept(attrs: seq<AttrDef>, o: Oracle, slots: seq<Value>, slots': seq<Value>, base: map<Symbol, Value>,
                  names: seq<NameResult>, thunks: seq<Value>)
    requires ValidOracle(o) && |names| == |thunks| && AddDynamics(base, names, thunks).Built?
    requires SlotsAgree(attrs, o, slots, base) && SlotsForced(o, slots, slots')
    ensures SlotsAgree(attrs, o, slots', AddDynamics(base, names, thunks).value)
  {
    DynamicsExact(base, names, thunks);
    forall i | 0 <= i < |attrs|
      ensures attrs[i].name !in DynamicMap(names, thunks) && Alike(o, base[attrs[i].name], slots'[i])
    {
      DynamicMapKeys(names, thunks, attrs[i].name);
      var w :| o.forcedTo(w, base[attrs[i].name]) && o.forcedTo(w, slots[i]);
      assert o.forcedTo(w, slots'[i]);
    }
    hide Alike;
  }

  // --- the set as the code builds it ---

  /** `ExprSet::eval`. */
  method BuildSet(recursive: bool, attrs: seq<AttrDef>, thunks: seq<Value>, o: Oracle)
    returns (r: Outcome<Bindings>, env: array<Value>)
    requires SortedDefs(attrs) && ValidOracle(o)
    ensures match SetMeaning(recursive, attrs, thunks, o)
      case Failed(e) => r == Failed(e)
      case Built(m) =>
        && r.Built? && r.value.Valid()
        && StrictlySorted(r.value.Contents()) && MapOf(r.value.Contents()) == m
        && (recursive ==> SlotsAgree(attrs, o, env[..], m))
  {
    hide MapOf, SlotsAgree, StrictlySorted, AddDynamics, SlotsForced, DynamicNames, ValidOracle;
    var capacity := |attrs| + |thunks|;
    var v;
    v, env := BuildStatics(recursive, attrs, HasOverrides(recursive, attrs, o), capacity);
    if HasOverrides(recursive, attrs, o) {
      var displ := FindDef(attrs, o.symOverrides).value;
      var f := o.forceOverrides(displ, env[..]);
      if f.None? { return Failed(OverridesNotASet), env; }
      OverridesAre(o, displ, env[..]);
      WriteSlots(env, f.value.slots);
      v := OverrideSet(attrs, v, env, o.symOverrides, f.value, capacity);
    }
    ghost var base := BaseMeaning(recursive, attrs, o).value;
    assert base.entries == MapOf(v.Contents()) && base.slots == env[..];
    ghost var names := DynamicNames(|thunks|, base.slots, o).0;
    var err := AddDynamicAttrs(v, env, thunks, o);
    if err.Some? { return Failed(err.value), env; }
    if recursive {
      BaseSlotsAgree(attrs, o);
      SlotsKept(attrs, o, base.slots, env[..], base.entries, names, thunks);
    }
    return Built(v), env;
  }

  lemma OverridesAre(o: Oracle, displ: nat, slots: seq<Value>)
    requires ValidOracle(o) && displ < |slots| && o.forceOverrides(displ, slots).Some?
    ensures var f := o.forceOverrides(displ, slots).value; StrictlySorted(f.attrs) && |f.slots| == |slots|
  {
    assert OverridesForced(o, displ, slots, o.forceOverrides(displ, slots).value);
  }

  /** What evaluation leaves in the slots of an environment. */
  method WriteSlots(env: array<Value>, slots: seq<Value>)
    requires |slots| == env.Length
    modifies env
    ensures env[..] == slots
  {
    for i := 0 to env.Length
      invariant env[..i] == slots[..i]
    {
      env[i] := slots[i];
    }
  }

  lemma StaticsDistinct(attrs: seq<AttrDef>, overriding: bool)
    requires SortedDefs(attrs)
    ensures StrictlySorted(StaticAttrs(attrs, overriding))
  {
  }

  method BuildStatics(recursive: bool, attrs: seq<AttrDef>, overriding: bool, capacity: nat)
    returns (v: Bindings, env: array<Value>)
    requires SortedDefs(attrs) && |attrs| <= capacity
    ensures fresh(v) && fresh(v.attrs) && fresh(env) && v.Valid() && v.attrs.Length == capacity
    ensures v.Contents() == StaticAttrs(attrs, overriding) && StrictlySorted(v.Contents())
    ensures env[..] == if recursive then ValuesOf(v.Contents()) else []
  {
    v := new Bindings(capacity);
    env := new Value[if recursive then |attrs| else 0];
    ghost var statics := StaticAttrs(attrs, overriding);
    StaticsDistinct(attrs, overriding);
    for displ := 0 to |attrs|
      invariant fresh(v) && fresh(v.attrs) && v.Valid() && v.attrs.Length == capacity
      invariant v.Contents() == statics[..displ]
      invariant recursive ==> forall k :: 0 <= k < displ ==> env[k] == statics[k].value
    {
      var entry := Entry(attrs[displ], overriding);
      if recursive { env[displ] := entry.value; }
      v.PushBack(entry);
      assert statics[..displ + 1] == statics[..displ] + [statics[displ]];
    }
    assert v.Contents() == statics;
  }

  /** Where the override loop puts entries: static ones keep their place, further ones
      are appended. */
  ghost predicate Placed(attrs: seq<AttrDef>, ov: seq<Attr>, s: seq<Attr>) {
    && |attrs| <= |s| <= |attrs| + |ov|
    && (forall i :: 0 <= i < |attrs| ==> s[i].name == attrs[i].name)
    && (forall i :: |attrs| <= i < |s| ==> s[i] in ov)
    && DistinctNames(s)
  }

  /** The state of the override loop: every override so far is in the array and in its
      slot. */
  ghost predicate Overriding(attrs: seq<AttrDef>, start: map<Symbol, Value>, env: seq<Value>, ov: seq<Attr>,
                             s: seq<Attr>, slots: seq<Value>)
    requires |env| == |attrs|
  {
    && Placed(attrs, ov, s)
    && MapOf(s) == start + MapOf(ov)
    && slots == Overridden(attrs, env, MapOf(ov))
  }

  lemma {:induction false} MapOfReplace(s: seq<Attr>, i: nat, a: Attr)
    requires DistinctNames(s) && i < |s| && a.name == s[i].name
    ensures DistinctNames(s[i := a])
    ensures MapOf(s[i := a]) == MapOf(s)[a.name := a.value]
  {
    var last := |s| - 1;
    if i == last {
      assert s[i := a][..last] == s[..last];
    } else {
      assert s[i := a][..last] == s[..last][i := a];
      MapOfReplace(s[..last], i, a);
      assert s[last].name != a.name;
    }
  }

  /** One more override changes the slot `j` of its name, if it has one. */
  lemma OverriddenNext(attrs: seq<AttrDef>, env: seq<Value>, m: map<Symbol, Value>, a: Attr, j: nat)
    requires |env| == |attrs|
    requires forall i :: 0 <= i < |attrs| ==> (attrs[i].name == a.name <==> i == j)
    ensures var slots := Overridden(attrs, env, m);
      Overridden(attrs, env, m[a.name := a.value]) == if j < |attrs| then slots[j := a.value] else slots
  {
  }

  lemma PlaceOne(attrs: seq<AttrDef>, ov: seq<Attr>, a: Attr, s: seq<Attr>, j: nat)
    requires Placed(attrs, ov, s) && j < |attrs| && attrs[j].name == a.name
    ensures Placed(attrs, ov + [a], s[j := a])
    ensures forall i :: 0 <= i < |attrs| && i != j ==> attrs[i].name != a.name
  {
    MapOfReplace(s, j, a);
    assert forall i :: 0 <= i < |attrs| && i != j ==> s[i].name != s[j].name;
    hide DistinctNames;
  }

  lemma PlaceNew(attrs: seq<AttrDef>, ov: seq<Attr>, a: Attr, s: seq<Attr>)
    requires Placed(attrs, ov, s)
    requires forall i :: 0 <= i < |attrs| ==> attrs[i].name != a.name
    requires forall n :: 0 <= n < |ov| ==> ov[n].name != a.name
    ensures Placed(attrs, ov + [a], s + [a])
  {
    forall i | 0 <= i < |s|
      ensures s[i].name != a.name
    {
      if i >= |attrs| {
        var n :| 0 <= n < |ov| && ov[n] == s[i];
      }
    }
  }

  lemma OverrideOne(attrs: seq<AttrDef>, start: map<Symbol, Value>, env: seq<Value>, ov: seq<Attr>, a: Attr,
                    s: seq<Attr>, slots: seq<Value>, j: nat)
    requires |env| == |attrs| && Overriding(attrs, start, env, ov, s, slots)
    requires j < |attrs| && attrs[j].name == a.name
    ensures Overriding(attrs, start, env, ov + [a], s[j := a], slots[j := a.value])
  {
    PlaceOne(attrs, ov, a, s, j);
    MapOfReplace(s, j, a);
    MapOfPush(ov, a);
    OverriddenNext(attrs, env, MapOf(ov), a, j);
    hide MapOf, DistinctNames, Overridden, Placed;
  }

  lemma OverrideNew(attrs: seq<AttrDef>, start: map<Symbol, Value>, env: seq<Value>, ov: seq<Attr>, a: Attr,
                    s: seq<Attr>, slots: seq<Value>)
    requires |env| == |attrs| && Overriding(attrs, start, env, ov, s, slots)
    requires forall i :: 0 <= i < |attrs| ==> attrs[i].name != a.name
    requires forall n :: 0 <= n < |ov| ==> ov[n].name != a.name
    ensures Overriding(attrs, start, env, ov + [a], s + [a], slots)
  {
    PlaceNew(attrs, ov, a, s);
    MapOfPush(s, a);
    MapOfPush(ov, a);
    OverriddenNext(attrs, env, MapOf(ov), a, |attrs|);
    hide MapOf, DistinctNames, Overridden, Placed;
  }

  /** Forces `__overrides` through its entry, then applies what it holds. */
  method OverrideSet(attrs: seq<AttrDef>, v: Bindings, env: array<Value>, sym: Symbol, f: ForcedSet, capacity: nat)
    returns (w: Bindings)
    requires v.Valid() && StrictlySorted(v.Contents()) && StrictlySorted(f.attrs)
    requires |v.Contents()| == |attrs| == env.Length && |attrs| <= capacity
    requires forall i :: 0 <= i < |attrs| ==> v.Contents()[i].name == attrs[i].name
    requires FindDef(attrs, sym).Some?
    modifies env, v.attrs
    ensures fresh(w) && fresh(w.attrs) && w.Valid() && StrictlySorted(w.Contents())
    ensures w.size + (capacity - |attrs|) <= w.attrs.Length
    ensures MapOf(w.Contents()) == old(MapOf(v.Contents()))[sym := f.word] + MapOf(f.attrs)
    ensures env[..] == Overridden(attrs, old(env[..]), MapOf(f.attrs))
  {
    var displ := FindDef(attrs, sym).value;
    MapOfReplace(v.Contents(), displ, Attr(sym, f.word));
    v.Replace(displ, Attr(sym, f.word));
    w := ApplyOverrides(attrs, v, env, f.attrs, capacity);
  }

  method ApplyOverrides(attrs: seq<AttrDef>, v: Bindings, env: array<Value>, ov: seq<Attr>, capacity: nat)
    returns (w: Bindings)
    requires v.Valid() && DistinctNames(v.Contents()) && StrictlySorted(ov)
    requires |v.Contents()| == |attrs| == env.Length && |attrs| <= capacity
    requires forall i :: 0 <= i < |attrs| ==> v.Contents()[i].name == attrs[i].name
    modifies env
    ensures fresh(w) && fresh(w.attrs) && w.Valid() && StrictlySorted(w.Contents())
    ensures w.size + (capacity - |attrs|) <= w.attrs.Length
    ensures MapOf(w.Contents()) == old(MapOf(v.Contents())) + MapOf(ov)
    ensures env[..] == Overridden(attrs, old(env[..]), MapOf(ov))
  {
    w := CopyBindings(v, capacity + |ov|);
    ghost var start, slots := MapOf(v.Contents()), env[..];
    OverridingStart(attrs, slots, w.Contents());
    hide Overriding, MapOf;
    for k := 0 to |ov|
      invariant fresh(w) && fresh(w.attrs) && w.Valid() && w.attrs.Length == capacity + |ov|
      invariant Overriding(attrs, start, slots, ov[..k], w.Contents(), env[..])
    {
      assert ov[..k + 1] == ov[..k] + [ov[k]];
      OverrideAttr(attrs, w, env, ov[k], start, slots, ov[..k]);
    }
    assert ov[..|ov|] == ov;
    OverridingRoom(attrs, start, slots, ov, w.Contents(), env[..]);
    w.Sort();
  }

  /** One override: replaces a static attribute and its slot, or adds an attribute. */
  method OverrideAttr(attrs: seq<AttrDef>, w: Bindings, env: array<Value>, a: Attr,
                      ghost start: map<Symbol, Value>, ghost slots: seq<Value>, ghost ov: seq<Attr>)
    requires |slots| == |attrs| && w.Valid() && Overriding(attrs, start, slots, ov, w.Contents(), env[..])
    requires |attrs| + |ov| < w.attrs.Length
    requires forall n :: 0 <= n < |ov| ==> ov[n].name != a.name
    modifies w`size, w.attrs, env
    ensures w.Valid() && w.attrs == old(w.attrs)
    ensures Overriding(attrs, start, slots, ov + [a], w.Contents(), env[..])
  {
    OverridingRoom(attrs, start, slots, ov, w.Contents(), env[..]);
    hide Overriding, MapOf, DistinctNames, Overridden;
    var j := FindDef(attrs, a.name);
    if j.Some? {
      OverrideOne(attrs, start, slots, ov, a, w.Contents(), env[..], j.value);
      w.Replace(j.value, a);
      env[j.value] := a.value;
    } else {
      OverrideNew(attrs, start, slots, ov, a, w.Contents(), env[..]);
      w.PushBack(a);
    }
  }

  lemma OverridingStart(attrs: seq<AttrDef>, env: seq<Value>, s: seq<Attr>)
    requires DistinctNames(s) && |s| == |attrs| == |env|
    requires forall i :: 0 <= i < |attrs| ==> s[i].name == attrs[i].name
    ensures Overriding(attrs, MapOf(s), env, [], s, env)
  {
    assert env == Overridden(attrs, env, MapOf([]));
  }

  lemma OverridingRoom(attrs: seq<AttrDef>, start: map<Symbol, Value>, env: seq<Value>, ov: seq<Attr>,
                       s: seq<Attr>, slots: seq<Value>)
    requires |env| == |attrs| && Overriding(attrs, start, env, ov, s, slots)
    ensures |attrs| <= |s| <= |attrs| + |ov| && DistinctNames(s)
    ensures MapOf(s) == start + MapOf(ov)
    ensures slots == Overridden(attrs, env, MapOf(ov))
  {
  }

  method CopyBindings(v: Bindings, capacity: nat) returns (w: Bindings)
    requires v.Valid() && v.size <= capacity
    ensures fresh(w) && fresh(w.attrs) && w.Valid() && w.attrs.Length == capacity
    ensures w.Contents() == v.Contents()
  {
    w := new Bindings(capacity);
    for i := 0 to v.size
      invariant fresh(w) && fresh(w.attrs) && w.Valid() && w.attrs.Length == capacity
      invariant w.Contents() == v.Contents()[..i]
    {
      w.PushBack(v.attrs[i]);
    }
  }

  method AddDynamicAttrs(v: Bindings, env: array<Value>, thunks: seq<Value>, o: Oracle)
    returns (err: Option<BuildError>)
    requires ValidOracle(o) && v.Valid() && StrictlySorted(v.Contents())
    requires v.size + |thunks| <= v.attrs.Length
    modifies v`size, v.attrs, env
    ensures v.Valid() && v.attrs == old(v.attrs)
    ensures match AddDynamics(old(MapOf(v.Contents())), DynamicNames(|thunks|, old(env[..]), o).0, thunks)
      case Failed(e) => err == Some(e)
      case Built(m) => err == None && StrictlySorted(v.Contents()) && MapOf(v.Contents()) == m
    ensures err.None? ==> env[..] == DynamicNames(|thunks|, old(env[..]), o).1
    ensures err.None? ==> SlotsForced(o, old(env[..]), env[..])
  {
    hide ValidOracle, SlotsForced, StrictlySorted;
    ghost var slots := env[..];
    ghost var names := DynamicNames(|thunks|, slots, o).0;
    ghost var all := AddDynamics(MapOf(v.Contents()), names, thunks);
    for k := 0 to |thunks|
      invariant v.Valid() && v.attrs == old(v.attrs) && StrictlySorted(v.Contents())
      invariant v.size + (|thunks| - k) <= v.attrs.Length
      invariant env[..] == DynamicNames(k, slots, o).1
      invariant all == AddDynamics(MapOf(v.Contents()), names[k..], thunks[k..])
    {
      assert names[k..][1..] == names[k + 1..] && thunks[k..][1..] == thunks[k + 1..];
      var (name, slots') := o.dynamicName(k, env[..]);
      DynamicNameAt(|thunks|, k, slots, o);
      assert names[k..][0] == name;
      NameKeepsLength(o, k, env[..]);
      WriteSlots(env, slots');
      if name.NullName? { continue; }
      if name.BadName? { return Some(DynamicNameFailed); }
      var taken := v.Get(name.sym);
      if taken.Some? { return Some(DynamicNameTaken(name.sym)); }
      AddAttr(v, Attr(name.sym, thunks[k]));
    }
    DynamicNamesForce(|thunks|, slots, o);
    return None;
  }

  lemma NameKeepsLength(o: Oracle, k: nat, slots: seq<Value>)
    requires ValidOracle(o)
    ensures |o.dynamicName(k, slots).1| == |slots|
  {
    assert SlotsForced(o, slots, o.dynamicName(k, slots).1);
  }

  /** Appends an entry of a new name and sorts. */
  method AddAttr(v: Bindings, a: Attr)
    requires v.Valid() && StrictlySorted(v.Contents()) && v.size < v.attrs.Length && a.name !in MapOf(v.Contents())
    modifies v`size, v.attrs
    ensures v.Valid() && v.attrs == old(v.attrs) && v.size == old(v.size) + 1
    ensures StrictlySorted(v.Contents()) && MapOf(v.Contents()) == old(MapOf(v.Contents()))[a.name := a.value]
  {
    ghost var s := v.Contents();
    MapOfKeys(s);
    MapOfPush(s, a);
    v.PushBack(a);
    v.Sort();
  }
}
