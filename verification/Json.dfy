/** JSON in and out of the evaluator: the event machine that builds a value from parser
    events, and the printer that turns a value into a JSON tree. */
module JsonValues {
  import opened Options
  import opened Names

  type Int64 = i: int | -0x8000_0000_0000_0000 <= i < 0x8000_0000_0000_0000

  datatype Value =
    | VNull
    | VBool(b: bool)
    | VInt(i: Int64)
    | VFloat(r: real)
    | VNonFinite(x: NonFinite)
    | VStr(s: string, context: set<string>)
    | VPath(p: string)
    | VList(elems: seq<Value>)
    | VAttrs(attrs: map<string, Value>)
    | VFunction

  datatype NonFinite = PlusInfinity | MinusInfinity | NotANumber

  /** JSON texts as trees; an object keeps its members in order, duplicates included. */
  datatype Json =
    | JNull
    | JBool(b: bool)
    | JInt(i: int)
    | JFloat(r: real)
    | JStr(s: string)
    | JArray(elems: seq<Json>)
    | JObject(members: seq<Member>)

  datatype Member = Member(name: string, value: Json)

  // --- the value a tree stands for ---

  function NumberMeaning(i: int): Value {
    if -0x8000_0000_0000_0000 <= i < 0x8000_0000_0000_0000 then VInt(i) else VFloat(i as real)
  }

  function Meaning(j: Json): Value
    decreases j, 1
  {
    match j
    case JNull => VNull
    case JBool(b) => VBool(b)
    case JInt(i) => NumberMeaning(i)
    case JFloat(r) => VFloat(r)
    case JStr(s) => VStr(s, {})
    case JArray(elems) => VList(MeaningSeq(elems))
    case JObject(members) => VAttrs(MeaningMap(members))
  }

  function MeaningSeq(js: seq<Json>): seq<Value>
    decreases js, 0
  {
    if js == [] then [] else MeaningSeq(js[..|js| - 1]) + [Meaning(js[|js| - 1])]
  }

  /** The last member of a name wins. */
  function MeaningMap(ms: seq<Member>): map<string, Value>
    decreases ms, 0
  {
    if ms == [] then map[]
    else MeaningMap(ms[..|ms| - 1])[ms[|ms| - 1].name := MemberMeaning(ms[|ms| - 1])]
  }

  function MemberMeaning(m: Member): Value
    decreases m, 0
  {
    Meaning(m.value)
  }

  /** What texts stand for: scalars for themselves, integers beyond 64 bits for floats. */
  lemma ScalarsMean(b: bool, i: int, r: real, s: string)
    ensures Meaning(JNull) == VNull && Meaning(JBool(b)) == VBool(b) && Meaning(JFloat(r)) == VFloat(r)
    ensures Meaning(JStr(s)) == VStr(s, {})
    ensures Meaning(JInt(i)) ==
      if -0x8000_0000_0000_0000 <= i < 0x8000_0000_0000_0000 then VInt(i) else VFloat(i as real)
  {
  }

  /** An array stands for the list of what its elements stand for, in order. */
  lemma {:induction false} ArrayMeans(js: seq<Json>)
    ensures |MeaningSeq(js)| == |js|
    ensures forall i :: 0 <= i < |js| ==> MeaningSeq(js)[i] == Meaning(js[i])
  {
    if js != [] { ArrayMeans(js[..|js| - 1]); }
  }

  /** Of several members of one name the last counts. */
  lemma {:induction false} LastMemberCounts(ms: seq<Member>, k: nat)
    requires k < |ms| && forall j :: k < j < |ms| ==> ms[j].name != ms[k].name
    ensures ms[k].name in MeaningMap(ms) && MeaningMap(ms)[ms[k].name] == Meaning(ms[k].value)
  {
    if k < |ms| - 1 { LastMemberCounts(ms[..|ms| - 1], k); }
  }

  // --- parser events ---

  datatype Event =
    | OnNull
    | OnBoolean(b: bool)
    | OnInteger(i: Int64)
    | OnUnsigned(n: nat)
    | OnFloat(r: real)
    | OnString(s: string)
    | StartObject
    | OnKey(name: string)
    | EndObject
    | StartArray
    | EndArray

  /** The event for a number without fraction: the parser reports what fits in 64 bits
      as an integer, without sign if it is not negative. */
  function NumberEvent(i: int): Event {
    if 0 <= i < 0x1_0000_0000_0000_0000 then OnUnsigned(i)
    else if -0x8000_0000_0000_0000 <= i < 0 then OnInteger(i)
    else OnFloat(i as real)
  }

  function Events(j: Json): seq<Event>
    decreases j, 1
  {
    match j
    case JNull => [OnNull]
    case JBool(b) => [OnBoolean(b)]
    case JInt(i) => [NumberEvent(i)]
    case JFloat(r) => [OnFloat(r)]
    case JStr(s) => [OnString(s)]
    case JArray(elems) => [StartArray] + ElemEvents(elems) + [EndArray]
    case JObject(members) => [StartObject] + MembersEvents(members) + [EndObject]
  }

  function ElemEvents(js: seq<Json>): seq<Event>
    decreases js, 0
  {
    if js == [] then [] else ElemEvents(js[..|js| - 1]) + Events(js[|js| - 1])
  }

  function MembersEvents(ms: seq<Member>): seq<Event>
    decreases ms, 0
  {
    if ms == [] then [] else MembersEvents(ms[..|ms| - 1]) + MemberEvents(ms[|ms| - 1])
  }

  function MemberEvents(m: Member): seq<Event>
    decreases m, 0
  {
    [OnKey(m.name)] + Events(m.value)
  }

  // --- the event machine ---

  datatype Frame = Object(entries: map<string, Value>, nextKey: Option<string>) | Array(values: seq<Value>)

  datatype State = State(stack: seq<Frame>, final: Option<Value>)

  /** Adding a value would not fail an assertion or use an unset key. */
  predicate Awaits(s: State) {
    if s.stack == [] then s.final.None?
    else var top := s.stack[|s.stack| - 1]; top.Object? ==> top.nextKey.Some?
  }

  /** The state after a complete value at this point. */
  function Added(s: State, v: Value): State
    requires Awaits(s)
  {
    if s.stack == [] then s.(final := Some(v))
    else
      var rest, top := s.stack[..|s.stack| - 1], s.stack[|s.stack| - 1];
      s.(stack := rest + [match top
        case Object(entries, key) => Object(entries[key.value := v], None)
        case Array(values) => Array(values + [v])])
  }

  /** The effect of one event; `None` where the code fails an assertion or reads past an
      empty stack. */
  function Handle(s: State, e: Event): Option<State> {
    match e
    case OnNull => AddIf(s, VNull)
    case OnBoolean(b) => AddIf(s, VBool(b))
    case OnInteger(i) => AddIf(s, VInt(i))
    case OnUnsigned(n) => AddIf(s, NumberMeaning(n))
    case OnFloat(r) => AddIf(s, VFloat(r))
    case OnString(str) => AddIf(s, VStr(str, {}))
    case StartObject => Some(s.(stack := s.stack + [Object(map[], None)]))
    case StartArray => Some(s.(stack := s.stack + [Array([])]))
    case OnKey(name) =>
      if s.stack == [] then None
      else
        var rest, top := s.stack[..|s.stack| - 1], s.stack[|s.stack| - 1];
        if top.Array? || top.nextKey.Some? then None
        else Some(s.(stack := rest + [top.(nextKey := Some(name))]))
    case EndObject =>
      if s.stack == [] || s.stack[|s.stack| - 1].Array? then None
      else AddIf(s.(stack := s.stack[..|s.stack| - 1]), VAttrs(s.stack[|s.stack| - 1].entries))
    case EndArray =>
      if s.stack == [] || s.stack[|s.stack| - 1].Object? then None
      else AddIf(s.(stack := s.stack[..|s.stack| - 1]), VList(s.stack[|s.stack| - 1].values))
  }

  function AddIf(s: State, v: Value): Option<State> {
    if Awaits(s) then Some(Added(s, v)) else None
  }

  function Run(s: State, es: seq<Event>): Option<State> {
    if es == [] then Some(s)
    else
      var t := Run(s, es[..|es| - 1]);
      if t.Some? then Handle(t.value, es[|es| - 1]) else None
  }

  lemma {:induction false} RunAppend(s: State, a: seq<Event>, b: seq<Event>)
    ensures Run(s, a + b) == var t := Run(s, a); if t.Some? then Run(t.value, b) else None
    decreases |b|
  {
    if b == [] {
      assert a + b == a;
    } else {
      assert (a + b)[..|a + b| - 1] == a + b[..|b| - 1];
      RunAppend(s, a, b[..|b| - 1]);
    }
  }

  lemma RunOne(s: State, e: Event)
    ensures Run(s, [e]) == Handle(s, e)
  {
    assert [e][..0] == [];
    assert Run(s, [e][..0]) == Some(s);
  }

  /** The events of a tree add exactly its meaning, whatever is open around it. */
  lemma {:induction false} EventsAdd(s: State, j: Json)
    requires Awaits(s)
    ensures Run(s, Events(j)) == Some(Added(s, Meaning(j)))
    decreases j, 1
  {
    match j
    case JArray(elems) => ArrayAdds(s, j);
    case JObject(members) => ObjectAdds(s, j);
    case _ => RunOne(s, Events(j)[0]);
  }

  /** The state inside a newly opened object or array. */
  function Open(s: State, top: Frame): State {
    s.(stack := s.stack + [top])
  }

  lemma OpenTop(s: State, top: Frame)
    ensures Open(s, top).stack[..|s.stack|] == s.stack && Open(s, top).stack[|s.stack|] == top
  {
  }

  lemma AddToArray(s: State, values: seq<Value>, v: Value)
    ensures Awaits(Open(s, Array(values)))
    ensures Added(Open(s, Array(values)), v) == Open(s, Array(values + [v]))
  {
    OpenTop(s, Array(values));
  }

  lemma AddToObject(s: State, entries: map<string, Value>, name: string, v: Value)
    ensures Handle(Open(s, Object(entries, None)), OnKey(name)) == Some(Open(s, Object(entries, Some(name))))
    ensures Awaits(Open(s, Object(entries, Some(name))))
    ensures Added(Open(s, Object(entries, Some(name))), v) == Open(s, Object(entries[name := v], None))
  {
    OpenTop(s, Object(entries, None));
    OpenTop(s, Object(entries, Some(name)));
  }

  lemma OpenAndClose(s: State, values: seq<Value>, entries: map<string, Value>)
    requires Awaits(s)
    ensures Handle(s, StartArray) == Some(Open(s, Array([])))
    ensures Handle(s, StartObject) == Some(Open(s, Object(map[], None)))
    ensures Handle(Open(s, Array(values)), EndArray) == Some(Added(s, VList(values)))
    ensures Handle(Open(s, Object(entries, None)), EndObject) == Some(Added(s, VAttrs(entries)))
  {
    OpenTop(s, Array(values));
    OpenTop(s, Object(entries, None));
  }

  /** An opening event, what lies between, and a closing event. */
  lemma RunBracketed(s: State, first: Event, inner: seq<Event>, last: Event, s1: State, s2: State)
    requires Handle(s, first) == Some(s1) && Run(s1, inner) == Some(s2)
    ensures Run(s, [first] + inner + [last]) == Handle(s2, last)
  {
    hide Run, Handle;
    RunOne(s, first);
    RunAppend(s, [first], inner);
    RunAppend(s, [first] + inner, [last]);
    RunOne(s2, last);
  }

  lemma {:induction false} ArrayAdds(s: State, j: Json)
    requires Awaits(s) && j.JArray?
    ensures Run(s, Events(j)) == Some(Added(s, Meaning(j)))
    decreases j, 0
  {
    hide Run, Handle, Added, Awaits, Open;
    OpenAndClose(s, MeaningSeq(j.elems), map[]);
    ElemsAdd(s, j.elems);
    RunBracketed(s, StartArray, ElemEvents(j.elems), EndArray, Open(s, Array([])), Open(s, Array(MeaningSeq(j.elems))));
  }

  lemma {:induction false} ElemsAdd(s: State, js: seq<Json>)
    ensures Run(Open(s, Array([])), ElemEvents(js)) == Some(Open(s, Array(MeaningSeq(js))))
    decreases js, 0
  {
    if js != [] {
      hide Run, Handle, Added, Awaits, Open, Events, Meaning;
      var k := |js| - 1;
      ElemsAdd(s, js[..k]);
      RunAppend(Open(s, Array([])), ElemEvents(js[..k]), Events(js[k]));
      AddToArray(s, MeaningSeq(js[..k]), Meaning(js[k]));
      EventsAdd(Open(s, Array(MeaningSeq(js[..k]))), js[k]);
    }
  }

  lemma {:induction false} ObjectAdds(s: State, j: Json)
    requires Awaits(s) && j.JObject?
    ensures Run(s, Events(j)) == Some(Added(s, Meaning(j)))
    decreases j, 0
  {
    hide Run, Handle, Added, Awaits, Open;
    OpenAndClose(s, [], MeaningMap(j.members));
    MembersAdd(s, j.members);
    RunBracketed(s, StartObject, MembersEvents(j.members), EndObject,
                 Open(s, Object(map[], None)), Open(s, Object(MeaningMap(j.members), None)));
  }

  lemma {:induction false} MembersAdd(s: State, ms: seq<Member>)
    ensures Run(Open(s, Object(map[], None)), MembersEvents(ms)) == Some(Open(s, Object(MeaningMap(ms), None)))
    decreases ms, 0
  {
    if ms != [] {
      var k := |ms| - 1;
      MembersAdd(s, ms[..k]);
      hide Run, Open, MemberEvents, MemberMeaning;
      RunAppend(Open(s, Object(map[], None)), MembersEvents(ms[..k]), MemberEvents(ms[k]));
      MemberAdds(s, MeaningMap(ms[..k]), ms[k]);
    }
  }

  lemma {:induction false} MemberAdds(s: State, entries: map<string, Value>, m: Member)
    ensures Run(Open(s, Object(entries, None)), MemberEvents(m))
         == Some(Open(s, Object(entries[m.name := MemberMeaning(m)], None)))
    decreases m, 0
  {
    hide Run, Handle, Added, Awaits, Open, Events, Meaning;
    AddToObject(s, entries, m.name, Meaning(m.value));
    RunAppend(Open(s, Object(entries, None)), [OnKey(m.name)], Events(m.value));
    RunOne(Open(s, Object(entries, None)), OnKey(m.name));
    EventsAdd(Open(s, Object(entries, Some(m.name))), m.value);
  }

  /** `JSONSax`, with the open objects and arrays and the finished value. */
  class JsonSax {
    var stack: seq<Frame>
    var finalValue: Option<Value>

    function Current(): State
      reads this
    {
      State(stack, finalValue)
    }

    constructor ()
      ensures Current() == State([], None)
    {
      stack, finalValue := [], None;
    }

    method AddValue(v: Value)
      requires Awaits(Current())
      modifies this
      ensures Current() == Added(old(Current()), v)
    {
      if |stack| == 0 {
        finalValue := Some(v);
        return;
      }
      var last := |stack| - 1;
      match stack[last] {
        case Object(entries, nextKey) =>
          stack := stack[..last] + [Object(entries[nextKey.value := v], None)];
        case Array(values) =>
          stack := stack[..last] + [Array(values + [v])];
      }
    }

    method Key(name: string)
      requires Handle(Current(), OnKey(name)).Some?
      modifies this
      ensures Current() == Handle(old(Current()), OnKey(name)).value
    {
      var last := |stack| - 1;
      stack := stack[..last] + [stack[last].(nextKey := Some(name))];
    }

    method Unsigned(n: nat)
      requires Awaits(Current())
      modifies this
      ensures Some(Current()) == Handle(old(Current()), OnUnsigned(n))
    {
      if n > 0x7FFF_FFFF_FFFF_FFFF {
        AddValue(VFloat(n as real));
      } else {
        AddValue(VInt(n));
      }
    }

    method CloseObject()
      requires Handle(Current(), EndObject).Some?
      modifies this
      ensures Some(Current()) == Handle(old(Current()), EndObject)
    {
      var back := stack[|stack| - 1];
      stack := stack[..|stack| - 1];
      AddValue(VAttrs(back.entries));
    }

    method CloseArray()
      requires Handle(Current(), EndArray).Some?
      modifies this
      ensures Some(Current()) == Handle(old(Current()), EndArray)
    {
      var back := stack[|stack| - 1];
      stack := stack[..|stack| - 1];
      AddValue(VList(back.values));
    }

    method On(e: Event)
      requires Handle(Current(), e).Some?
      modifies this
      ensures Some(Current()) == Handle(old(Current()), e)
    {
      match e {
        case OnNull => AddValue(VNull);
        case OnBoolean(b) => AddValue(VBool(b));
        case OnInteger(i) => AddValue(VInt(i));
        case OnUnsigned(n) => Unsigned(n);
        case OnFloat(r) => AddValue(VFloat(r));
        case OnString(s) => AddValue(VStr(s, {}));
        case StartObject => stack := stack + [Object(map[], None)];
        case OnKey(name) => Key(name);
        case EndObject => CloseObject();
        case StartArray => stack := stack + [Array([])];
        case EndArray => CloseArray();
      }
    }
  }

  /** `parseJSON` on the events of any tree: no assertion fails, nothing stays open, and
      the result is the tree's meaning. */
  method ParseJson(j: Json) returns (v: Value)
    ensures v == Meaning(j)
  {
    hide Events, Meaning, Handle, Run;
    var parser := new JsonSax();
    var es := Events(j);
    EventsAdd(State([], None), j);
    RunEmpty(State([], None));
    for n := 0 to |es|
      invariant fresh(parser)
      invariant Run(State([], None), es[..n]) == Some(parser.Current())
    {
      RunPrefix(State([], None), es, n);
      parser.On(es[n]);
    }
    assert es[..|es|] == es;
    v := parser.finalValue.value;
  }

  lemma RunEmpty(s: State)
    ensures Run(s, []) == Some(s)
  {
  }

  lemma RunPrefix(s: State, es: seq<Event>, n: nat)
    requires n < |es| && Run(s, es).Some? && Run(s, es[..n]).Some?
    ensures Handle(Run(s, es[..n]).value, es[n]).Some?
    ensures Run(s, es[..n + 1]) == Handle(Run(s, es[..n]).value, es[n])
  {
    assert es == es[..n + 1] + es[n + 1..];
    RunAppend(s, es[..n + 1], es[n + 1..]);
    assert es[..n + 1][..n] == es[..n];
  }

  // --- printing ---

  /** A string and its context, or an error. */
  type Coerced = Option<(string, set<string>)>

  /** What printing asks of evaluator and store: `__toString` of a set, and the form of a
      path, copied to the store or not. */
  datatype Printer = Printer(toString: map<string, Value> -> Coerced, path: string -> Coerced)

  const SYM_TO_STRING := "__toString"
  const SYM_OUT_PATH := "outPath"

  /** Printing meets no function, no failing `__toString` and no failing copy. */
  predicate Printable(f: Printer, v: Value) {
    match v
    case VList(elems) => forall i :: 0 <= i < |elems| ==> Printable(f, elems[i])
    case VAttrs(m) =>
      if SYM_TO_STRING in m then f.toString(m).Some?
      else if SYM_OUT_PATH in m then Printable(f, m[SYM_OUT_PATH])
      else forall x :: x in m ==> Printable(f, m[x])
    case VPath(p) => f.path(p).Some?
    case VFunction => false
    case _ => true
  }

  /** What a printed value reads back as: no contexts, paths and sets with a string form
      as strings, sets with an `outPath` replaced by it, and null for what JSON numbers
      cannot express. */
  function Plain(f: Printer, v: Value): Value
    requires Printable(f, v)
    decreases v, 1
  {
    match v
    case VNonFinite(_) => VNull
    case VStr(s, _) => VStr(s, {})
    case VPath(p) => VStr(f.path(p).value.0, {})
    case VList(elems) => VList(PlainSeq(f, elems))
    case VAttrs(m) =>
      if SYM_TO_STRING in m then VStr(f.toString(m).value.0, {})
      else if SYM_OUT_PATH in m then Plain(f, m[SYM_OUT_PATH])
      else VAttrs(PlainMap(f, m))
    case _ => v
  }

  function PlainSeq(f: Printer, vs: seq<Value>): (r: seq<Value>)
    requires forall i :: 0 <= i < |vs| ==> Printable(f, vs[i])
    ensures |r| == |vs|
    ensures forall i :: 0 <= i < |vs| ==> r[i] == Plain(f, vs[i])
    decreases vs, 0
  {
    if vs == [] then [] else PlainSeq(f, vs[..|vs| - 1]) + [Plain(f, vs[|vs| - 1])]
  }

  function PlainMap(f: Printer, m: map<string, Value>): (r: map<string, Value>)
    requires forall x :: x in m ==> Printable(f, m[x])
    ensures r.Keys == m.Keys
    ensures forall x :: x in m ==> r[x] == Plain(f, m[x])
    decreases VAttrs(m), 0
  {
    map x | x in m :: Plain(f, m[x])
  }

  /** A set that has `__toString` prints as what that answers, even if it has an `outPath`; else
      one that has an `outPath` prints as that; a path prints as its text, and a number that
      JSON cannot express as null. */
  lemma PlainMeans(f: Printer, m: map<string, Value>, p: string, x: NonFinite, s: string, context: set<string>)
    ensures Printable(f, VAttrs(m)) && "__toString" in m ==>
      f.toString(m).Some? && Plain(f, VAttrs(m)) == VStr(f.toString(m).value.0, {})
    ensures Printable(f, VAttrs(m)) && "__toString" !in m && "outPath" in m ==>
      Printable(f, m["outPath"]) && Plain(f, VAttrs(m)) == Plain(f, m["outPath"])
    ensures Printable(f, VPath(p)) ==> f.path(p).Some? && Plain(f, VPath(p)) == VStr(f.path(p).value.0, {})
    ensures Plain(f, VNonFinite(x)) == VNull && Plain(f, VStr(s, context)) == VStr(s, {})
  {
  }

  /** Values that survive the trip: no function, path, context or infinite number, no set
      with `outPath` or `__toString`. */
  predicate Basic(v: Value) {
    match v
    case VStr(_, context) => context == {}
    case VList(elems) => forall i :: 0 <= i < |elems| ==> Basic(elems[i])
    case VAttrs(m) => SYM_TO_STRING !in m && SYM_OUT_PATH !in m && forall x :: x in m ==> Basic(m[x])
    case VNonFinite(_) => false
    case VPath(_) => false
    case VFunction => false
    case _ => true
  }

  /** Printing collects the context element `c`. */
  predicate InContext(f: Printer, v: Value, c: string)
    requires Printable(f, v)
  {
    match v
    case VStr(_, context) => c in context
    case VPath(p) => c in f.path(p).value.1
    case VList(elems) => exists i :: 0 <= i < |elems| && InContext(f, elems[i], c)
    case VAttrs(m) =>
      if SYM_TO_STRING in m then c in f.toString(m).value.1
      else if SYM_OUT_PATH in m then InContext(f, m[SYM_OUT_PATH], c)
      else exists x :: x in m && InContext(f, m[x], c)
    case _ => false
  }

  /** Which contexts printing collects: that of a string, of what `__toString` or a path
      answers, and all those inside. */
  lemma ContextMeans(f: Printer, s: string, context: set<string>, p: string, m: map<string, Value>, vs: seq<Value>,
                     c: string)
    ensures InContext(f, VStr(s, context), c) <==> c in context
    ensures Printable(f, VPath(p)) ==> (InContext(f, VPath(p), c) <==> c in f.path(p).value.1)
    ensures Printable(f, VList(vs)) ==>
      forall i :: 0 <= i < |vs| && InContext(f, vs[i], c) ==> InContext(f, VList(vs), c)
    ensures Printable(f, VAttrs(m)) && "__toString" in m ==>
      (InContext(f, VAttrs(m), c) <==> c in f.toString(m).value.1)
    ensures Printable(f, VAttrs(m)) && "__toString" !in m ==>
      if "outPath" in m then InContext(f, VAttrs(m), c) <==> InContext(f, m["outPath"], c)
      else forall x :: x in m && InContext(f, m[x], c) ==> InContext(f, VAttrs(m), c)
  {
  }

  /** Trees as the library keeps them: members in byte order of their names, without
      duplicates, and integers of 64 bits. */
  predicate Tidy(j: Json) {
    match j
    case JInt(i) => -0x8000_0000_0000_0000 <= i < 0x8000_0000_0000_0000
    case JArray(elems) => forall i :: 0 <= i < |elems| ==> Tidy(elems[i])
    case JObject(members) =>
      Ascending(NamesOf(members)) && forall i :: 0 <= i < |members| ==> Tidy(members[i].value)
    case _ => true
  }

  function NamesOf(members: seq<Member>): (r: seq<string>)
    ensures |r| == |members|
    ensures forall i :: 0 <= i < |members| ==> r[i] == members[i].name
  {
    seq(|members|, i requires 0 <= i < |members| => members[i].name)
  }

  lemma {:induction false} MeaningMapAt(ms: seq<Member>)
    requires Ascending(NamesOf(ms))
    ensures MeaningMap(ms).Keys == SetOf(NamesOf(ms))
    ensures forall i :: 0 <= i < |ms| ==>
      ms[i].name in MeaningMap(ms) && MeaningMap(ms)[ms[i].name] == Meaning(ms[i].value)
  {
    if ms != [] {
      var k := |ms| - 1;
      var t := ms[..k];
      assert NamesOf(ms) == NamesOf(t) + [ms[k].name];
      MeaningMapAt(t);
      forall i | 0 <= i < k
        ensures ms[i].name != ms[k].name
      {
        AscendingApart(NamesOf(ms), i, k);
      }
      hide Ascending, Meaning;
      assert forall i :: 0 <= i < k ==> t[i] == ms[i];
    }
  }

  /** A value has one tidy tree: two tidy trees are the same exactly when they mean the
      same. */
  lemma {:induction false} TidyUnique(a: Json, b: Json)
    requires Tidy(a) && Tidy(b)
    ensures Meaning(a) == Meaning(b) <==> a == b
  {
    if Meaning(a) == Meaning(b) {
      match (a, b)
      case (JArray(s), JArray(t)) =>
        ArrayMeans(s);
        ArrayMeans(t);
        forall i | 0 <= i < |s|
          ensures s[i] == t[i]
        {
          TidyUnique(s[i], t[i]);
        }
      case (JObject(s), JObject(t)) =>
        MembersUnique(s, t);
        forall i | 0 <= i < |s|
          ensures s[i] == t[i]
        {
          TidyUnique(s[i].value, t[i].value);
        }
      case _ =>
    }
  }

  lemma {:induction false} MembersUnique(s: seq<Member>, t: seq<Member>)
    requires Ascending(NamesOf(s)) && Ascending(NamesOf(t)) && MeaningMap(s) == MeaningMap(t)
    ensures |s| == |t|
    ensures forall i :: 0 <= i < |s| ==> s[i].name == t[i].name && Meaning(s[i].value) == Meaning(t[i].value)
  {
    MeaningMapAt(s);
    MeaningMapAt(t);
    var m, n := NamesOf(s), NamesOf(t);
    hide Ascending, Meaning, MeaningMap, NamesOf, SetOf;
    SameListing(m, n);
    forall i | 0 <= i < |s|
      ensures s[i].name == t[i].name && Meaning(s[i].value) == Meaning(t[i].value)
    {
      assert m[i] == n[i];
    }
  }

  /** `printValueAsJSON`. */
  method PrintValueAsJson(f: Printer, v: Value, context: set<string>) returns (r: Option<Json>, context': set<string>)
    ensures r.Some? <==> Printable(f, v)
    ensures r.Some? ==> Meaning(r.value) == Plain(f, v) && Tidy(r.value)
    ensures r.Some? ==> forall c :: c in context' <==> c in context || InContext(f, v, c)
    decreases v, 1
  {
    context' := context;
    match v {
      case VNull => r := Some(JNull);
      case VBool(b) => r := Some(JBool(b));
      case VInt(i) => r := Some(JInt(i));
      case VFloat(x) => r := Some(JFloat(x));
      case VNonFinite(_) => r := Some(JNull);
      case VStr(s, c) =>
        r, context' := Some(JStr(s)), context + c;
      case VPath(p) =>
        var str := f.path(p);
        if str.None? { return None, context; }
        r, context' := Some(JStr(str.value.0)), context + str.value.1;
      case VList(elems) =>
        r, context' := PrintList(f, v, context);
      case VAttrs(m) =>
        if SYM_TO_STRING in m {
          var str := f.toString(m);
          if str.None? { return None, context; }
          r, context' := Some(JStr(str.value.0)), context + str.value.1;
        } else if SYM_OUT_PATH in m {
          r, context' := PrintValueAsJson(f, m[SYM_OUT_PATH], context);
        } else {
          r, context' := PrintAttrs(f, v, context);
        }
      case VFunction => r := None;
    }
  }

  /** The first elements of a list, printed. */
  ghost predicate ElemsPrinted(f: Printer, vs: seq<Value>, out: seq<Json>, before: set<string>, after: set<string>) {
    && (forall i :: 0 <= i < |vs| ==> Printable(f, vs[i]))
    && MeaningSeq(out) == PlainSeq(f, vs) && (forall i :: 0 <= i < |out| ==> Tidy(out[i]))
    && (forall c :: c in after <==> c in before || exists i :: 0 <= i < |vs| && InContext(f, vs[i], c))
  }

  lemma ElemPrinted(f: Printer, vs: seq<Value>, out: seq<Json>, before: set<string>, mid: set<string>, v: Value,
                    j: Json, after: set<string>)
    requires ElemsPrinted(f, vs, out, before, mid) && Printable(f, v)
    requires Meaning(j) == Plain(f, v) && Tidy(j)
    requires forall c :: c in after <==> c in mid || InContext(f, v, c)
    ensures ElemsPrinted(f, vs + [v], out + [j], before, after)
  {
    hide Meaning, Plain, Printable, InContext, Tidy;
    assert (out + [j])[..|out|] == out && (vs + [v])[..|vs|] == vs;
    forall c
      ensures c in after <==> c in before || exists i :: 0 <= i < |vs + [v]| && InContext(f, (vs + [v])[i], c)
    {
      assert (vs + [v])[|vs|] == v;
      assert forall i :: 0 <= i < |vs| ==> (vs + [v])[i] == vs[i];
    }
  }

  method PrintList(f: Printer, v: Value, context: set<string>) returns (r: Option<Json>, context': set<string>)
    requires v.VList?
    ensures r.Some? <==> Printable(f, v)
    ensures r.Some? ==> Meaning(r.value) == Plain(f, v) && Tidy(r.value)
    ensures r.Some? ==> forall c :: c in context' <==> c in context || InContext(f, v, c)
    decreases v, 0
  {
    var out := [];
    context' := context;
    for n := 0 to |v.elems|
      invariant ElemsPrinted(f, v.elems[..n], out, context, context')
    {
      var e;
      ghost var mid := context';
      e, context' := PrintValueAsJson(f, v.elems[n], context');
      if e.None? { return None, context'; }
      ElemPrinted(f, v.elems[..n], out, context, mid, v.elems[n], e.value, context');
      assert v.elems[..n + 1] == v.elems[..n] + [v.elems[n]];
      out := out + [e.value];
    }
    r := Some(JArray(out));
    assert v.elems[..|v.elems|] == v.elems;
  }

  /** The attributes outside `names`, printed. */
  ghost predicate AttrsPrinted(f: Printer, m: map<string, Value>, names: set<string>, out: seq<Member>,
                               before: set<string>, after: set<string>)
  {
    && (forall x :: x in m && x !in names ==> Printable(f, m[x]))
    && MeaningMap(out).Keys == m.Keys - names
    && (forall x :: x in m && x !in names ==> MeaningMap(out)[x] == Plain(f, m[x]))
    && (forall c :: c in after <==> c in before || exists x :: x in m && x !in names && InContext(f, m[x], c))
  }

  lemma AttrPrinted(f: Printer, m: map<string, Value>, names: set<string>, out: seq<Member>, before: set<string>,
                    mid: set<string>, x: string, j: Json, after: set<string>)
    requires AttrsPrinted(f, m, names, out, before, mid) && names <= m.Keys && x in names
    requires Printable(f, m[x]) && Meaning(j) == Plain(f, m[x])
    requires forall c :: c in after <==> c in mid || InContext(f, m[x], c)
    ensures AttrsPrinted(f, m, names - {x}, out + [Member(x, j)], before, after)
  {
    hide Meaning, Plain, Printable, InContext, MeaningMap;
    MembersPush(out, Member(x, j));
  }

  method PrintAttrs(f: Printer, v: Value, context: set<string>) returns (r: Option<Json>, context': set<string>)
    requires v.VAttrs? && SYM_TO_STRING !in v.attrs && SYM_OUT_PATH !in v.attrs
    ensures r.Some? <==> Printable(f, v)
    ensures r.Some? ==> Meaning(r.value) == Plain(f, v) && Tidy(r.value)
    ensures r.Some? ==> forall c :: c in context' <==> c in context || InContext(f, v, c)
    decreases v, 0
  {
    var m := v.attrs;
    var out: seq<Member> := [];
    var names := Listed(m.Keys);
    context' := context;
    PrintedNone(f, m, names, context);
    hide AttrsPrinted, PrintedTo, Printable, Plain, Meaning, InContext, Tidy;
    for n := 0 to |names|
      invariant PrintedTo(f, m, names, n, out, context, context')
    {
      var e;
      ghost var mid := context';
      assert names[n] in names;
      e, context' := PrintValueAsJson(f, m[names[n]], context');
      if e.None? {
        AttrNotPrintable(f, v, names[n]);
        return None, context';
      }
      PrintedNext(f, m, names, n, out, context, mid, e.value, context');
      out := out + [Member(names[n], e.value)];
    }
    PrintedAll(f, v, names, out, context, context');
    r := Some(JObject(out));
  }

  /** The attributes are printed up to the `n`-th name. */
  ghost predicate PrintedTo(f: Printer, m: map<string, Value>, names: seq<string>, n: nat, out: seq<Member>,
                            before: set<string>, after: set<string>)
    requires n <= |names|
  {
    && AttrsPrinted(f, m, SetOf(names[n..]), out, before, after)
    && NamesOf(out) == names[..n] && forall i :: 0 <= i < n ==> Tidy(out[i].value)
  }

  lemma AttrNotPrintable(f: Printer, v: Value, x: string)
    requires v.VAttrs? && SYM_TO_STRING !in v.attrs && SYM_OUT_PATH !in v.attrs
    requires x in v.attrs && !Printable(f, v.attrs[x])
    ensures !Printable(f, v)
  {
  }

  lemma PrintedNone(f: Printer, m: map<string, Value>, names: seq<string>, context: set<string>)
    requires forall x :: x in names <==> x in m.Keys
    ensures PrintedTo(f, m, names, 0, [], context, context)
  {
    assert names[0..] == names;
    hide Printable, Plain, InContext, Tidy;
  }

  lemma PrintedNext(f: Printer, m: map<string, Value>, names: seq<string>, n: nat, out: seq<Member>,
                    before: set<string>, mid: set<string>, j: Json, after: set<string>)
    requires n < |names| && Ascending(names) && forall x :: x in names <==> x in m.Keys
    requires PrintedTo(f, m, names, n, out, before, mid)
    requires Printable(f, m[names[n]]) && Meaning(j) == Plain(f, m[names[n]]) && Tidy(j)
    requires forall c :: c in after <==> c in mid || InContext(f, m[names[n]], c)
    ensures PrintedTo(f, m, names, n + 1, out + [Member(names[n], j)], before, after)
  {
    hide AttrsPrinted, Printable, Plain, Meaning, InContext, Tidy, Ascending;
    var x, rest := names[n], SetOf(names[n..]);
    assert names[n..] == [x] + names[n + 1..];
    assert forall y :: y in names[n..] ==> y in names;
    AttrPrinted(f, m, rest, out, before, mid, x, j, after);
    AscendingDistinct(names, n);
    assert rest - {x} == SetOf(names[n + 1..]);
    assert NamesOf(out + [Member(x, j)]) == names[..n + 1];
  }

  lemma PrintedAll(f: Printer, v: Value, names: seq<string>, out: seq<Member>, before: set<string>, after: set<string>)
    requires v.VAttrs? && SYM_TO_STRING !in v.attrs && SYM_OUT_PATH !in v.attrs
    requires Ascending(names) && PrintedTo(f, v.attrs, names, |names|, out, before, after)
    ensures Printable(f, v) && Tidy(JObject(out)) && Meaning(JObject(out)) == Plain(f, v)
    ensures forall c :: c in after <==> c in before || InContext(f, v, c)
  {
    assert names[|names|..] == [] && names[..|names|] == names;
    hide Ascending;
    assert MeaningMap(out) == PlainMap(f, v.attrs);
  }

  lemma MembersPush(ms: seq<Member>, m: Member)
    ensures MeaningMap(ms + [m]) == MeaningMap(ms)[m.name := Meaning(m.value)]
  {
    assert (ms + [m])[..|ms|] == ms;
  }

  lemma {:induction false} PlainIsSame(f: Printer, v: Value)
    requires Printable(f, v) && Basic(v)
    ensures Plain(f, v) == v
  {
    match v
    case VList(elems) =>
      forall i | 0 <= i < |elems| { PlainIsSame(f, elems[i]); }
      assert PlainSeq(f, elems) == elems;
    case VAttrs(m) =>
      forall x | x in m { PlainIsSame(f, m[x]); }
      assert PlainMap(f, m) == m;
    case _ =>
  }

  lemma {:induction false} BasicPrintable(f: Printer, v: Value)
    requires Basic(v)
    ensures Printable(f, v)
  {
    match v
    case VList(elems) => forall i | 0 <= i < |elems| { BasicPrintable(f, elems[i]); }
    case VAttrs(m) => forall x | x in m { BasicPrintable(f, m[x]); }
    case _ =>
  }

  lemma {:induction false} PlainIsBasic(f: Printer, v: Value)
    requires Printable(f, v)
    ensures Basic(Plain(f, v))
  {
    match v
    case VList(elems) =>
      forall i | 0 <= i < |elems| { PlainIsBasic(f, elems[i]); }
    case VAttrs(m) =>
      if SYM_TO_STRING !in m && SYM_OUT_PATH in m {
        PlainIsBasic(f, m[SYM_OUT_PATH]);
      } else if SYM_TO_STRING !in m {
        forall x | x in m { PlainIsBasic(f, m[x]); }
      }
    case _ =>
  }

  /** Printing a value and parsing the result: a value comes back as itself exactly when
      it is basic. */
  method PrintThenParse(f: Printer, v: Value) returns (w: Option<Value>)
    ensures w.Some? <==> Printable(f, v)
    ensures w.Some? ==> w.value == Plain(f, v)
    ensures Basic(v) <==> w == Some(v)
  {
    var j, _ := PrintValueAsJson(f, v, {});
    if Basic(v) {
      BasicPrintable(f, v);
      PlainIsSame(f, v);
    }
    if j.None? { return None; }
    PlainIsBasic(f, v);
    var r := ParseJson(j.value);
    return Some(r);
  }
}
