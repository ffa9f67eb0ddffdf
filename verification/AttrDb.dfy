/** The evaluation cache's table. Replacing a row gives it a new id, so ids held
    elsewhere can be stale; a ghost map remembers the attribute path of every id. */
module AttrDatabase {
  import opened Options
  import opened Contexts

  type Path = seq<string>

  /** A fully evaluated, error-free value, as far as the cache looks at it. */
  datatype Tree =
    | TString(s: string, context: seq<Element>)
    | TPath(p: string)
    | TBool(b: bool)
    | TInt(i: int)
    | TMisc
    | TAttrs(attrs: map<string, Tree>)

  /** The text of a string or a path, and its context. */
  function Text(v: Tree): Option<string> {
    match v
    case TString(s, _) => Some(s)
    case TPath(p) => Some(p)
    case _ => None
  }

  function ContextOf(v: Tree): seq<Element> {
    if v.TString? then v.context else []
  }

  /** A string whose row cannot be read. */
  predicate Unreadable(v: Option<Tree>) {
    v.Some? && !Readable(ContextOf(v.value))
  }

  /** Direct evaluation along an attribute path. */
  function At(t: Tree, p: Path): Option<Tree> {
    if p == [] then Some(t)
    else
      var parent := At(t, p[..|p| - 1]);
      if parent.Some? && parent.value.TAttrs? && p[|p| - 1] in parent.value.attrs
      then Some(parent.value.attrs[p[|p| - 1]])
      else None
  }

  /** `setInt` takes a 32-bit `int`. */
  function Truncate(i: int): int {
    (i + 0x8000_0000) % 0x1_0000_0000 - 0x8000_0000
  }

  /** The 32-bit integer with the same last 32 bits. */
  lemma TruncateIs(i: int)
    ensures -0x8000_0000 <= Truncate(i) < 0x8000_0000 && (Truncate(i) - i) % 0x1_0000_0000 == 0
  {
    var k := (i + 0x8000_0000) / 0x1_0000_0000;
    assert Truncate(i) == i - k * 0x1_0000_0000;
  }

  lemma TruncateExact(i: int)
    ensures Truncate(i) == i <==> -0x8000_0000 <= i < 0x8000_0000
  {
  }

  type Key = (nat, string)

  datatype RowType =
    | RPlaceholder
    | RFullAttrs
    | RString(s: string, column: Option<string>)
    | RBool(b: bool)
    | RInt(i: int)
    | RMissing
    | RMisc

  datatype Row = Row(id: nat, t: RowType)

  datatype AttrValue =
    | Placeholder
    | FullAttrs(names: set<string>)
    | StringValue(s: string, context: set<string>)
    | BoolValue(b: bool)
    | IntValue(i: int)
    | Missing
    | Misc

  const ROOT_KEY: Key := (0, "")

  datatype DbState = DbState(rows: map<Key, Row>, nextId: nat, pathOf: map<nat, Path>, typeOf: map<nat, RowType>)

  ghost predicate KeyOk(s: DbState, key: Key) {
    key == ROOT_KEY || key.0 in s.pathOf
  }

  ghost function KeyPath(s: DbState, key: Key): Path
    requires KeyOk(s, key)
  {
    if key == ROOT_KEY then [] else s.pathOf[key.0] + [key.1]
  }

  /** What a row of type `t` for path `p` says is true of the tree. */
  ghost predicate TypeOk(tree: Tree, p: Path, t: RowType) {
    var v := At(tree, p);
    match t
    case RPlaceholder => v.Some?
    case RFullAttrs => v.Some? && v.value.TAttrs?
    case RString(x, column) => v.Some? && Text(v.value) == Some(x) && column == Column(ContextOf(v.value))
    case RBool(b) => v == Some(TBool(b))
    case RInt(i) => v.Some? && v.value.TInt? && i == Truncate(v.value.i)
    case RMissing => v.None?
    case RMisc => v == Some(TMisc)
  }

  /** The rows under a full set's id are exactly its attributes. */
  ghost predicate ChildrenOk(tree: Tree, s: DbState, id: nat)
    requires id in s.pathOf
  {
    var v := At(tree, s.pathOf[id]);
    v.Some? && v.value.TAttrs? && forall n :: (id, n) in s.rows <==> n in v.value.attrs
  }

  /** Every id ever given out keeps its meaning; `open` lists full sets still being written. */
  ghost predicate DbOk(tree: Tree, s: DbState, open: set<nat>) {
    s.nextId > 0 && s.pathOf.Keys == s.typeOf.Keys &&
    (forall id :: id in s.pathOf ==> 0 < id < s.nextId && TypeOk(tree, s.pathOf[id], s.typeOf[id])) &&
    (forall key :: key in s.rows ==> RowOk(s, key)) &&
    (forall id :: id in s.pathOf && id !in open && s.typeOf[id].RFullAttrs? ==> ChildrenOk(tree, s, id))
  }

  ghost predicate RowOk(s: DbState, key: Key)
    requires key in s.rows
  {
    var row := s.rows[key];
    KeyOk(s, key) && row.id in s.pathOf && row.id in s.typeOf &&
    s.pathOf[row.id] == KeyPath(s, key) && s.typeOf[row.id] == row.t
  }

  ghost function Inserted(s: DbState, key: Key, t: RowType): DbState
    requires KeyOk(s, key)
  {
    DbState(s.rows[key := Row(s.nextId, t)], s.nextId + 1,
            s.pathOf[s.nextId := KeyPath(s, key)], s.typeOf[s.nextId := t])
  }

  /** A row may be added under `key` without disturbing a full set. */
  ghost predicate MayInsert(s: DbState, key: Key, open: set<nat>) {
    key.0 in s.typeOf && s.typeOf[key.0].RFullAttrs? && key.0 !in open ==> key in s.rows
  }

  lemma InsertedRows(s: DbState, key: Key, t: RowType, k: Key)
    requires KeyOk(s, key) && k in Inserted(s, key, t).rows && 0 !in s.pathOf
    requires s.nextId !in s.pathOf && s.nextId !in s.typeOf
    requires k != key ==> k in s.rows && RowOk(s, k)
    ensures RowOk(Inserted(s, key, t), k)
  {
  }

  lemma InsertedChildren(tree: Tree, s: DbState, key: Key, t: RowType, id: nat)
    requires KeyOk(s, key) && id in s.pathOf && id != s.nextId && ChildrenOk(tree, s, id)
    requires key.0 == id ==> key in s.rows
    ensures ChildrenOk(tree, Inserted(s, key, t), id)
  {
    hide At;
  }

  lemma InsertOk(tree: Tree, s: DbState, key: Key, t: RowType, open: set<nat>)
    requires DbOk(tree, s, open) && KeyOk(s, key) && TypeOk(tree, KeyPath(s, key), t) && MayInsert(s, key, open)
    requires t.RFullAttrs? ==> s.nextId in open
    ensures DbOk(tree, Inserted(s, key, t), open)
  {
    hide TypeOk, ChildrenOk, RowOk, KeyPath;
    var s' := Inserted(s, key, t);
    forall k | k in s'.rows ensures RowOk(s', k) {
      InsertedRows(s, key, t, k);
    }
    forall id | id in s'.pathOf && id !in open && s'.typeOf[id].RFullAttrs? ensures ChildrenOk(tree, s', id) {
      InsertedChildren(tree, s, key, t, id);
    }
  }

  /** A remembered pair of row id and value fits the tree at path `p`. */
  ghost predicate CachedOk(tree: Tree, s: DbState, p: Path, cached: (nat, AttrValue)) {
    cached.0 in s.pathOf && cached.0 in s.typeOf && s.pathOf[cached.0] == p &&
    match cached.1
    case Placeholder => s.typeOf[cached.0] == RPlaceholder && At(tree, p).Some?
    case FullAttrs(names) =>
      && s.typeOf[cached.0] == RFullAttrs
      && At(tree, p).Some? && At(tree, p).value.TAttrs? && names == At(tree, p).value.attrs.Keys
    case StringValue(x, context) =>
      && At(tree, p).Some? && Text(At(tree, p).value) == Some(x)
      && (context == {} || context == ElementsOf(ContextOf(At(tree, p).value)))
    case BoolValue(b) => At(tree, p) == Some(TBool(b))
    case IntValue(i) =>
      && At(tree, p).Some? && At(tree, p).value.TInt?
      && (i == At(tree, p).value.i || i == Truncate(At(tree, p).value.i))
    case Missing => At(tree, p).None?
    case Misc => At(tree, p) == Some(TMisc)
  }

  /** The table only ever learns new ids. */
  ghost predicate Grows(a: DbState, b: DbState) {
    (forall id :: id in a.pathOf ==> id in b.pathOf && b.pathOf[id] == a.pathOf[id]) &&
    (forall id :: id in a.typeOf ==> id in b.typeOf && b.typeOf[id] == a.typeOf[id])
  }

  lemma InsertedGrows(tree: Tree, s: DbState, key: Key, t: RowType, open: set<nat>)
    requires DbOk(tree, s, open) && KeyOk(s, key)
    ensures Grows(s, Inserted(s, key, t))
  {
    assert s.nextId !in s.pathOf && s.nextId !in s.typeOf;
  }

  // --- the rows that a new session finds ---

  /** The row for path `p`, reached from the root through the current row ids. */
  function RowAt(rows: map<Key, Row>, p: Path): Option<Row>
    decreases |p|
  {
    if p == [] then (if ROOT_KEY in rows then Some(rows[ROOT_KEY]) else None)
    else
      var parent := RowAt(rows, p[..|p| - 1]);
      if parent.Some? && (parent.value.id, p[|p| - 1]) in rows then Some(rows[(parent.value.id, p[|p| - 1])]) else None
  }

  predicate IsIntRow(rows: map<Key, Row>, p: Path) {
    RowAt(rows, p).Some? && RowAt(rows, p).value.t.RInt?
  }

  predicate IsStringRow(rows: map<Key, Row>, p: Path) {
    RowAt(rows, p).Some? && RowAt(rows, p).value.t.RString?
  }

  /** What `getAttr` makes of the row. */
  predicate Matches(row: Row, cached: (nat, AttrValue)) {
    row.id == cached.0 &&
    match row.t
    case RPlaceholder => cached.1.Placeholder?
    case RFullAttrs => cached.1.FullAttrs?
    case RString(x, column) => ReadColumn(column).Some? && cached.1 == StringValue(x, ReadColumn(column).value)
    case RBool(b) => cached.1 == BoolValue(b)
    case RInt(i) => cached.1 == IntValue(i)
    case RMissing => cached.1.Missing?
    case RMisc => cached.1.Misc?
  }

  /** Reading the row fails. */
  predicate BadRow(row: Row) {
    row.t.RString? && ReadColumn(row.t.column).None?
  }

  lemma BadRowUnreadable(tree: Tree, p: Path, row: Row)
    requires TypeOk(tree, p, row.t)
    ensures BadRow(row) <==> row.t.RString? && Unreadable(At(tree, p))
    ensures row.t.RString? && !BadRow(row) ==>
      ReadColumn(row.t.column).value == ElementsOf(ContextOf(At(tree, p).value))
  {
    if row.t.RString? { ContextReadBack(ContextOf(At(tree, p).value)); }
    hide Readable, ReadColumn, Column;
  }

  predicate IsBadRow(rows: map<Key, Row>, p: Path) {
    RowAt(rows, p).Some? && BadRow(RowAt(rows, p).value)
  }

  predicate RowMatches(rows: map<Key, Row>, p: Path, cached: (nat, AttrValue)) {
    RowAt(rows, p).Some? && Matches(RowAt(rows, p).value, cached)
  }

  lemma {:induction false} RowAtPath(tree: Tree, s: DbState, p: Path)
    requires DbOk(tree, s, {}) && RowAt(s.rows, p).Some?
    ensures var id := RowAt(s.rows, p).value.id; 0 < id < s.nextId && id in s.pathOf && s.pathOf[id] == p
    decreases |p|
  {
    hide TypeOk, ChildrenOk;
    if p == [] {
      assert RowOk(s, ROOT_KEY);
    } else {
      RowAtPath(tree, s, p[..|p| - 1]);
      var key := (RowAt(s.rows, p[..|p| - 1]).value.id, p[|p| - 1]);
      assert RowOk(s, key);
      assert p == p[..|p| - 1] + [p[|p| - 1]];
    }
  }

  /** Writing a row leaves the rows of shorter paths where they are. */
  lemma {:induction false} RowAtBefore(tree: Tree, s: DbState, key: Key, row: Row, p: Path)
    requires DbOk(tree, s, {}) && KeyOk(s, key) && |p| < |KeyPath(s, key)|
    ensures RowAt(s.rows[key := row], p) == RowAt(s.rows, p)
    decreases |p|
  {
    if p != [] {
      var parent := p[..|p| - 1];
      RowAtBefore(tree, s, key, row, parent);
      if RowAt(s.rows, parent).Some? { RowAtPath(tree, s, parent); }
    }
  }

  /** Only new rows for paths that had none, and none of them a value. */
  ghost predicate Additive(s: DbState, s': DbState) {
    && s.nextId <= s'.nextId
    && (forall k :: k in s.rows ==> k in s'.rows && s'.rows[k] == s.rows[k])
    && (forall k :: k in s'.rows && k !in s.rows ==>
          s'.rows[k].id >= s.nextId && (s'.rows[k].t.RPlaceholder? || s'.rows[k].t.RMissing?))
  }

  lemma AdditiveTrans(a: DbState, b: DbState, c: DbState)
    requires Additive(a, b) && Additive(b, c)
    ensures Additive(a, c)
  {
  }

  lemma {:induction false} AdditiveRows(tree: Tree, s: DbState, s': DbState, p: Path)
    requires DbOk(tree, s, {}) && Additive(s, s')
    ensures RowAt(s.rows, p).Some? ==> RowAt(s'.rows, p) == RowAt(s.rows, p)
    ensures RowAt(s.rows, p).None? && RowAt(s'.rows, p).Some? ==>
      && RowAt(s'.rows, p).value.id >= s.nextId
      && (RowAt(s'.rows, p).value.t.RPlaceholder? || RowAt(s'.rows, p).value.t.RMissing?)
    decreases |p|
  {
    if p != [] {
      AdditiveRows(tree, s, s', p[..|p| - 1]);
      var parent := RowAt(s'.rows, p[..|p| - 1]);
      if parent.Some? && (parent.value.id, p[|p| - 1]) in s.rows {
        assert RowOk(s, (parent.value.id, p[|p| - 1]));
      }
    }
  }

  class AttrDb {
    var rows: map<Key, Row>
    var nextId: nat
    ghost var pathOf: map<nat, Path>
    ghost var typeOf: map<nat, RowType>

    ghost function State(): DbState
      reads this
    {
      DbState(rows, nextId, pathOf, typeOf)
    }

    ghost predicate Valid(tree: Tree)
      reads this
    {
      DbOk(tree, State(), {})
    }

    constructor ()
      ensures forall tree :: Valid(tree)
      ensures rows == map[]
    {
      rows, nextId, pathOf, typeOf := map[], 1, map[], map[];
    }

    /** `insert or replace`: the row gets an id never used before. */
    method Insert(key: Key, t: RowType, ghost tree: Tree, ghost open: set<nat>) returns (id: nat)
      requires DbOk(tree, State(), open) && KeyOk(State(), key) && TypeOk(tree, KeyPath(State(), key), t)
      requires MayInsert(State(), key, open) && (t.RFullAttrs? ==> nextId in open)
      modifies this
      ensures DbOk(tree, State(), open) && State() == Inserted(old(State()), key, t) && id == old(nextId)
      ensures Grows(old(State()), State())
    {
      InsertOk(tree, State(), key, t, open);
      InsertedGrows(tree, State(), key, t, open);
      hide DbOk, TypeOk, MayInsert, Grows;
      id := nextId;
      pathOf, typeOf := pathOf[id := KeyPath(State(), key)], typeOf[id := t];
      rows, nextId := rows[key := Row(id, t)], nextId + 1;
    }

    /** A full set: its own row, then a placeholder for every attribute. */
    method SetAttrs(key: Key, names: set<string>, ghost tree: Tree) returns (id: nat)
      requires Valid(tree) && KeyOk(State(), key) && MayInsert(State(), key, {})
      requires At(tree, KeyPath(State(), key)).Some? && At(tree, KeyPath(State(), key)).value.TAttrs?
      requires names == At(tree, KeyPath(State(), key)).value.attrs.Keys
      modifies this
      ensures Valid(tree) && Grows(old(State()), State())
      ensures id !in old(typeOf) && id in pathOf && id in typeOf && typeOf[id] == RFullAttrs
      ensures pathOf[id] == KeyPath(old(State()), key)
    {
      NoRowsUnder(tree, State(), nextId);
      OpenOne(tree, State(), nextId);
      id := Insert(key, RFullAttrs, tree, {nextId});
      AddPlaceholders(id, names, tree);
      CloseOne(tree, State(), id);
    }

    method AddPlaceholders(id: nat, names: set<string>, ghost tree: Tree)
      requires DbOk(tree, State(), {id}) && id in pathOf && typeOf[id] == RFullAttrs
      requires At(tree, pathOf[id]).Some? && At(tree, pathOf[id]).value.TAttrs?
      requires names == At(tree, pathOf[id]).value.attrs.Keys && forall n :: (id, n) !in rows
      modifies this
      ensures DbOk(tree, State(), {id}) && Grows(old(State()), State()) && ChildrenOk(tree, State(), id)
    {
      hide DbOk;
      ghost var s0, p := State(), pathOf[id];
      var rest := names;
      while rest != {}
        invariant DbOk(tree, State(), {id}) && Grows(s0, State()) && rest <= names
        invariant forall n :: (id, n) in rows <==> n in names - rest
        decreases rest
      {
        var n :| n in rest;
        assert (p + [n])[..|p|] == p;
        var _ := Insert((id, n), RPlaceholder, tree, {id});
        rest := rest - {n};
      }
    }

    /** The row for `key`, with the names of a full set read from the rows under its id; or
        an error if its context cannot be read. */
    method GetAttr(key: Key, ghost tree: Tree) returns (failed: bool, r: Option<(nat, AttrValue)>)
      requires Valid(tree) && KeyOk(State(), key)
      ensures failed <==> key in rows && BadRow(rows[key])
      ensures failed ==> Unreadable(At(tree, KeyPath(State(), key)))
      ensures r.Some? <==> key in rows && !failed
      ensures r.Some? ==> r.value.0 == rows[key].id && CachedOk(tree, State(), KeyPath(State(), key), r.value)
      ensures r.Some? ==> Matches(rows[key], r.value)
      ensures r.Some? ==> TypeOk(tree, KeyPath(State(), key), rows[key].t)
    {
      if key !in rows { return false, None; }
      assert RowOk(State(), key);
      var row := rows[key];
      BadRowUnreadable(tree, KeyPath(State(), key), row);
      hide Text, ContextOf, ReadColumn, Unreadable, Column, DbOk, TypeOk, CachedOk, At;
      var v;
      match row.t {
        case RPlaceholder => v := Placeholder;
        case RFullAttrs =>
          var names := NamesUnder(row.id, tree);
          v := FullAttrs(names);
        case RString(s, column) =>
          var context := ReadColumn(column);
          if context.None? { return true, None; }
          v := StringValue(s, context.value);
        case RBool(b) => v := BoolValue(b);
        case RInt(i) => v := IntValue(i);
        case RMissing => v := Missing;
        case RMisc => v := Misc;
      }
      MatchFits(tree, State(), key, (row.id, v));
      return false, Some((row.id, v));
    }

    method NamesUnder(id: nat, ghost tree: Tree) returns (names: set<string>)
      requires Valid(tree) && id in pathOf && typeOf[id].RFullAttrs?
      ensures At(tree, pathOf[id]).Some? && At(tree, pathOf[id]).value.TAttrs?
      ensures names == At(tree, pathOf[id]).value.attrs.Keys
    {
      assert ChildrenOk(tree, State(), id);
      names := set k | k in rows && k.0 == id :: k.1;
      ghost var attrs := At(tree, pathOf[id]).value.attrs;
      forall n | n in attrs ensures n in names { assert (id, n) in rows; }
    }
  }

  /** What is read from a row is true of the tree. */
  lemma MatchFits(tree: Tree, s: DbState, key: Key, cached: (nat, AttrValue))
    requires DbOk(tree, s, {}) && key in s.rows && RowOk(s, key) && Matches(s.rows[key], cached)
    requires var v := At(tree, KeyPath(s, key));
      cached.1.FullAttrs? ==> v.Some? && v.value.TAttrs? && cached.1.names == v.value.attrs.Keys
    ensures CachedOk(tree, s, KeyPath(s, key), cached)
  {
    assert TypeOk(tree, KeyPath(s, key), s.rows[key].t);
    BadRowUnreadable(tree, KeyPath(s, key), s.rows[key]);
    hide DbOk, ReadColumn, Column, At, Text, ContextOf, KeyPath;
  }

  lemma OpenOne(tree: Tree, s: DbState, id: nat)
    requires DbOk(tree, s, {}) && id !in s.pathOf
    ensures DbOk(tree, s, {id})
  {
  }

  lemma CloseOne(tree: Tree, s: DbState, id: nat)
    requires DbOk(tree, s, {id}) && id in s.pathOf && ChildrenOk(tree, s, id)
    ensures DbOk(tree, s, {})
  {
  }

  lemma NoRowsUnder(tree: Tree, s: DbState, id: nat)
    requires DbOk(tree, s, {}) && id >= s.nextId
    ensures forall n :: (id, n) !in s.rows
  {
    forall key | key in s.rows ensures key.0 < s.nextId {
      assert RowOk(s, key);
    }
  }
}
