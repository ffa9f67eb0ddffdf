/** Cursors over a cached value tree. Any number of them share one table, and each
    remembers a row id that may have been replaced since. */
module EvalCaching {
  import opened Options
  import opened Contexts
  import opened AttrDatabase

  /** `ReadError`: the context in a row could not be parsed. */
  datatype Answer<T> = Found(value: T) | TypeError | ReadError

  class EvalCache {
    const tree: Tree
    const db: AttrDb?
    ghost var cursors: set<AttrCursor>

    ghost predicate Valid()
      reads this, cursors, db
    {
      (db != null ==> db.Valid(tree)) &&
      (forall c :: c in cursors ==> c.root == this && c.Placed(tree) && (c.parent != null ==> c.parent in cursors)) &&
      (forall c :: c in cursors ==> c.ValueFits(tree)) &&
      (forall c :: c in cursors ==> c.CacheFits(tree, db)) &&
      (db != null ==> forall c :: c in cursors && c.parent != null ==> c.parent.cachedValue.Some?)
    }

    /** A cache over a table that may come from earlier runs on the same tree. */
    constructor (tree: Tree, db: AttrDb?)
      requires db != null ==> db.Valid(tree)
      ensures Valid() && this.tree == tree && this.db == db && cursors == {}
    {
      this.tree, this.db, this.cursors := tree, db, {};
    }

    method GetRoot() returns (c: AttrCursor)
      requires Valid()
      modifies this
      ensures Valid() && fresh(c) && cursors == old(cursors) + {c} && c.path == [] && c.cachedValue == None
    {
      hide AttrDatabase.DbOk, AttrDatabase.CachedOk, AttrDatabase.At;
      AtRoot(tree);
      c := new AttrCursor(this, null, "", [], None, None);
      cursors := cursors + {c};
    }
  }

  class AttrCursor {
    const root: EvalCache
    const parent: AttrCursor?
    const name: string
    ghost const path: Path
    var value: Option<Tree>
    var cachedValue: Option<(nat, AttrValue)>

    constructor (root: EvalCache, parent: AttrCursor?, name: string, ghost path: Path,
                 value: Option<Tree>, cachedValue: Option<(nat, AttrValue)>)
      ensures this.root == root && this.parent == parent && this.name == name && this.path == path
      ensures this.value == value && this.cachedValue == cachedValue
    {
      this.root, this.parent, this.name, this.path := root, parent, name, path;
      this.value, this.cachedValue := value, cachedValue;
    }

    /** The cursor stands at an attribute path that exists. */
    ghost predicate Placed(tree: Tree) {
      At(tree, path).Some? &&
      (if parent == null then path == [] else path == parent.path + [name])
    }

    /** What the cursor remembers is true of the tree. */
    ghost predicate ValueFits(tree: Tree)
      reads this`value
    {
      value.Some? ==> value == At(tree, path)
    }

    ghost predicate CacheFits(tree: Tree, db: AttrDb?)
      reads this`cachedValue, db
    {
      cachedValue.Some? ==> db != null && CachedOk(tree, db.State(), path, cachedValue.value)
    }

    /** What the cursor and its parent remember are the rows a new session would find. */
    ghost predicate Synced()
      reads this, parent, root.db
    {
      && root.db != null
      && (parent != null ==>
            && parent.cachedValue.Some? && RowAt(root.db.rows, parent.path).Some?
            && RowAt(root.db.rows, parent.path).value.id == parent.cachedValue.value.0)
      && (cachedValue.Some? ==>
            RowMatches(root.db.rows, path, cachedValue.value))
    }

    /** And what the cursor does not remember has no row. */
    ghost predicate Loaded()
      reads this, parent, root.db
    {
      Synced() && (cachedValue.None? ==> RowAt(root.db.rows, path).None?)
    }

    ghost predicate Live()
      reads this, root, root.cursors, root.db
    {
      this in root.cursors && root.Valid()
    }

    /** The assertion in `getKey` never fails: the parent always has a row id. */
    method GetKey() returns (key: Key)
      requires Live() && root.db != null
      ensures KeyOk(root.db.State(), key) && KeyPath(root.db.State(), key) == path
      ensures MayInsert(root.db.State(), key, {})
      ensures Synced() ==> Reached(root.db.State(), key)
    {
      assert Placed(root.tree);
      if parent == null { return ROOT_KEY; }
      assert path[..|path| - 1] == parent.path;
      assert parent.CacheFits(root.tree, root.db) && parent.cachedValue.Some?;
      key := (parent.cachedValue.value.0, name);
      ghost var s := root.db.State();
      if s.typeOf[key.0].RFullAttrs? {
        assert ChildrenOk(root.tree, s, key.0);
        assert path[..|path| - 1] == parent.path;
      }
    }

    method GetValue() returns (v: Tree)
      requires Live()
      modifies root.cursors`value
      ensures Live() && v == At(root.tree, path).value
      decreases |path|
    {
      hide AttrDatabase.DbOk, AttrDatabase.At, AttrDatabase.CachedOk;
      if value.None? {
        assert Placed(root.tree);
        if parent != null {
          var p := parent.GetValue();
          AtChild(root.tree, parent.path, name);
          value := Some(p.attrs[name]);
        } else {
          AtRoot(root.tree);
          value := Some(root.tree);
        }
      }
      v := value.value;
    }

    /** Writes a row for this cursor. */
    method WriteRow(t: RowType) returns (id: nat)
      requires Live() && root.db != null && TypeOk(root.tree, path, t) && !t.RFullAttrs? && !t.RMissing?
      modifies root.db
      ensures Live() && id in root.db.pathOf && id in root.db.typeOf
      ensures root.db.pathOf[id] == path && root.db.typeOf[id] == t
      ensures forall n :: (id, n) !in root.db.rows
      ensures old(Synced()) ==> Rewritten(old(root.db.State()), root.db.State(), path, Row(id, t))
    {
      hide AttrDatabase.DbOk, AttrDatabase.At, AttrDatabase.RowAt, AttrDatabase.CachedOk, Reached, Rewritten;
      ghost var s := root.db.State();
      var key := GetKey();
      id := root.db.Insert(key, t, root.tree, {});
      if old(Synced()) { RewriteRow(root.tree, s, key, t); }
      NoRowsUnderNew(root.tree, s, key, t);
      Grown();
    }

    /** Writes a row for this cursor and remembers its id. */
    method Remember(t: RowType, v: AttrValue)
      requires Live() && root.db != null && TypeOk(root.tree, path, t) && !t.RFullAttrs? && !t.RMissing?
      requires Denotes(root.tree, path, t, v)
      modifies this`cachedValue, root.db
      ensures Live() && cachedValue.Some? && cachedValue.value.1 == v
      ensures forall n :: (cachedValue.value.0, n) !in root.db.rows
      ensures old(Synced()) ==> Rewritten(old(root.db.State()), root.db.State(), path, Row(cachedValue.value.0, t))
      ensures old(Synced()) && Matches(Row(cachedValue.value.0, t), cachedValue.value) ==> Synced()
    {
      hide AttrDatabase.DbOk, AttrDatabase.At, AttrDatabase.RowAt, AttrDatabase.CachedOk, AttrDatabase.TypeOk;
      hide AttrDatabase.Matches;
      hide Rewritten, Denotes;
      ghost var s := root.db.State();
      assert Placed(root.tree);
      var id := WriteRow(t);
      DenotedFits(root.tree, root.db.State(), path, id, t, v);
      if old(Synced()) {
        if parent != null { RewrittenAbove(s, root.db.State(), path, Row(id, t), parent.path); }
        RewrittenHere(s, root.db.State(), path, Row(id, t));
      }
      cachedValue := Some((id, v));
    }

    /** Every cursor still fits a table that has grown. */
    twostate lemma Grown()
      requires old(Live()) && root.db != null && root.db.Valid(root.tree)
      requires Grows(old(root.db.State()), root.db.State())
      requires root.cursors == old(root.cursors) && forall c :: c in root.cursors ==> unchanged(c)
      ensures Live()
    {
      hide AttrDatabase.DbOk, AttrDatabase.At;
      forall c | c in root.cursors ensures c.CacheFits(root.tree, root.db) {
        assert old(c.CacheFits(root.tree, root.db));
        if c.cachedValue.Some? {
          CachedGrows(root.tree, old(root.db.State()), root.db.State(), c.path, c.cachedValue.value);
        }
      }
    }

    method ForceValue() returns (v: Tree)
      requires Live()
      modifies root.cursors`value, this`cachedValue, root.db
      ensures Live() && v == At(root.tree, path).value
      ensures v.TAttrs? ==>
        cachedValue == old(cachedValue) && (root.db != null ==> root.db.State() == old(root.db.State()))
      ensures old(cachedValue).Some? && !old(cachedValue).value.1.Placeholder? ==> cachedValue == old(cachedValue)
      ensures old(Synced()) && (old(cachedValue).None? || old(cachedValue).value.1.Placeholder?) && !v.TAttrs? ==>
        && RowAt(root.db.rows, path).Some? && RowAt(root.db.rows, path).value.t == RowOf(v)
        && cachedValue.Some? && cachedValue.value.1 == ValueOf(v)
    {
      hide AttrDatabase.DbOk, AttrDatabase.At, AttrDatabase.TypeOk, AttrDatabase.RowAt, Denotes, RowOf, ValueOf;
      v := GetValue();
      assert this.Placed(root.tree);
      if root.db != null && (cachedValue.None? || cachedValue.value.1.Placeholder?) && !v.TAttrs? {
        RowOfFits(root.tree, path);
        Remember(RowOf(v), ValueOf(v));
        if old(Synced()) {
          RewrittenHere(old(root.db.State()), root.db.State(), path, Row(cachedValue.value.0, RowOf(v)));
        }
      }
    }

    /** Looks this cursor's row up, unless it already remembers one. */
    method Load() returns (failed: bool)
      requires Live()
      modifies this`cachedValue
      ensures Live()
      ensures old(cachedValue).Some? || root.db == null ==> !failed && cachedValue == old(cachedValue)
      ensures failed ==> cachedValue == None && Unreadable(At(root.tree, path))
      ensures old(Synced()) ==>
        Synced() && (failed <==> old(cachedValue).None? && IsBadRow(root.db.rows, path)) && (!failed ==> Loaded())
      ensures old(cachedValue).None? && cachedValue.Some? && cachedValue.value.1.StringValue? ==>
        At(root.tree, path).Some? && cachedValue.value.1.context == ElementsOf(ContextOf(At(root.tree, path).value))
    {
      hide AttrDatabase.DbOk, AttrDatabase.At, AttrDatabase.CachedOk, AttrDatabase.KeyOk, AttrDatabase.MayInsert;
      hide AttrDatabase.TypeOk, AttrDatabase.RowAt, AttrDatabase.BadRow, AttrDatabase.Matches, Contexts.ReadColumn;
      hide Contexts.Column;
      hide Placed, ValueFits;
      failed := false;
      if root.db != null && cachedValue.None? {
        var key := GetKey();
        failed, cachedValue := root.db.GetAttr(key, root.tree);
        if cachedValue.Some? { ContextRead(root.tree, path, root.db.rows[key], cachedValue.value); }
      }
    }

    method GetString() returns (r: Answer<string>)
      requires Live()
      modifies root.cursors`value, this`cachedValue, root.db
      ensures Live() && Fair(r, DirectString(At(root.tree, path).value), At(root.tree, path))
      ensures root.db == null ==> r == DirectString(At(root.tree, path).value)
      ensures old(Synced()) && Text(At(root.tree, path).value).Some? ==>
        && (r.ReadError? <==> old(IsBadRow(root.db.rows, path)))
        && RowAt(root.db.rows, path).Some? && RowAt(root.db.rows, path).value.t == RowOf(At(root.tree, path).value)
    {
      hide AttrDatabase.DbOk, AttrDatabase.At, AttrDatabase.RowAt, AttrDatabase.IsBadRow, AttrDatabase.IsStringRow;
      hide AttrDatabase.RowMatches;
      hide Contexts.Column, Contexts.ReadColumn, Contexts.ElementsOf, AttrDatabase.Unreadable, AttrDatabase.Matches;
      hide AttrDatabase.TypeOk;
      var failed := Load();
      assert Placed(root.tree) && CacheFits(root.tree, root.db);
      if Synced() && Text(At(root.tree, path).value).Some? {
        if failed {
          TextRowIs(root.tree, root.db.State(), path);
        } else {
          TextRowLoaded(root.tree, root.db.State(), path, cachedValue);
        }
      }
      if failed { return ReadError; }
      if root.db != null && cachedValue.Some? && !cachedValue.value.1.Placeholder? {
        if cachedValue.value.1.StringValue? { return Found(cachedValue.value.1.s); }
        return TypeError;
      }
      var v := ForceValue();
      return DirectString(v);
    }

    /** The string with its context. A cursor that has evaluated the string itself
        remembers it without. */
    method GetStringWithContext(valid: string -> bool) returns (r: Answer<(string, set<string>)>)
      requires Live()
      modifies root.cursors`value, this`cachedValue, root.db
      ensures Live()
      ensures root.db == null ==> r == DirectWithContext(At(root.tree, path).value)
      ensures Fair(r, DirectWithContext(At(root.tree, path).value), At(root.tree, path)) ||
              (old(cachedValue).Some? && Text(At(root.tree, path).value).Some? &&
                r == Found((Text(At(root.tree, path).value).value, {})))
      ensures root.db != null && old(cachedValue).Some? && old(cachedValue).value.1.StringValue? ==>
        && cachedValue == old(cachedValue)
        && (if forall e :: e in old(cachedValue).value.1.context ==> valid(e)
            then r == Found((old(cachedValue).value.1.s, old(cachedValue).value.1.context))
            else r == DirectWithContext(At(root.tree, path).value))
      ensures old(Synced()) && Text(At(root.tree, path).value).Some? && !old(IsBadRow(root.db.rows, path)) ==>
        && r == DirectWithContext(At(root.tree, path).value) && cachedValue.Some?
        && cachedValue.value.1 == Known(At(root.tree, path).value, old(IsStringRow(root.db.rows, path)))
      ensures old(Synced()) && Text(At(root.tree, path).value).Some? && old(IsBadRow(root.db.rows, path)) ==>
        r == ReadError && Synced() && root.db.State() == old(root.db.State())
    {
      hide AttrDatabase.DbOk, AttrDatabase.At, AttrDatabase.RowAt, AttrDatabase.IsBadRow, AttrDatabase.IsStringRow;
      hide AttrDatabase.RowMatches;
      hide Contexts.Column, Contexts.ReadColumn, Contexts.ElementsOf, AttrDatabase.Unreadable, AttrDatabase.Matches;
      hide AttrDatabase.TypeOk, AttrDatabase.CachedOk, RowOf;
      var failed := Load();
      assert Placed(root.tree) && CacheFits(root.tree, root.db);
      if Synced() && Text(At(root.tree, path).value).Some? {
        if failed {
          TextRowIs(root.tree, root.db.State(), path);
        } else {
          TextRowLoaded(root.tree, root.db.State(), path, cachedValue);
        }
      }
      if failed { return ReadError; }
      if cachedValue.Some? && !cachedValue.value.1.Placeholder? {
        CachedText(root.tree, root.db.State(), path, cachedValue.value);
      }
      if root.db != null && cachedValue.Some? && !cachedValue.value.1.Placeholder? {
        if !cachedValue.value.1.StringValue? { return TypeError; }
        if forall e :: e in cachedValue.value.1.context ==> valid(e) {
          return Found((cachedValue.value.1.s, cachedValue.value.1.context));
        }
      }
      var v := ForceValue();
      return DirectWithContext(v);
    }

    method GetBool() returns (r: Answer<bool>)
      requires Live()
      modifies root.cursors`value, this`cachedValue, root.db
      ensures Live() && Fair(r, DirectBool(At(root.tree, path).value), At(root.tree, path))
      ensures root.db == null ==> r == DirectBool(At(root.tree, path).value)
      ensures old(Synced()) ==> (r.ReadError? <==> old(IsBadRow(root.db.rows, path)))
    {
      hide AttrDatabase.DbOk, AttrDatabase.At;
      var failed := Load();
      if failed { return ReadError; }
      assert Placed(root.tree) && CacheFits(root.tree, root.db);
      if root.db != null && cachedValue.Some? && !cachedValue.value.1.Placeholder? {
        if cachedValue.value.1.BoolValue? { return Found(cachedValue.value.1.b); }
        return TypeError;
      }
      var v := ForceValue();
      return DirectBool(v);
    }

    /** An integer comes back exactly, or cut to 32 bits if it was read from a row. */
    method GetInt() returns (r: Answer<int>)
      requires Live()
      modifies root.cursors`value, this`cachedValue, root.db
      ensures Live()
      ensures root.db == null ==> r == DirectInt(At(root.tree, path).value)
      ensures old(Synced()) ==> (r.ReadError? <==> old(IsBadRow(root.db.rows, path)))
      ensures Fair(r, DirectInt(At(root.tree, path).value), At(root.tree, path)) ||
              (At(root.tree, path).value.TInt? && r == Found(Truncate(At(root.tree, path).value.i)))
      ensures old(Synced()) && At(root.tree, path).value.TInt? ==>
        var i := At(root.tree, path).value.i;
        && r == Found(if old(IsIntRow(root.db.rows, path)) then Truncate(i) else i)
        && RowAt(root.db.rows, path).Some? && RowAt(root.db.rows, path).value.t == RInt(Truncate(i))
    {
      hide AttrDatabase.DbOk, AttrDatabase.At;
      ghost var s := if root.db != null then root.db.State() else DbState(map[], 0, map[], map[]);
      if Synced() && RowAt(s.rows, path).Some? { RowIsTrue(root.tree, s, path); }
      var failed := Load();
      if failed { return ReadError; }
      assert Placed(root.tree) && CacheFits(root.tree, root.db);
      if root.db != null && cachedValue.Some? && !cachedValue.value.1.Placeholder? {
        if cachedValue.value.1.IntValue? { return Found(cachedValue.value.1.i); }
        return TypeError;
      }
      var v := ForceValue();
      return DirectInt(v);
    }

    method GetAttrs() returns (r: Answer<set<string>>)
      requires Live()
      modifies root.cursors`value, this`cachedValue, root.db
      ensures Live() && Fair(r, DirectAttrs(At(root.tree, path).value), At(root.tree, path))
      ensures root.db == null ==> r == DirectAttrs(At(root.tree, path).value)
      ensures old(Synced()) ==> (r.ReadError? <==> old(IsBadRow(root.db.rows, path)))
    {
      hide AttrDatabase.DbOk, AttrDatabase.At;
      var failed := Load();
      if failed { return ReadError; }
      assert Placed(root.tree) && CacheFits(root.tree, root.db);
      if root.db != null && cachedValue.Some? && !cachedValue.value.1.Placeholder? {
        if cachedValue.value.1.FullAttrs? { return Found(cachedValue.value.1.names); }
        return TypeError;
      }
      var v := ForceValue();
      if !v.TAttrs? { return TypeError; }
      var names := v.attrs.Keys;
      if root.db != null { RememberAttrs(names); }
      return Found(names);
    }

    method RememberAttrs(names: set<string>)
      requires Live() && root.db != null && At(root.tree, path).value.TAttrs?
      requires names == At(root.tree, path).value.attrs.Keys
      modifies this`cachedValue, root.db
      ensures Live()
    {
      hide AttrDatabase.DbOk, AttrDatabase.At;
      assert Placed(root.tree);
      var key := GetKey();
      var id := root.db.SetAttrs(key, names, root.tree);
      Grown();
      assert CachedOk(root.tree, root.db.State(), path, (id, FullAttrs(names)));
      cachedValue := Some((id, FullAttrs(names)));
    }

    /** A cursor for an attribute, exactly if direct evaluation finds one; or an error if the
        row of this cursor or of the attribute cannot be read. */
    method MaybeGetAttr(n: string) returns (failed: bool, c: AttrCursor?)
      requires Live()
      modifies root, root.cursors, root.db
      ensures Live() && (failed ==> c == null) && (!failed ==> (c == null <==> At(root.tree, path + [n]).None?))
      ensures failed ==> root.db != null && (Unreadable(At(root.tree, path)) || Unreadable(At(root.tree, path + [n])))
      ensures failed && old(Synced()) ==> IsBadRow(root.db.rows, path) || IsBadRow(root.db.rows, path + [n])
      ensures failed && root.db != null ==> root.db.State() == old(root.db.State())
      ensures c != null ==> fresh(c) && c.root == root && c.path == path + [n]
      ensures root.cursors == if c == null then old(root.cursors) else old(root.cursors) + {c}
      ensures old(Synced()) && c != null ==> Additive(old(root.db.State()), root.db.State()) && c.Synced()
    {
      hide AttrDatabase.DbOk, AttrDatabase.At, AttrDatabase.RowAt, AttrDatabase.Additive, AttrDatabase.CachedOk;
      hide AttrDatabase.IsBadRow;
      failed := Load();
      if failed { return true, null; }
      if root.db != null && cachedValue.Some? {
        var known;
        known, failed, c := AskCache(n);
        if known { return; }
      }
      c := Explore(n);
    }

    /** The half of `maybeGetAttr` that asks the table; a placeholder without a row for the
        name leaves the question open. */
    method AskCache(n: string) returns (known: bool, failed: bool, c: AttrCursor?)
      requires Live() && root.db != null && cachedValue.Some?
      modifies root
      ensures Live() && (failed ==> known && c == null)
      ensures known && !failed ==> (c == null <==> At(root.tree, path + [n]).None?)
      ensures failed ==> Unreadable(At(root.tree, path + [n])) && (Synced() ==> IsBadRow(root.db.rows, path + [n]))
      ensures !known ==> c == null && cachedValue.value.1.Placeholder? && (cachedValue.value.0, n) !in root.db.rows
      ensures c != null ==> fresh(c) && c.root == root && c.path == path + [n]
      ensures root.cursors == if c == null then old(root.cursors) else old(root.cursors) + {c}
      ensures old(Synced()) && c != null ==> c.Synced() && Additive(root.db.State(), root.db.State())
    {
      hide AttrDatabase.DbOk, AttrDatabase.At, AttrDatabase.RowAt, AttrDatabase.Additive, AttrDatabase.BadRow;
      hide Contexts.ReadColumn;
      AtChild(root.tree, path, n);
      assert Placed(root.tree) && CacheFits(root.tree, root.db);
      AdditiveRefl(root.db.State());
      var id, v := cachedValue.value.0, cachedValue.value.1;
      if v.FullAttrs? {
        if n !in v.names { return true, false, null; }
        c := NewChild(n, None, None);
        return true, false, c;
      } else if v.Placeholder? {
        NoZeroId(root.tree, root.db.State(), id);
        if Synced() { RowAtChild(root.db.rows, path, n); }
        var attr;
        failed, attr := root.db.GetAttr((id, n), root.tree);
        if failed { return true, true, null; }
        if attr.None? { return false, false, null; }
        if attr.value.1.Missing? { return true, false, null; }
        c := NewChild(n, None, attr);
        return true, false, c;
      } else {
        return true, false, null;
      }
    }

    /** The evaluating half of `maybeGetAttr`. */
    method Explore(n: string) returns (c: AttrCursor?)
      requires Live() && (cachedValue.Some? ==> cachedValue.value.1.Placeholder?)
      requires root.db != null && cachedValue.Some? ==> (cachedValue.value.0, n) !in root.db.rows
      modifies root, root.cursors, root.db
      ensures Live() && (c == null <==> At(root.tree, path + [n]).None?)
      ensures c != null ==> fresh(c) && c.root == root && c.path == path + [n]
      ensures root.cursors == if c == null then old(root.cursors) else old(root.cursors) + {c}
      ensures old(Loaded()) && c != null ==> Additive(old(root.db.State()), root.db.State()) && c.Synced()
    {
      hide AttrDatabase.DbOk, AttrDatabase.At, AttrDatabase.RowAt, AttrDatabase.Additive, AttrDatabase.CachedOk;
      AtChild(root.tree, path, n);
      assert Placed(root.tree);
      var v := ForceValue();
      if !v.TAttrs? { return null; }
      if root.db != null {
        c := Record(n, v);
      } else if n in v.attrs {
        c := NewChild(n, Some(v.attrs[n]), None);
      } else {
        c := null;
      }
    }

    /** Records whether the set has the attribute. */
    method Record(n: string, v: Tree) returns (c: AttrCursor?)
      requires Live() && root.db != null && (cachedValue.Some? ==> cachedValue.value.1.Placeholder?)
      requires At(root.tree, path) == Some(v) && v.TAttrs?
      requires cachedValue.Some? ==> (cachedValue.value.0, n) !in root.db.rows
      modifies root, this`cachedValue, root.db
      ensures Live() && (c == null <==> n !in v.attrs)
      ensures c != null ==> fresh(c) && c.root == root && c.path == path + [n]
      ensures root.cursors == if c == null then old(root.cursors) else old(root.cursors) + {c}
      ensures old(Loaded()) && c != null ==> Additive(old(root.db.State()), root.db.State()) && c.Synced()
    {
      hide AttrDatabase.DbOk, AttrDatabase.At, AttrDatabase.RowAt, AttrDatabase.Additive;
      AtChild(root.tree, path, n);
      ghost var s := root.db.State();
      EnsurePlaceholder(n);
      ghost var s1 := root.db.State();
      var id2 := AddChildRow(n, if n in v.attrs then RPlaceholder else RMissing);
      if Additive(s, s1) { AdditiveTrans(s, s1, root.db.State()); }
      if n !in v.attrs { return null; }
      c := NewChild(n, Some(v.attrs[n]), Some((id2, Placeholder)));
    }

    /** Gives the cursor a placeholder row if it has none. */
    method EnsurePlaceholder(n: string)
      requires Live() && root.db != null && At(root.tree, path).Some?
      requires cachedValue.Some? ==> cachedValue.value.1.Placeholder?
      requires cachedValue.Some? ==> (cachedValue.value.0, n) !in root.db.rows
      modifies this`cachedValue, root.db
      ensures Live() && cachedValue.Some? && cachedValue.value.1.Placeholder?
      ensures (cachedValue.value.0, n) !in root.db.rows
      ensures old(Loaded()) ==> Synced() && Additive(old(root.db.State()), root.db.State())
    {
      hide AttrDatabase.DbOk, AttrDatabase.At, AttrDatabase.RowAt, AttrDatabase.CachedOk;
      if cachedValue.None? { Remember(RPlaceholder, Placeholder); } else { AdditiveRefl(root.db.State()); }
    }

    method AddChildRow(n: string, t: RowType) returns (id: nat)
      requires Live() && root.db != null && cachedValue.Some? && cachedValue.value.1.Placeholder?
      requires TypeOk(root.tree, path + [n], t) && (t.RPlaceholder? || t.RMissing?)
      requires (cachedValue.value.0, n) !in root.db.rows
      modifies root.db
      ensures Live() && id in root.db.pathOf && id in root.db.typeOf
      ensures root.db.pathOf[id] == path + [n] && root.db.typeOf[id] == t
      ensures Additive(old(root.db.State()), root.db.State())
      ensures old(Synced()) ==> Synced() && RowAt(root.db.rows, path + [n]) == Some(Row(id, t))
    {
      hide AttrDatabase.DbOk, AttrDatabase.At, AttrDatabase.RowAt, AttrDatabase.Additive;
      assert CacheFits(root.tree, root.db) && Placed(root.tree);
      ghost var s, key := root.db.State(), (cachedValue.value.0, n);
      NoZeroId(root.tree, s, cachedValue.value.0);
      id := root.db.Insert((cachedValue.value.0, n), t, root.tree, {});
      InsertAdditive(root.tree, s, key, t);
      RowAtBefore(root.tree, s, key, Row(id, t), path);
      if parent != null { RowAtBefore(root.tree, s, key, Row(id, t), parent.path); }
      if old(Synced()) { RowAtChild(root.db.rows, path, n); }
      Grown();
    }

    method NewChild(n: string, v: Option<Tree>, cached: Option<(nat, AttrValue)>) returns (c: AttrCursor)
      requires Live() && At(root.tree, path + [n]).Some? && (root.db != null ==> cachedValue.Some?)
      requires v.Some? ==> v == At(root.tree, path + [n])
      requires cached.Some? ==> root.db != null && CachedOk(root.tree, root.db.State(), path + [n], cached.value)
      modifies root
      ensures Live() && fresh(c) && c.root == root && c.path == path + [n] && root.cursors == old(root.cursors) + {c}
      ensures old(Synced()) && (cached.Some? ==> RowMatches(root.db.rows, path + [n], cached.value)) ==> c.Synced()
    {
      hide AttrDatabase.DbOk, AttrDatabase.At, AttrDatabase.CachedOk, AttrDatabase.RowAt;
      c := new AttrCursor(root, this, n, path + [n], v, cached);
      root.cursors := root.cursors + {c};
    }
  }

  /** An unreadable row of a string is the row that evaluating it left. */
  lemma TextRowIs(tree: Tree, s: DbState, p: Path)
    requires DbOk(tree, s, {}) && At(tree, p).Some? && Text(At(tree, p).value).Some? && IsBadRow(s.rows, p)
    ensures IsStringRow(s.rows, p) && RowAt(s.rows, p).Some? && RowAt(s.rows, p).value.t == RowOf(At(tree, p).value)
  {
    RowIsTrue(tree, s, p);
  }

  lemma CachedText(tree: Tree, s: DbState, p: Path, cached: (nat, AttrValue))
    requires CachedOk(tree, s, p, cached) && At(tree, p).Some? && !cached.1.Placeholder?
    ensures cached.1.StringValue? <==> Text(At(tree, p).value).Some?
    ensures cached.1.StringValue? ==>
      cached.1 == Known(At(tree, p).value, true) || cached.1 == Known(At(tree, p).value, false)
  {
    hide AttrDatabase.At;
  }

  /** What a cursor at a string can have loaded. */
  lemma TextRowLoaded(tree: Tree, s: DbState, p: Path, cached: Option<(nat, AttrValue)>)
    requires DbOk(tree, s, {}) && At(tree, p).Some? && Text(At(tree, p).value).Some?
    requires if cached.None? then RowAt(s.rows, p).None? else RowMatches(s.rows, p, cached.value)
    ensures !IsBadRow(s.rows, p)
    ensures IsStringRow(s.rows, p) <==> cached.Some? && cached.value.1.StringValue?
    ensures IsStringRow(s.rows, p) ==> RowAt(s.rows, p).Some? && RowAt(s.rows, p).value.t == RowOf(At(tree, p).value)
    ensures IsStringRow(s.rows, p) ==> cached.value.1 == Known(At(tree, p).value, true)
    ensures cached.Some? ==> cached.value.1.StringValue? || cached.value.1.Placeholder?
  {
    if cached.Some? {
      RowIsTrue(tree, s, p);
      ContextRead(tree, p, RowAt(s.rows, p).value, cached.value);
    }
    hide AttrDatabase.At, AttrDatabase.DbOk, AttrDatabase.RowAt;
  }

  /** What is read from a row has the context of the value there. */
  lemma ContextRead(tree: Tree, p: Path, row: Row, cached: (nat, AttrValue))
    requires TypeOk(tree, p, row.t) && Matches(row, cached)
    ensures cached.1.StringValue? ==>
      At(tree, p).Some? && cached.1.context == ElementsOf(ContextOf(At(tree, p).value))
  {
    BadRowUnreadable(tree, p, row);
  }

  lemma AdditiveRefl(s: DbState)
    ensures Additive(s, s)
  {
  }

  lemma RowAtChild(rows: map<Key, Row>, p: Path, n: string)
    requires RowAt(rows, p).Some?
    ensures var key := (RowAt(rows, p).value.id, n);
      RowAt(rows, p + [n]) == if key in rows then Some(rows[key]) else None
  {
    assert (p + [n])[..|p|] == p;
  }

  /** From `s` to `s'` the row of path `p` was written; if there was none and the new one is
      a placeholder, that is all. */
  ghost predicate Rewritten(s: DbState, s': DbState, p: Path, row: Row) {
    && RowAt(s'.rows, p) == Some(row)
    && (forall q :: |q| < |p| ==> RowAt(s'.rows, q) == RowAt(s.rows, q))
    && (RowAt(s.rows, p).None? && (row.t.RPlaceholder? || row.t.RMissing?) ==> Additive(s, s'))
  }

  /** The key leads to the row of its path through current row ids. */
  ghost predicate Reached(s: DbState, key: Key) {
    && KeyOk(s, key)
    && RowAt(s.rows, KeyPath(s, key)) == (if key in s.rows then Some(s.rows[key]) else None)
    && (key != ROOT_KEY ==>
          RowAt(s.rows, s.pathOf[key.0]).Some? && RowAt(s.rows, s.pathOf[key.0]).value.id == key.0)
  }

  lemma InsertAdditive(tree: Tree, s: DbState, key: Key, t: RowType)
    requires DbOk(tree, s, {}) && KeyOk(s, key) && key !in s.rows && (t.RPlaceholder? || t.RMissing?)
    ensures Additive(s, Inserted(s, key, t))
  {
  }

  lemma NewRowFound(s: DbState, key: Key, row: Row)
    requires KeyOk(s, key)
    requires key != ROOT_KEY ==>
      RowAt(s.rows[key := row], s.pathOf[key.0]).Some? && RowAt(s.rows[key := row], s.pathOf[key.0]).value.id == key.0
    ensures RowAt(s.rows[key := row], KeyPath(s, key)) == Some(row)
  {
    var p := KeyPath(s, key);
    if key != ROOT_KEY { assert p[..|p| - 1] == s.pathOf[key.0]; }
  }

  lemma RewriteRow(tree: Tree, s: DbState, key: Key, t: RowType)
    requires DbOk(tree, s, {}) && Reached(s, key)
    ensures Rewritten(s, Inserted(s, key, t), KeyPath(s, key), Row(s.nextId, t))
  {
    hide AttrDatabase.RowAt, AttrDatabase.DbOk, AttrDatabase.Additive;
    var s', p := Inserted(s, key, t), KeyPath(s, key);
    forall q: Path | |q| < |p|
      ensures RowAt(s'.rows, q) == RowAt(s.rows, q)
    {
      RowAtBefore(tree, s, key, Row(s.nextId, t), q);
    }
    NewRowFound(s, key, Row(s.nextId, t));
    if key !in s.rows && (t.RPlaceholder? || t.RMissing?) { InsertAdditive(tree, s, key, t); }
  }

  lemma RewrittenAbove(s: DbState, s': DbState, p: Path, row: Row, q: Path)
    requires Rewritten(s, s', p, row) && |q| < |p|
    ensures RowAt(s'.rows, q) == RowAt(s.rows, q)
  {
  }

  lemma RewrittenHere(s: DbState, s': DbState, p: Path, row: Row)
    requires Rewritten(s, s', p, row)
    ensures RowAt(s'.rows, p) == Some(row)
  {
  }

  lemma NoRowsUnderNew(tree: Tree, s: DbState, key: Key, t: RowType)
    requires DbOk(tree, s, {}) && KeyOk(s, key)
    ensures forall n :: (s.nextId, n) !in Inserted(s, key, t).rows
  {
    NoRowsUnder(tree, s, s.nextId);
  }

  /** A row that a new session finds is true of the tree. */
  lemma RowIsTrue(tree: Tree, s: DbState, p: Path)
    requires DbOk(tree, s, {}) && RowAt(s.rows, p).Some?
    ensures TypeOk(tree, p, RowAt(s.rows, p).value.t)
  {
    RowAtPath(tree, s, p);
    if p == [] {
      assert RowOk(s, ROOT_KEY);
    } else {
      var key := (RowAt(s.rows, p[..|p| - 1]).value.id, p[|p| - 1]);
      assert RowOk(s, key);
    }
  }

  /** The value a cursor remembers together with a row of type `t`. */
  ghost predicate Denotes(tree: Tree, p: Path, t: RowType, v: AttrValue) {
    match t
    case RPlaceholder => v == Placeholder
    case RString(x, _) => v == StringValue(x, {})
    case RBool(b) => v == BoolValue(b)
    case RInt(_) => At(tree, p).Some? && At(tree, p).value.TInt? && v == IntValue(At(tree, p).value.i)
    case RMisc => v == Misc
    case RMissing => v == Missing
    case RFullAttrs => v.FullAttrs?
  }

  lemma DenotedFits(tree: Tree, s: DbState, p: Path, id: nat, t: RowType, v: AttrValue)
    requires id in s.pathOf && id in s.typeOf && s.pathOf[id] == p && s.typeOf[id] == t
    requires TypeOk(tree, p, t) && Denotes(tree, p, t, v) && !t.RFullAttrs?
    ensures CachedOk(tree, s, p, (id, v))
  {
  }

  lemma CachedGrows(tree: Tree, s: DbState, s': DbState, p: Path, cached: (nat, AttrValue))
    requires Grows(s, s') && CachedOk(tree, s, p, cached)
    ensures CachedOk(tree, s', p, cached)
  {
  }

  lemma AtChild(tree: Tree, p: Path, n: string)
    ensures At(tree, p + [n]) ==
      if At(tree, p).Some? && At(tree, p).value.TAttrs? && n in At(tree, p).value.attrs
      then Some(At(tree, p).value.attrs[n]) else None
  {
    assert (p + [n])[..|p|] == p;
  }

  lemma AtRoot(tree: Tree)
    ensures At(tree, []) == Some(tree)
  {
  }

  lemma NoZeroId(tree: Tree, s: DbState, id: nat)
    requires DbOk(tree, s, {}) && id in s.pathOf
    ensures id != 0
  {
  }

  // --- direct evaluation ---

  function DirectString(v: Tree): Answer<string> { if Text(v).Some? then Found(Text(v).value) else TypeError }

  function DirectWithContext(v: Tree): Answer<(string, set<string>)> {
    if Text(v).Some? then Found((Text(v).value, ElementsOf(ContextOf(v)))) else TypeError
  }

  function DirectBool(v: Tree): Answer<bool> { if v.TBool? then Found(v.b) else TypeError }

  function DirectInt(v: Tree): Answer<int> { if v.TInt? then Found(v.i) else TypeError }

  function DirectAttrs(v: Tree): Answer<set<string>> { if v.TAttrs? then Found(v.attrs.Keys) else TypeError }

  /** What direct evaluation answers, per kind of value. */
  lemma DirectMeans(v: Tree)
    ensures v.TString? ==> DirectString(v) == Found(v.s) && DirectWithContext(v) == Found((v.s, ElementsOf(v.context)))
    ensures v.TPath? ==> DirectString(v) == Found(v.p) && DirectWithContext(v) == Found((v.p, {}))
    ensures !v.TString? && !v.TPath? ==> DirectString(v) == TypeError && DirectWithContext(v) == TypeError
    ensures DirectBool(v) == if v.TBool? then Found(v.b) else TypeError
    ensures DirectInt(v) == if v.TInt? then Found(v.i) else TypeError
    ensures DirectAttrs(v) == if v.TAttrs? then Found(set x | x in v.attrs) else TypeError
  {
    assert ElementsOf([]) == {};
    assert v.TAttrs? ==> v.attrs.Keys == set x | x in v.attrs;
  }

  /** The row that evaluation leaves, and what the cursor remembers with it. */
  function RowOf(v: Tree): RowType
    requires !v.TAttrs?
  {
    match v
    case TString(s, context) => RString(s, Column(context))
    case TPath(p) => RString(p, None)
    case TBool(b) => RBool(b)
    case TInt(i) => RInt(Truncate(i))
    case TMisc => RMisc
  }

  function ValueOf(v: Tree): AttrValue
    requires !v.TAttrs?
  {
    match v
    case TString(s, _) => StringValue(s, {})
    case TPath(p) => StringValue(p, {})
    case TBool(b) => BoolValue(b)
    case TInt(i) => IntValue(i)
    case TMisc => Misc
  }

  /** What a cursor knows of a string: its context only if it was read from a row. */
  function Known(v: Tree, fromRow: bool): AttrValue
    requires Text(v).Some?
  {
    StringValue(Text(v).value, if fromRow then ElementsOf(ContextOf(v)) else {})
  }

  lemma RowOfFits(tree: Tree, p: Path)
    requires At(tree, p).Some? && !At(tree, p).value.TAttrs?
    ensures var v := At(tree, p).value;
      && TypeOk(tree, p, RowOf(v)) && Denotes(tree, p, RowOf(v), ValueOf(v))
      && !RowOf(v).RFullAttrs? && !RowOf(v).RMissing?
  {
  }

  /** The answer of direct evaluation, or an error at a string whose row cannot be read. */
  predicate Fair<T(==)>(r: Answer<T>, direct: Answer<T>, v: Option<Tree>) {
    r == direct || (r.ReadError? && Unreadable(v))
  }

  // --- sessions ---

  /** One request to the i-th cursor of a session; `AskAttr` opens a further cursor, and
      `AskRoot` a further one at the root. `valid` tells which store paths are valid. */
  datatype Request =
    | AskRoot
    | AskAttr(i: nat, name: string)
    | AskAttrs(i: nat)
    | AskString(i: nat)
    | AskContext(i: nat, valid: string -> bool)
    | AskBool(i: nat)
    | AskInt(i: nat)

  datatype Reply =
    | NoCursor
    | Opened
    | Unread
    | HasAttr(found: bool)
    | Attrs(names: Answer<set<string>>)
    | String(str: Answer<string>)
    | WithContext(text: Answer<(string, set<string>)>)
    | Bool(b: Answer<bool>)
    | Int(i: Answer<int>)

  function CursorsAfter(tree: Tree, paths: seq<Path>, q: Request, r: Reply): seq<Path> {
    if q.AskRoot? then paths + [[]]
    else if q.AskAttr? && q.i < |paths| && r == HasAttr(true) then paths + [paths[q.i] + [q.name]]
    else paths
  }

  /** The reply of direct evaluation, which has no cache. */
  function DirectReply(tree: Tree, paths: seq<Path>, q: Request): Reply {
    if q.AskRoot? then Opened
    else if q.i >= |paths| || At(tree, paths[q.i]).None? then NoCursor
    else
      var v := At(tree, paths[q.i]).value;
      match q
      case AskAttr(i, n) => HasAttr(At(tree, paths[i] + [n]).Some?)
      case AskAttrs(_) => Attrs(DirectAttrs(v))
      case AskString(_) => String(DirectString(v))
      case AskContext(_, _) => WithContext(DirectWithContext(v))
      case AskBool(_) => Bool(DirectBool(v))
      case AskInt(_) => Int(DirectInt(v))
  }

  /** What a request about a value gets, spelled out. */
  lemma DirectReplyMeans(tree: Tree, paths: seq<Path>, i: nat, n: string, valid: string -> bool)
    requires i < |paths| && At(tree, paths[i]).Some?
    ensures var v := At(tree, paths[i]).value;
      && DirectReply(tree, paths, AskAttr(i, n)) == HasAttr(v.TAttrs? && n in v.attrs)
      && DirectReply(tree, paths, AskAttrs(i)) == Attrs(DirectAttrs(v))
      && DirectReply(tree, paths, AskString(i)) == String(DirectString(v))
      && DirectReply(tree, paths, AskContext(i, valid)) == WithContext(DirectWithContext(v))
      && DirectReply(tree, paths, AskBool(i)) == Bool(DirectBool(v))
      && DirectReply(tree, paths, AskInt(i)) == Int(DirectInt(v))
  {
    AtChild(tree, paths[i], n);
  }

  function DirectReplies(tree: Tree, paths: seq<Path>, qs: seq<Request>): (r: seq<Reply>)
    ensures |r| == |qs|
    decreases qs
  {
    if qs == [] then []
    else
      var r := DirectReply(tree, paths, qs[0]);
      [r] + DirectReplies(tree, CursorsAfter(tree, paths, qs[0], r), qs[1..])
  }

  /** Equal, up to the 32-bit column for integers and a forgotten context. */
  predicate SameReply(r: Reply, direct: Reply) {
    || r == direct
    || (direct.Int? && direct.i.Found? && r == Int(Found(Truncate(direct.i.value))))
    || (direct.WithContext? && direct.text.Found? && r == WithContext(Found((direct.text.value.0, {}))))
  }

  /** The integer fits the column, and there is no context to forget. */
  predicate Lossless(direct: Reply) {
    && (direct.Int? && direct.i.Found? ==> -0x8000_0000 <= direct.i.value < 0x8000_0000)
    && (direct.WithContext? && direct.text.Found? ==> direct.text.value.1 == {})
  }

  lemma SameReplyExact(r: Reply, direct: Reply)
    requires SameReply(r, direct) && Lossless(direct)
    ensures r == direct
  {
    if direct.Int? && direct.i.Found? { TruncateExact(direct.i.value); }
  }

  /** The request reads a row that may be unreadable. */
  predicate MeetsUnreadable(tree: Tree, paths: seq<Path>, q: Request) {
    !q.AskRoot? && q.i < |paths| &&
    (Unreadable(At(tree, paths[q.i])) || (q.AskAttr? && Unreadable(At(tree, paths[q.i] + [q.name]))))
  }

  predicate Answered(tree: Tree, paths: seq<Path>, q: Request, r: Reply) {
    SameReply(r, DirectReply(tree, paths, q)) || (r.Unread? && MeetsUnreadable(tree, paths, q))
  }

  /** Every reply is that of direct evaluation, or an error at an unreadable string. */
  predicate AllAnswered(tree: Tree, paths: seq<Path>, qs: seq<Request>, rs: seq<Reply>)
    decreases qs
  {
    |rs| == |qs| &&
    (qs != [] ==>
       Answered(tree, paths, qs[0], rs[0]) &&
       AllAnswered(tree, CursorsAfter(tree, paths, qs[0], rs[0]), qs[1..], rs[1..]))
  }

  ghost predicate AllReadable(tree: Tree) {
    forall p :: !Unreadable(At(tree, p))
  }

  /** Without unreadable strings every reply is that of direct evaluation. */
  lemma {:induction false} ReadableAnswers(tree: Tree, paths: seq<Path>, qs: seq<Request>, rs: seq<Reply>)
    requires AllReadable(tree) && AllAnswered(tree, paths, qs, rs)
    ensures forall k :: 0 <= k < |qs| ==> SameReply(rs[k], DirectReplies(tree, paths, qs)[k])
    decreases qs
  {
    if qs != [] {
      AnsweredDirectly(tree, paths, qs[0], rs[0]);
      var paths' := CursorsAfter(tree, paths, qs[0], rs[0]);
      hide DirectReply, CursorsAfter, Answered, SameReply, AllReadable;
      ReadableAnswers(tree, paths', qs[1..], rs[1..]);
    }
  }

  lemma AnsweredDirectly(tree: Tree, paths: seq<Path>, q: Request, r: Reply)
    requires AllReadable(tree) && Answered(tree, paths, q, r)
    ensures SameReply(r, DirectReply(tree, paths, q))
    ensures CursorsAfter(tree, paths, q, r) == CursorsAfter(tree, paths, q, DirectReply(tree, paths, q))
  {
    assert !MeetsUnreadable(tree, paths, q);
  }

  ghost predicate Tracks(cache: EvalCache, cs: seq<AttrCursor>, paths: seq<Path>)
    reads cache
  {
    && |cs| == |paths|
    && forall i :: 0 <= i < |cs| ==> cs[i] in cache.cursors && cs[i].root == cache && cs[i].path == paths[i]
  }

  /** Any sequence of requests over any number of cursors, on a table left by earlier
      sessions, is answered as by direct evaluation, and leaves a table fit for later ones. */
  method Session(tree: Tree, db: AttrDb?, qs: seq<Request>) returns (replies: seq<Reply>)
    requires db != null ==> db.Valid(tree)
    modifies db
    ensures db != null ==> db.Valid(tree)
    ensures AllAnswered(tree, [[]], qs, replies)
    ensures db == null ==> replies == DirectReplies(tree, [[]], qs)
    ensures AllReadable(tree) && (forall k :: 0 <= k < |qs| ==> Lossless(DirectReplies(tree, [[]], qs)[k])) ==>
      replies == DirectReplies(tree, [[]], qs)
  {
    hide AttrDatabase.DbOk, AttrDatabase.At, AttrDatabase.CachedOk;
    var cache := new EvalCache(tree, db);
    var c0 := cache.GetRoot();
    replies := ServeAll(cache, [c0], qs, [[]]);
    ghost var direct := DirectReplies(tree, [[]], qs);
    if AllReadable(tree) && forall k :: 0 <= k < |qs| ==> Lossless(direct[k]) {
      ReadableAnswers(tree, [[]], qs, replies);
      forall k | 0 <= k < |qs| ensures replies[k] == direct[k] { SameReplyExact(replies[k], direct[k]); }
    }
  }

  method ServeAll(cache: EvalCache, cs: seq<AttrCursor>, qs: seq<Request>, ghost paths: seq<Path>)
    returns (replies: seq<Reply>)
    requires cache.Valid() && Tracks(cache, cs, paths)
    modifies cache, cache.cursors, cache.db
    ensures cache.Valid() && AllAnswered(cache.tree, paths, qs, replies)
    ensures cache.db == null ==> replies == DirectReplies(cache.tree, paths, qs)
    decreases |qs|
  {
    hide EvalCache.Valid, CursorsAfter, Answered, Tracks;
    if qs == [] { return []; }
    var r, cs', paths' := Serve(cache, cs, qs[0], paths);
    var rest := ServeAll(cache, cs', qs[1..], paths');
    replies := [r] + rest;
    assert replies[1..] == rest;
  }

  method Serve(cache: EvalCache, cs: seq<AttrCursor>, q: Request, ghost paths: seq<Path>)
    returns (r: Reply, cs': seq<AttrCursor>, ghost paths': seq<Path>)
    requires cache.Valid() && Tracks(cache, cs, paths)
    modifies cache, cache.cursors, cache.db
    ensures cache.Valid() && Tracks(cache, cs', paths') && paths' == CursorsAfter(cache.tree, paths, q, r)
    ensures Answered(cache.tree, paths, q, r)
    ensures cache.db == null ==> r == DirectReply(cache.tree, paths, q)
    ensures fresh(cache.cursors - old(cache.cursors))
  {
    hide AttrDatabase.DbOk, AttrDatabase.At, AttrDatabase.CachedOk;
    cs', paths' := cs, paths;
    if q.AskRoot? {
      var c := cache.GetRoot();
      return Opened, cs + [c], paths + [[]];
    }
    if q.i >= |cs| { return NoCursor, cs, paths; }
    assert cs[q.i].Placed(cache.tree);
    if q.AskAttr? {
      var failed, c := cs[q.i].MaybeGetAttr(q.name);
      if c != null {
        cs', paths' := cs + [c], paths + [c.path];
      }
      r := if failed then Unread else HasAttr(c != null);
    } else {
      r := Ask(cs[q.i], q, paths);
    }
  }

  /** A request that opens no cursor. */
  method Ask(c: AttrCursor, q: Request, ghost paths: seq<Path>) returns (r: Reply)
    requires c.Live() && !q.AskRoot? && !q.AskAttr? && q.i < |paths| && paths[q.i] == c.path
    modifies c.root.cursors, c.root.db
    ensures c.Live() && c.root.cursors == old(c.root.cursors)
    ensures Answered(c.root.tree, paths, q, r)
    ensures c.root.db == null ==> r == DirectReply(c.root.tree, paths, q)
  {
    hide AttrDatabase.DbOk, AttrDatabase.At, AttrDatabase.CachedOk, Contexts.Readable, AttrDatabase.Unreadable;
    assert c.Placed(c.root.tree);
    match q {
      case AskAttrs(_) =>
        var a := c.GetAttrs();
        r := if a.ReadError? then Unread else Attrs(a);
      case AskString(_) =>
        var a := c.GetString();
        r := if a.ReadError? then Unread else String(a);
      case AskContext(_, valid) =>
        var a := c.GetStringWithContext(valid);
        r := if a.ReadError? then Unread else WithContext(a);
      case AskBool(_) =>
        var a := c.GetBool();
        r := if a.ReadError? then Unread else Bool(a);
      case AskInt(_) =>
        var a := c.GetInt();
        r := if a.ReadError? then Unread else Int(a);
    }
  }

  // --- what storage loses ---

  /** Follows the path `p` in a new session. That fails only at an unreadable row for `p`
      itself, and adds placeholders at most. */
  method FindAlongPath(cache: EvalCache, p: Path) returns (failed: bool, c: AttrCursor)
    requires cache.Valid() && cache.cursors == {} && cache.db != null && At(cache.tree, p).Some?
    modifies cache, cache.db
    ensures cache.Valid() && fresh(cache.cursors)
    ensures failed ==> IsBadRow(old(cache.db.rows), p) && cache.db.Valid(cache.tree)
    ensures Additive(old(cache.db.State()), cache.db.State())
    ensures !failed ==> c.root == cache && c in cache.cursors && c.path == p && c.Synced()
  {
    hide AttrDatabase.DbOk, AttrDatabase.At, AttrDatabase.RowAt, AttrDatabase.Additive, AttrDatabase.CachedOk;
    hide AttrDatabase.IsBadRow, AttrDatabase.Unreadable;
    ghost var s, tree := cache.db.State(), cache.tree;
    c := cache.GetRoot();
    AdditiveRefl(s);
    for k := 0 to |p|
      invariant cache.Valid() && fresh(cache.cursors)
      invariant c.root == cache && c in cache.cursors && c.path == p[..k] && c.Synced()
      invariant Additive(s, cache.db.State())
    {
      ghost var s1 := cache.db.State();
      assert p[..k + 1] == p[..k] + [p[k]];
      PrefixExists(tree, p, k + 1);
      AtChild(tree, p[..k], p[k]);
      var child;
      failed, child := c.MaybeGetAttr(p[k]);
      if failed {
        BadOnlyAtEnd(tree, s, s1, p, k);
        return;
      }
      c := child;
      AdditiveTrans(s, s1, cache.db.State());
    }
    assert p[..|p|] == p;
    failed := false;
  }

  lemma BadOnlyAtEnd(tree: Tree, s: DbState, s1: DbState, p: Path, k: nat)
    requires k < |p| && At(tree, p).Some? && DbOk(tree, s, {}) && DbOk(tree, s1, {}) && Additive(s, s1)
    requires IsBadRow(s1.rows, p[..k]) || IsBadRow(s1.rows, p[..k] + [p[k]])
    ensures IsBadRow(s.rows, p)
  {
    hide AttrDatabase.DbOk, AttrDatabase.RowAt, AttrDatabase.Additive, AttrDatabase.At, Contexts.ReadColumn;
    var q := if IsBadRow(s1.rows, p[..k]) then p[..k] else p[..k] + [p[k]];
    assert q == p[..|q|];
    BadRowHere(tree, s1, q);
    if |q| < |p| { ProperPrefix(tree, p, |q|); }
    assert p[..|p|] == p;
    AdditiveRows(tree, s, s1, p);
  }

  lemma BadRowHere(tree: Tree, s: DbState, p: Path)
    requires DbOk(tree, s, {}) && IsBadRow(s.rows, p)
    ensures Unreadable(At(tree, p))
  {
    RowIsTrue(tree, s, p);
    BadRowUnreadable(tree, p, RowAt(s.rows, p).value);
  }

  lemma ProperPrefix(tree: Tree, p: Path, k: nat)
    requires k < |p| && At(tree, p).Some?
    ensures At(tree, p[..k]).Some? && At(tree, p[..k]).value.TAttrs?
  {
    PrefixExists(tree, p, k + 1);
    AtChild(tree, p[..k], p[k]);
    assert p[..k + 1] == p[..k] + [p[k]];
  }

  /** A session that goes to path `p` and asks for the integer there. On any table it
      answers with the integer, or with what a row holds if there is one for the path, and
      leaves such a row. */
  method AskIntAt(tree: Tree, db: AttrDb, p: Path) returns (r: Answer<int>)
    requires db.Valid(tree) && At(tree, p).Some? && At(tree, p).value.TInt?
    modifies db
    ensures db.Valid(tree)
    ensures var i := At(tree, p).value.i; r == Found(if old(IsIntRow(db.rows, p)) then Truncate(i) else i)
    ensures IsIntRow(db.rows, p)
  {
    hide AttrDatabase.DbOk, AttrDatabase.At, AttrDatabase.RowAt, AttrDatabase.Additive, AttrDatabase.CachedOk;
    ghost var s := db.State();
    var cache := new EvalCache(tree, db);
    var failed, c := FindAlongPath(cache, p);
    if failed { RowIsTrue(tree, s, p); }
    AdditiveRows(tree, s, db.State(), p);
    r := c.GetInt();
  }

  /** A session that goes to path `p` and asks for the string there. On any table it answers
      with the string, unless there is a row for the path that cannot be read, and leaves a
      row for it. */
  method AskStringAt(tree: Tree, db: AttrDb, p: Path) returns (r: Answer<string>)
    requires db.Valid(tree) && At(tree, p).Some? && Text(At(tree, p).value).Some?
    modifies db
    ensures db.Valid(tree)
    ensures r == if old(IsBadRow(db.rows, p)) then ReadError else DirectString(At(tree, p).value)
    ensures IsBadRow(db.rows, p) <==> Unreadable(At(tree, p))
  {
    hide AttrDatabase.DbOk, AttrDatabase.At, AttrDatabase.RowAt, AttrDatabase.Additive, AttrDatabase.CachedOk;
    ghost var s := db.State();
    var cache := new EvalCache(tree, db);
    var failed, c := FindAlongPath(cache, p);
    AdditiveRows(tree, s, db.State(), p);
    if failed {
      r := ReadError;
    } else {
      r := c.GetString();
    }
    RowIsTrue(tree, db.State(), p);
    BadRowUnreadable(tree, p, RowAt(db.rows, p).value);
  }

  lemma {:induction false} PrefixExists(tree: Tree, p: Path, k: nat)
    requires k <= |p| && At(tree, p).Some?
    ensures At(tree, p[..k]).Some?
    decreases |p|
  {
    if k < |p| {
      PrefixExists(tree, p[..|p| - 1], k);
      assert p[..|p| - 1][..k] == p[..k];
    } else {
      assert p[..k] == p;
    }
  }

  /** Anywhere in any tree, on any table, an integer without a row is answered exactly, and
      cut to 32 bits by the next session; the two agree exactly when it fits or had a row. */
  method TruncatedNextTime(tree: Tree, db: AttrDb, p: Path) returns (first: Answer<int>, second: Answer<int>)
    requires db.Valid(tree) && At(tree, p).Some? && At(tree, p).value.TInt?
    modifies db
    ensures var i := At(tree, p).value.i;
      && first == Found(if old(IsIntRow(db.rows, p)) then Truncate(i) else i) && second == Found(Truncate(i))
      && (first == second <==> -0x8000_0000 <= i < 0x8000_0000 || old(IsIntRow(db.rows, p)))
  {
    first := AskIntAt(tree, db, p);
    second := AskIntAt(tree, db, p);
    TruncateExact(At(tree, p).value.i);
  }

  /** Anywhere in any tree, on any table, a string without an unreadable row is answered at
      first; the next session answers exactly when its context has at most one element,
      without a semicolon. */
  method UnreadableNextTime(tree: Tree, db: AttrDb, p: Path) returns (first: Answer<string>, second: Answer<string>)
    requires db.Valid(tree) && At(tree, p).Some? && Text(At(tree, p).value).Some?
    modifies db
    ensures first == if old(IsBadRow(db.rows, p)) then ReadError else DirectString(At(tree, p).value)
    ensures second == if Readable(ContextOf(At(tree, p).value)) then DirectString(At(tree, p).value) else ReadError
    ensures first == second <==> Readable(ContextOf(At(tree, p).value)) || old(IsBadRow(db.rows, p))
  {
    if IsBadRow(db.rows, p) { BadRowHere(tree, db.State(), p); }
    first := AskStringAt(tree, db, p);
    second := AskStringAt(tree, db, p);
  }

  /** Asking one cursor twice for a string with its context, anywhere in any tree and on any
      table: without a row for it the second answer has no context, so the answers agree
      exactly when there is none to lose or the string has a row. */
  method ContextForgotten(tree: Tree, db: AttrDb, p: Path, valid: string -> bool)
    returns (first: Answer<(string, set<string>)>, second: Answer<(string, set<string>)>)
    requires db.Valid(tree) && At(tree, p).Some? && Text(At(tree, p).value).Some?
    modifies db
    ensures first == if old(IsBadRow(db.rows, p)) then ReadError else DirectWithContext(At(tree, p).value)
    ensures second == if old(IsStringRow(db.rows, p)) then first else Found((Text(At(tree, p).value).value, {}))
    ensures first == second <==> ContextOf(At(tree, p).value) == [] || old(IsStringRow(db.rows, p))
  {
    hide AttrDatabase.DbOk, AttrDatabase.At, AttrDatabase.RowAt, AttrDatabase.Additive, AttrDatabase.CachedOk;
    ghost var s := db.State();
    var cache := new EvalCache(tree, db);
    var failed, c := FindAlongPath(cache, p);
    if failed { return ReadError, ReadError; }
    AdditiveRows(tree, s, db.State(), p);
    first := c.GetStringWithContext(valid);
    second := c.GetStringWithContext(valid);
    ghost var context := ContextOf(At(tree, p).value);
    if context == [] { assert ElementsOf(context) == {}; } else { assert context[0] in ElementsOf(context); }
  }
}
