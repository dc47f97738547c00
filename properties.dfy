/** What the record layer promises across its operations: how positional
    arguments become a filter, that the rows a query yields match it, what
    a reference lookup returns and writes back, and which values a flush
    binds. */
module OrmProperties {
  import opened Text
  import opened Sql
  import opened Orm
  import opened SqlProperties

  // ----- Rows a SELECT returns -----

  /** Every row a SELECT returns meets its WHERE, and every stored row that
      meets it is returned. */
  lemma {:induction false} SelectMatches(rows: seq<Row>, filter: Row)
    ensures forall i :: 0 <= i < |Select(rows, filter)| ==> Satisfies(Select(rows, filter)[i], filter)
    ensures forall row :: row in rows && Satisfies(row, filter) ==> row in Select(rows, filter)
    ensures |Select(rows, filter)| <= |rows|
    decreases |rows|
  {
    if rows != [] {
      SelectMatches(rows[1..], filter);
      var rest := Select(rows[1..], filter);
      forall row | row in rows && Satisfies(row, filter) ensures row in Select(rows, filter) {
        if row != rows[0] {
          assert row in rows[1..];
        }
      }
    }
  }

  /** Every row a results generator hands out matches its filter. */
  lemma YieldedMatch(db: Database, name: string, filter: Row)
    ensures forall i :: 0 <= i < |Yielded(db.Rows(name, filter))| ==>
      Satisfies(Yielded(db.Rows(name, filter))[i], filter)
  {
    var all := db.Rows(name, filter);
    SelectMatches(if name in db.store then db.store[name] else [], filter);
    var y := Yielded(all);
    forall i | 0 <= i < |y| ensures Satisfies(y[i], filter) {
      assert y[i] == all[i];
    }
  }

  // ----- get_where's positional arguments -----

  /** `dict(zip(pks, a))` binds exactly the first min(|pks|, |a|) keys. */
  lemma {:induction false} ZipMapKeys(keys: seq<string>, vals: seq<Value>)
    ensures forall k :: k in ZipMap(keys, vals) <==>
      exists i :: 0 <= i < |keys| && i < |vals| && keys[i] == k
    decreases |keys|
  {
    if keys != [] && vals != [] {
      ZipMapKeys(keys[1..], vals[1..]);
      forall k | k in ZipMap(keys, vals)
        ensures exists i :: 0 <= i < |keys| && i < |vals| && keys[i] == k
      {
        if k != keys[0] {
          assert k in ZipMap(keys[1..], vals[1..]);
          var i :| 0 <= i < |keys[1..]| && i < |vals[1..]| && keys[1..][i] == k;
          assert keys[i + 1] == k;
        }
      }
      forall k | exists i :: 0 <= i < |keys| && i < |vals| && keys[i] == k
        ensures k in ZipMap(keys, vals)
      {
        var i :| 0 <= i < |keys| && i < |vals| && keys[i] == k;
        if i > 0 {
          assert keys[1..][i - 1] == k;
        }
      }
    }
  }

  /** A key takes the value at its last position among the paired ones. */
  lemma {:induction false} ZipMapLastWins(keys: seq<string>, vals: seq<Value>, i: nat)
    requires i < |keys| && i < |vals|
    requires forall j :: i < j < |keys| && j < |vals| ==> keys[j] != keys[i]
    ensures keys[i] in ZipMap(keys, vals) && ZipMap(keys, vals)[keys[i]] == vals[i]
    decreases |keys|
  {
    if i > 0 {
      ZipMapLastWins(keys[1..], vals[1..], i - 1);
    } else {
      ZipMapKeys(keys[1..], vals[1..]);
      forall j | 0 <= j < |keys[1..]| && j < |vals[1..]| ensures keys[1..][j] != keys[0] {
        assert keys[1..][j] == keys[j + 1];
      }
    }
  }

  /** Positional values past the number of primary keys are dropped. */
  lemma {:induction false} ZipMapDropsExtra(keys: seq<string>, vals: seq<Value>)
    requires |vals| >= |keys|
    ensures ZipMap(keys, vals) == ZipMap(keys, vals[..|keys|])
    decreases |keys|
  {
    if keys != [] {
      assert vals[..|keys|][1..] == vals[1..][..|keys[1..]|];
      ZipMapDropsExtra(keys[1..], vals[1..]);
    }
  }

  /** `get_where(v1, ..., vn)` with distinct primary keys and at least as
      many values queries on exactly the primary keys, each bound to its
      value in order, and ignores the keyword arguments and the extra values. */
  lemma GetWherePositional(t: Table, args: seq<Value>, kw: Row)
    requires |args| >= |t.pks| > 0 && !(|args| == 1 && args[0].Mapping?)
    requires forall i, j :: 0 <= i < j < |t.pks| ==> t.pks[i] != t.pks[j]
    ensures t.GetWhereQuery(args, kw).Ok?
    ensures var vars := t.GetWhereQuery(args, kw).value.vars;
      (forall k :: k in vars <==> k in t.pks)
      && (forall i :: 0 <= i < |t.pks| ==> vars[t.pks[i]] == args[i])
      && vars == ZipMap(t.pks, args[..|t.pks|])
  {
    var vars := t.GetWhereQuery(args, kw).value.vars;
    assert vars == ZipMap(t.pks, args);
    ZipMapKeys(t.pks, args);
    forall k ensures k in vars <==> k in t.pks {
      if k in vars {
        var i :| 0 <= i < |t.pks| && i < |args| && t.pks[i] == k;
      }
      if k in t.pks {
        var i :| 0 <= i < |t.pks| && t.pks[i] == k;
      }
    }
    forall i | 0 <= i < |t.pks| ensures vars[t.pks[i]] == args[i] {
      ZipMapLastWins(t.pks, args, i);
    }
    ZipMapDropsExtra(t.pks, args);
  }

  // ----- Reference lookup -----

  /** `a[x] == b[y]`, `a[x] > b[y]` and `a[x].substratum(f)`, assigned into
      `a`'s registry, store the 5-tuple from `a.x` to `b.y` (single or many)
      and the 3-tuple over base reference `x`. */
  lemma DeclaredReferences(a: Table, b: Table, x: string, y: string, f: string)
    ensures a.Stored(a.Column(x).Eq(b.Column(y))) == Direct(a, x, b, y, false)
    ensures a.Stored(a.Column(x).Gt(b.Column(y))) == Direct(a, x, b, y, true)
    ensures a.Stored(a.Column(x).Substratum(f)) == Sub(x, a.Column(x), f)
  {
  }

  /** What a single or many reference fetches for `wheres`: the unexecuted
      generator of `get_where`, or for `get_one` None when no row matches,
      the one row's record, and `UnexpectedRows` for several. */
  lemma FetchOutcomes(target: Table, wheres: Row, many: bool)
    ensures many ==> Fetch(target, wheres, many) == Ok(Results(target.name, target.SelectText(wheres), wheres))
    ensures var rows := Yielded(target.db.Rows(target.name, wheres));
      !many ==>
        (rows == [] <==> Fetch(target, wheres, many) == Ok(Null))
        && (|rows| > 1 <==> Fetch(target, wheres, many) == Err(UnexpectedRows))
        && (|rows| == 1 ==> Fetch(target, wheres, many) == Ok(Record(target.name, target.WithReferences(rows[0]))))
  {
    assert target.Filter([], wheres) == Ok(wheres);
  }

  /** Two record contents that agree on every column that is not a reference name. */
  ghost predicate SameColumns(t: Table, rec: Row, rec2: Row)
    reads t
  {
    forall c :: c !in t.refs ==> (c in rec <==> c in rec2) && (c in rec ==> rec[c] == rec2[c])
  }

  /** A lookup of a plain column reads the record and changes nothing. */
  lemma PlainColumn(fuel: nat, t: Table, rec: Row, c: string)
    requires t.db.Valid() && t in t.db.tables && c !in t.refs
    ensures Lookup(fuel, t, rec, c) == (if c in rec then Ok(rec[c]) else Err(KeyError(c)), rec)
  {
  }

  /** What a lookup returns depends only on the record's plain columns: a
      value stored under a reference name is never read back. */
  lemma {:induction false} LookupIgnoresReferenceEntries(fuel: nat, t: Table, rec: Row, rec2: Row, key: string)
    requires t.db.Valid() && t in t.db.tables
    requires SameColumns(t, rec, rec2)
    ensures Lookup(fuel, t, rec, key).0 == Lookup(fuel, t, rec2, key).0
    decreases fuel, 3
  {
    if key in t.refs && fuel > 0 {
      match t.refs[key]
      case Direct(_, my, target, their, many) =>
        ResolveIgnoresReferenceEntries(fuel, t, rec, rec2, key, my, target, their, many, None);
      case Sub(baseRef, _, field) =>
        if baseRef in t.refs && t.refs[baseRef].Direct? {
          var base := t.refs[baseRef];
          ResolveIgnoresReferenceEntries(fuel, t, rec, rec2, key, base.myColumn, base.target,
                                         base.theirColumn, base.many, Some(field));
        }
    }
  }

  lemma {:induction false} ResolveIgnoresReferenceEntries(fuel: nat, t: Table, rec: Row, rec2: Row, key: string,
      my: string, target: Table, their: string, many: bool, sub: Option<string>)
    requires fuel > 0
    requires t.db.Valid() && t in t.db.tables && target in t.db.tables
    requires SameColumns(t, rec, rec2)
    ensures Resolve(fuel, t, rec, key, my, target, their, many, sub).0
         == Resolve(fuel, t, rec2, key, my, target, their, many, sub).0
    decreases fuel, 2
  {
    LookupIgnoresReferenceEntries(fuel - 1, t, rec, rec2, my);
  }

  /** The value written back under a reference name is not a cache: reading
      the name again resolves it afresh, whatever the record holds under it. */
  lemma NotACache(fuel: nat, t: Table, rec: Row, key: string, v: Value)
    requires t.db.Valid() && t in t.db.tables && key in t.refs
    ensures Lookup(fuel, t, rec[key := v], key).0 == Lookup(fuel, t, rec, key).0
  {
    LookupIgnoresReferenceEntries(fuel, t, rec[key := v], rec, key);
  }

  /** A lookup changes only entries under reference names, and adds no other key. */
  lemma {:induction false} LookupWritesOnlyReferences(fuel: nat, t: Table, rec: Row, key: string)
    requires t.db.Valid() && t in t.db.tables
    ensures SameColumns(t, rec, Lookup(fuel, t, rec, key).1)
    ensures Lookup(fuel, t, rec, key).1.Keys <= rec.Keys + t.refs.Keys
    decreases fuel, 3
  {
    if key in t.refs && fuel > 0 {
      match t.refs[key]
      case Direct(_, my, target, their, many) =>
        ResolveWritesOnlyReferences(fuel, t, rec, key, my, target, their, many, None);
      case Sub(baseRef, _, field) =>
        if baseRef in t.refs && t.refs[baseRef].Direct? {
          var base := t.refs[baseRef];
          ResolveWritesOnlyReferences(fuel, t, rec, key, base.myColumn, base.target,
                                      base.theirColumn, base.many, Some(field));
        }
    }
  }

  lemma {:induction false} ResolveWritesOnlyReferences(fuel: nat, t: Table, rec: Row, key: string,
      my: string, target: Table, their: string, many: bool, sub: Option<string>)
    requires fuel > 0 && key in t.refs
    requires t.db.Valid() && t in t.db.tables && target in t.db.tables
    ensures SameColumns(t, rec, Resolve(fuel, t, rec, key, my, target, their, many, sub).1)
    ensures Resolve(fuel, t, rec, key, my, target, their, many, sub).1.Keys <= rec.Keys + t.refs.Keys
    decreases fuel, 2
  {
    LookupWritesOnlyReferences(fuel - 1, t, rec, my);
  }

  /** A reference that resolves is stored in the record under its name, and
      one met with no nesting left fails with the recursion limit. */
  lemma LookupResult(fuel: nat, t: Table, rec: Row, key: string)
    requires t.db.Valid() && t in t.db.tables
    ensures key in t.refs && Lookup(fuel, t, rec, key).0.Ok? ==>
      key in Lookup(fuel, t, rec, key).1 && Lookup(fuel, t, rec, key).1[key] == Lookup(fuel, t, rec, key).0.value
    ensures key in t.refs && fuel == 0 ==> Lookup(fuel, t, rec, key).0 == Err(RecursionLimit)
  {
  }

  /** A many reference on a plain column resolves to the unexecuted
      `get_where(their_column=value)` of the other table, and every row it
      will yield holds that value (or, for a list or tuple value, one of its
      elements) in the other table's column. */
  lemma ManyReference(fuel: nat, t: Table, rec: Row, key: string)
    requires t.db.Valid() && t in t.db.tables && fuel > 0
    requires key in t.refs && t.refs[key].Direct? && t.refs[key].many
    requires t.refs[key].myColumn !in t.refs && t.refs[key].myColumn in rec
    ensures var ref := t.refs[key];
      var w := map[ref.theirColumn := rec[ref.myColumn]];
      var q := Results(ref.target.name, ref.target.SelectText(w), w);
      Lookup(fuel, t, rec, key) == (Ok(q), rec[key := q])
      && forall i :: 0 <= i < |Yielded(ref.target.db.Rows(ref.target.name, w))| ==>
           var row := Yielded(ref.target.db.Rows(ref.target.name, w))[i];
           ref.theirColumn in row && Holds(row[ref.theirColumn], rec[ref.myColumn])
  {
    var ref := t.refs[key];
    var w := map[ref.theirColumn := rec[ref.myColumn]];
    PlainColumn(fuel - 1, t, rec, ref.myColumn);
    assert Lookup(fuel, t, rec, key) == Resolve(fuel, t, rec, key, ref.myColumn, ref.target, ref.theirColumn, true, None);
    assert Fetch(ref.target, w, true) == ref.target.GetWhereQuery([], w);
    YieldedMatch(ref.target.db, ref.target.name, w);
  }

  /** A single reference on a plain column reads as the other table's only
      matching row, as None when no row matches, and raises UnexpectedRows
      when several do. */
  lemma SingleReference(fuel: nat, t: Table, rec: Row, key: string)
    requires t.db.Valid() && t in t.db.tables && fuel > 0
    requires key in t.refs && t.refs[key].Direct? && !t.refs[key].many
    requires t.refs[key].myColumn !in t.refs && t.refs[key].myColumn in rec
    ensures var ref := t.refs[key];
      var w := map[ref.theirColumn := rec[ref.myColumn]];
      var rows := Yielded(ref.target.db.Rows(ref.target.name, w));
      var r := Lookup(fuel, t, rec, key).0;
      (rows == [] ==> r == Ok(Null))
      && (|rows| == 1 ==>
            r == Ok(Record(ref.target.name, ref.target.WithReferences(rows[0]))) && Satisfies(rows[0], w))
      && (|rows| > 1 ==> r == Err(UnexpectedRows))
  {
    var ref := t.refs[key];
    var w := map[ref.theirColumn := rec[ref.myColumn]];
    PlainColumn(fuel - 1, t, rec, ref.myColumn);
    assert Lookup(fuel, t, rec, key) == Resolve(fuel, t, rec, key, ref.myColumn, ref.target, ref.theirColumn, false, None);
    assert ref.target.Filter([], w) == Ok(w);
    YieldedMatch(ref.target.db, ref.target.name, w);
  }

  /** A reference whose own column is missing from the record raises KeyError. */
  lemma MissingColumn(fuel: nat, t: Table, rec: Row, key: string)
    requires t.db.Valid() && t in t.db.tables && fuel > 0
    requires key in t.refs && t.refs[key].Direct?
    requires t.refs[key].myColumn !in t.refs && t.refs[key].myColumn !in rec
    ensures Lookup(fuel, t, rec, key) == (Err(KeyError(t.refs[key].myColumn)), rec)
  {
    var ref := t.refs[key];
    PlainColumn(fuel - 1, t, rec, ref.myColumn);
    assert Lookup(fuel, t, rec, key) == Resolve(fuel, t, rec, key, ref.myColumn, ref.target, ref.theirColumn, ref.many, None);
  }

  /** A substratum over a single reference that matches no row subscripts
      None: TypeError. One stacked on another substratum cannot be unpacked:
      ValueError. One whose base name is not registered: KeyError. */
  lemma SubstratumErrors(fuel: nat, t: Table, rec: Row, key: string)
    requires t.db.Valid() && t in t.db.tables && fuel > 0
    requires key in t.refs && t.refs[key].Sub?
    ensures var baseRef := t.refs[key].baseRef;
      baseRef !in t.refs ==> Lookup(fuel, t, rec, key) == (Err(KeyError(baseRef)), rec)
    ensures var baseRef := t.refs[key].baseRef;
      baseRef in t.refs && t.refs[baseRef].Sub? ==> Lookup(fuel, t, rec, key) == (Err(ValueError), rec)
    ensures var baseRef := t.refs[key].baseRef;
      baseRef in t.refs && t.refs[baseRef].Direct? && !t.refs[baseRef].many
      && t.refs[baseRef].myColumn !in t.refs && t.refs[baseRef].myColumn in rec
      && Yielded(t.refs[baseRef].target.db.Rows(t.refs[baseRef].target.name,
           map[t.refs[baseRef].theirColumn := rec[t.refs[baseRef].myColumn]])) == []
      ==> Lookup(fuel, t, rec, key) == (Err(TypeError), rec)
  {
    var baseRef := t.refs[key].baseRef;
    if baseRef in t.refs && t.refs[baseRef].Direct? && !t.refs[baseRef].many
       && t.refs[baseRef].myColumn !in t.refs && t.refs[baseRef].myColumn in rec {
      var base := t.refs[baseRef];
      var w := map[base.theirColumn := rec[base.myColumn]];
      PlainColumn(fuel - 1, t, rec, base.myColumn);
      assert Lookup(fuel, t, rec, key)
        == Resolve(fuel, t, rec, key, base.myColumn, base.target, base.theirColumn, false, Some(t.refs[key].theirSubRef));
      assert base.target.Filter([], w) == Ok(w);
    }
  }

  /** Projecting a field out of many rows gives one value per row, each the
      field's lookup on that row's record, in order. */
  lemma {:induction false} ProjectAllOk(fuel: nat, target: Table, rows: seq<Row>, field: string)
    requires fuel > 0 && target.db.Valid() && target in target.db.tables
    requires ProjectAll(fuel, target, rows, field).Ok?
    ensures var p := ProjectAll(fuel, target, rows, field).value;
      |p| == |rows| && forall i :: 0 <= i < |rows| ==> Project(fuel, target, rows[i], field) == Ok(p[i])
    decreases |rows|
  {
    if rows != [] {
      ProjectAllOk(fuel, target, rows[1..], field);
      var p := ProjectAll(fuel, target, rows, field).value;
      forall i | 0 <= i < |rows| ensures Project(fuel, target, rows[i], field) == Ok(p[i]) {
        if i > 0 { assert rows[i] == rows[1..][i - 1]; }
      }
    }
  }

  /** The first row whose lookup fails fails the whole projection with its error. */
  lemma {:induction false} ProjectAllErr(fuel: nat, target: Table, rows: seq<Row>, field: string, k: nat)
    requires fuel > 0 && target.db.Valid() && target in target.db.tables
    requires k < |rows| && Project(fuel, target, rows[k], field).Err?
    requires forall j :: 0 <= j < k ==> Project(fuel, target, rows[j], field).Ok?
    ensures ProjectAll(fuel, target, rows, field) == Err(Project(fuel, target, rows[k], field).error)
    decreases k
  {
    if k > 0 {
      forall j | 0 <= j < k - 1 ensures Project(fuel, target, rows[1..][j], field).Ok? {
        assert rows[1..][j] == rows[j + 1];
      }
      assert rows[1..][k - 1] == rows[k];
      assert Project(fuel, target, rows[0], field).Ok?;
      ProjectAllErr(fuel, target, rows[1..], field, k - 1);
    }
  }

  /** A substratum over a single reference with exactly one matching row is
      the field of that row's record, written back under the substratum's
      name when it resolves; several matching rows fail before any
      projection. */
  lemma SubstratumOverSingle(fuel: nat, t: Table, rec: Row, key: string)
    requires t.db.Valid() && t in t.db.tables && fuel > 0
    requires key in t.refs && t.refs[key].Sub?
    requires t.refs[key].baseRef in t.refs
    requires t.refs[t.refs[key].baseRef].Direct? && !t.refs[t.refs[key].baseRef].many
    requires t.refs[t.refs[key].baseRef].myColumn !in t.refs && t.refs[t.refs[key].baseRef].myColumn in rec
    ensures var base := t.refs[t.refs[key].baseRef];
      var field := t.refs[key].theirSubRef;
      var rows := Yielded(base.target.db.Rows(base.target.name, map[base.theirColumn := rec[base.myColumn]]));
      var (r, after) := Lookup(fuel, t, rec, key);
      |rows| == 1 ==>
        r == Lookup(fuel - 1, base.target, base.target.WithReferences(rows[0]), field).0
        && after == (if r.Ok? then rec[key := r.value] else rec)
    ensures var base := t.refs[t.refs[key].baseRef];
      var rows := Yielded(base.target.db.Rows(base.target.name, map[base.theirColumn := rec[base.myColumn]]));
      |rows| > 1 ==> Lookup(fuel, t, rec, key) == (Err(UnexpectedRows), rec)
  {
    var base := t.refs[t.refs[key].baseRef];
    var field := t.refs[key].theirSubRef;
    var w := map[base.theirColumn := rec[base.myColumn]];
    PlainColumn(fuel - 1, t, rec, base.myColumn);
    assert Lookup(fuel, t, rec, key)
      == Resolve(fuel, t, rec, key, base.myColumn, base.target, base.theirColumn, false, Some(field));
    assert base.target.Filter([], w) == Ok(w);
  }

  /** A substratum over a many reference reads as the list of the field's
      values, one per row the base reference yields, in order. */
  lemma SubstratumOverMany(fuel: nat, t: Table, rec: Row, key: string)
    requires t.db.Valid() && t in t.db.tables && fuel > 0
    requires key in t.refs && t.refs[key].Sub?
    requires t.refs[key].baseRef in t.refs
    requires t.refs[t.refs[key].baseRef].Direct? && t.refs[t.refs[key].baseRef].many
    requires t.refs[t.refs[key].baseRef].myColumn !in t.refs && t.refs[t.refs[key].baseRef].myColumn in rec
    ensures var base := t.refs[t.refs[key].baseRef];
      var field := t.refs[key].theirSubRef;
      var rows := Yielded(base.target.db.Rows(base.target.name, map[base.theirColumn := rec[base.myColumn]]));
      var r := Lookup(fuel, t, rec, key).0;
      r.Ok? ==>
        r.value.Items? && |r.value.elems| == |rows|
        && forall i :: 0 <= i < |rows| ==>
             Project(fuel, base.target, rows[i], field) == Ok(r.value.elems[i])
  {
    var base := t.refs[t.refs[key].baseRef];
    var field := t.refs[key].theirSubRef;
    var w := map[base.theirColumn := rec[base.myColumn]];
    var rows := Yielded(base.target.db.Rows(base.target.name, w));
    PlainColumn(fuel - 1, t, rec, base.myColumn);
    assert Lookup(fuel, t, rec, key)
      == Resolve(fuel, t, rec, key, base.myColumn, base.target, base.theirColumn, true, Some(field));
    assert Fetch(base.target, w, true).Ok?;
    if ProjectAll(fuel, base.target, rows, field).Ok? { ProjectAllOk(fuel, base.target, rows, field); }
  }

  // ----- Records and flush -----

  /** An INSERT binds every non-reference column, dicts as JSON, under its own
      name; sqlite3 then reads the new row back, postgresql asks for it with
      RETURNING. */
  lemma InsertBindings(d: Dict)
    requires !d.inDb
    ensures d.WriteStatements().Ok?
    ensures var s := d.WriteStatements().value;
      var p := s[0].params;
      p.Keys == d.items.Keys - d.table.refs.Keys
      && (forall k :: k in p ==> p[k] == JsonValue(d.items[k]) && !p[k].Mapping?)
      && (d.table.db.kind == Sqlite3 ==> |s| == 2 && s[1] == Statement(LastInsertedText(d.table.name), map[]))
      && (d.table.db.kind == Postgresql ==> |s| == 1)
  {
  }

  /** An UPDATE binds the new non-reference values under their names and
      the values last read from the database under `old_` names, which the
      WHERE on the primary keys uses; an `old_` name always holds the value
      last read, even where a column of the record has that name. */
  lemma UpdateBindings(d: Dict)
    requires d.inDb && d.table.pks != []
    ensures d.WriteStatements().Ok?
    ensures var s := d.WriteStatements().value;
      var p := s[0].params;
      (forall k :: k in d.snapshot ==> "old_" + k in p && p["old_" + k] == JsonValue(d.snapshot[k]))
      && (forall c :: c in d.items && c !in d.table.refs && c !in OldPrefixed(d.snapshot) ==>
            c in p && p[c] == JsonValue(d.items[c]))
      && p.Keys == (d.items.Keys - d.table.refs.Keys) + OldPrefixed(d.snapshot).Keys
      && (d.table.db.kind == Sqlite3 ==> |s| == 2 && s[1].params == p)
  {
    var s := d.WriteStatements().value;
    var combined := d.RemoveRefs() + OldPrefixed(d.snapshot);
    assert s[0].params == JsonEncoded(combined);
  }

  /** `get_where`'s text: the WHERE clause only for a non-empty filter, and
      then never empty; ORDER BY the non-empty `order_by`, else the first
      primary key when it is non-empty, else nothing. */
  lemma SelectTextForms(t: Table, filter: Row)
    ensures var order :=
        if t.orderBy.Some? && t.orderBy.value != "" then "ORDER BY " + t.orderBy.value
        else if t.pks != [] && t.pks[0] != "" then "ORDER BY " + t.pks[0]
        else "";
      var wheres := ColumnValuePairs(t.db.kind, Assigned(filter), " AND ", "");
      t.SelectText(filter) == "SELECT * FROM " + t.name + " "
        + (if filter == map[] then "" else "WHERE " + wheres + " ") + order
      && (filter != map[] <==> wheres != "")
  {
    ColumnValuePairsEmpty(t.db.kind, Assigned(filter), " AND ", "");
  }

  /** `get_one` fails with `NoPrimaryKey` exactly when its filter does; with a
      filter, with `UnexpectedRows` exactly for several rows and `IndexError`
      exactly for none; otherwise it is the record of the one row, which
      meets the filter. */
  lemma GetOneOutcomes(t: Table, args: seq<Value>, kw: Row)
    ensures t.GetOneSpec(args, kw) == Err(NoPrimaryKey) <==> t.Filter(args, kw).Err?
    ensures t.Filter(args, kw).Ok? ==>
      var f := t.Filter(args, kw).value;
      var rows := Yielded(t.db.Rows(t.name, f));
      (|rows| > 1 <==> t.GetOneSpec(args, kw) == Err(UnexpectedRows))
      && (rows == [] <==> t.GetOneSpec(args, kw) == Err(IndexError))
      && (|rows| == 1 ==> t.GetOneSpec(args, kw) == Ok(t.WithReferences(rows[0])) && Satisfies(rows[0], f))
  {
    if t.Filter(args, kw).Ok? {
      YieldedMatch(t.db, t.name, t.Filter(args, kw).value);
    }
  }

  /** A record already in the database cannot be updated without primary keys. */
  lemma UpdateNeedsPrimaryKey(d: Dict)
    ensures d.WriteStatements() == Err(NoPrimaryKey) <==> d.inDb && d.table.pks == []
  {
  }

  /** With no primary key the DELETE's WHERE is empty: `delete` does not
      check for primary keys. */
  lemma DeleteWithoutPrimaryKey(t: Table, joinStr: string, prefix: string)
    requires t.pks == []
    ensures t.PkValuePairs(joinStr, prefix) == ""
  {
    assert SortedColumns(Named(t.pks)) == [];
  }
}
