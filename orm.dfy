/** The record layer of dictorm: tables with their primary keys, ordering and
    reference registry; the lazily executed results generator; and the
    dict-like record that inserts or updates its row and resolves reference
    names on lookup. The database behind them is a store of rows per table
    and a log of the write statements sent to it. */
module Orm {
  import opened Text
  import opened Sql

  /** The library's own exceptions and the Python errors its code lets escape. */
  datatype Error =
    | NoPrimaryKey
    | UnexpectedRows
    | IndexError            // `l[0]` on an empty list in get_one
    | KeyError(key: string)
    | TypeError             // subscripting None, or dict.__init__(None)
    | ValueError            // unpacking a 3-tuple reference into five names
    | RecursionLimit        // nested lookups deeper than the interpreter allows

  datatype Result<T> = Ok(value: T) | Err(error: Error)

  datatype Option<T> = None | Some(value: T)

  /** A statement and the parameters bound to it. */
  datatype Statement = Statement(text: string, params: Row)

  /** How many reference lookups may nest before Python gives up. */
  const MaxNesting: nat := 1000

  /** SQL's test of a stored value against a bound one: `IN` for a list or
      tuple, `=` otherwise; NULL on either side never matches. */
  predicate Holds(x: Value, want: Value)
  {
    match want
    case Null => false
    case Items(es) => x != Null && x in es
    case _ => x != Null && x == want
  }

  /** A row meets every condition of a WHERE built from `filter`. */
  predicate Satisfies(row: Row, filter: Row)
  {
    forall k :: k in filter ==> k in row && Holds(row[k], filter[k])
  }

  /** The rows of a table that a SELECT with this filter returns, in the
      order the engine keeps them. */
  function Select(rows: seq<Row>, filter: Row): (r: seq<Row>)
    decreases |rows|
  {
    if rows == [] then []
    else
      var rest := Select(rows[1..], filter);
      if Satisfies(rows[0], filter) then [rows[0]] + rest else rest
  }

  /** The rows a results generator hands out before it stops: it stops when
      `fetchone` returns nothing or a row that is empty (falsy). */
  function Yielded(rows: seq<Row>): (r: seq<Row>)
    ensures r <= rows
    ensures forall i :: 0 <= i < |r| ==> r[i] != map[]
    ensures |r| < |rows| ==> rows[|r|] == map[]
    decreases |rows|
  {
    if rows == [] || rows[0] == map[] then [] else [rows[0]] + Yielded(rows[1..])
  }

  /** `m` without the entries whose key is in `drop`. */
  function Without(m: Row, drop: set<string>): (r: Row)
    ensures r.Keys == m.Keys - drop
    ensures forall k :: k in r ==> r[k] == m[k]
  {
    map k | k in m && k !in drop :: m[k]
  }

  /** `dict(zip(keys, vals))`: pairs up to the shorter of the two; a key that
      repeats keeps its last value. */
  function ZipMap(keys: seq<string>, vals: seq<Value>): Row
    decreases |keys|
  {
    if keys == [] || vals == [] then map[]
    else
      var rest := ZipMap(keys[1..], vals[1..]);
      if keys[0] in rest then rest else rest[keys[0] := vals[0]]
  }

  /** `{'old_' + k: v for k, v in snapshot.items()}`. */
  function OldPrefixed(snapshot: Row): (r: Row)
    ensures forall k :: k in snapshot ==> "old_" + k in r && r["old_" + k] == snapshot[k]
    ensures forall n :: n in r ==> exists k :: k in snapshot && n == "old_" + k
  {
    assert forall a, b :: "old_" + a == "old_" + b ==> a == b by {
      forall a, b | "old_" + a == "old_" + b ensures a == b {
        assert a == ("old_" + a)[4..] && b == ("old_" + b)[4..];
      }
    }
    map k | k in snapshot :: "old_" + k := snapshot[k]
  }

  /** The database connection: its dialect, the rows of each table, and the
      statements sent through the shared cursor. */
  class Database {
    const kind: Kind
    var store: map<string, seq<Row>>
    var log: seq<Statement>
    /** The tables built for this database (`DictDB`'s values). */
    ghost var tables: set<Table>

    /** Every table belongs here and references only tables of this database. */
    ghost predicate Valid()
      reads this, tables
    {
      forall t :: t in tables ==> t.db == this && t.RefsWithin(tables)
    }

    constructor (kind: Kind, store: map<string, seq<Row>>)
      ensures this.kind == kind && this.store == store
      ensures log == [] && tables == {} && Valid()
    {
      this.kind := kind;
      this.store := store;
      log := [];
      tables := {};
    }

    /** What a SELECT on table `name` with WHERE built from `filter` returns. */
    function Rows(name: string, filter: Row): seq<Row>
      reads this
    {
      Select(if name in store then store[name] else [], filter)
    }
  }

  /** `Table.__getitem__`: a column of a table, the left or right side of a
      relationship declaration. */
  datatype Reference = Reference(table: Table, column: string)
  {
    /** `a == b`: a single-row reference from `a.column` to `b.column`. */
    function Eq(other: Reference): (d: Descriptor)
      ensures d == Link(column, other.table, other.column, false)
    {
      Link(column, other.table, other.column, false)
    }

    /** `a > b`: a many-row reference from `a.column` to `b.column`. */
    function Gt(other: Reference): (d: Descriptor)
      ensures d == Link(column, other.table, other.column, true)
    {
      Link(column, other.table, other.column, true)
    }

    /** `r.substratum(f)`: project `f` out of what reference `r.column` resolves to. */
    function Substratum(field: string): (d: Descriptor)
      ensures d == Layer(column, Reference(table, column), field)
    {
      Layer(column, Reference(table, column), field)
    }
  }

  /** The tuple assigned to `table[name]`: a 4-tuple from `==` or `>`, or a
      3-tuple from `substratum`. */
  datatype Descriptor =
    | Link(myColumn: string, target: Table, theirColumn: string, many: bool)
    | Layer(baseRef: string, base: Reference, theirSubRef: string)

  /** What the registry holds: the 5-tuple `(self, my_column, table,
      their_column, many)` or the 3-tuple unchanged. */
  datatype Ref =
    | Direct(owner: Table, myColumn: string, target: Table, theirColumn: string, many: bool)
    | Sub(baseRef: string, base: Reference, theirSubRef: string)

  class Table {
    const name: string
    const db: Database
    var pks: seq<string>
    var refs: map<string, Ref>
    var orderBy: Option<string>

    /** Every table a direct reference points at is one of `tables`. */
    ghost predicate RefsWithin(tables: set<Table>)
      reads this
    {
      forall n :: n in refs && refs[n].Direct? ==> refs[n].target in tables
    }

    /** `Table.__init__`; the primary keys are given, not read from the schema. */
    constructor (name: string, db: Database, pks: seq<string>)
      requires db.Valid()
      modifies db
      ensures this.name == name && this.db == db && this.pks == pks
      ensures refs == map[] && orderBy == None
      ensures db.tables == old(db.tables) + {this} && db.Valid()
      ensures db.store == old(db.store) && db.log == old(db.log)
    {
      this.name := name;
      this.db := db;
      this.pks := pks;
      refs := map[];
      orderBy := None;
      new;
      db.tables := db.tables + {this};
    }

    /** `Table.__getitem__`. */
    function Column(column: string): (r: Reference)
      ensures r.table == this && r.column == column
    {
      Reference(this, column)
    }

    /** `Table.__setitem__`: register (or replace) reference `refName`. */
    method SetItem(refName: string, value: Descriptor)
      requires db.Valid() && this in db.tables
      requires value.Link? ==> value.target in db.tables
      modifies this`refs
      ensures refs == old(refs)[refName := Stored(value)]
      ensures db.Valid()
    {
      refs := refs[refName := Stored(value)];
    }

    /** The registry entry `__setitem__` makes of a descriptor. */
    function Stored(value: Descriptor): (r: Ref)
      ensures value.Link? ==> r == Direct(this, value.myColumn, value.target, value.theirColumn, value.many)
      ensures value.Layer? ==> r == Sub(value.baseRef, value.base, value.theirSubRef)
    {
      match value
      case Link(my, target, their, many) => Direct(this, my, target, their, many)
      case Layer(baseRef, base, sub) => Sub(baseRef, base, sub)
    }

    /** A row as a new Dict of this table holds it: every reference name set to None. */
    function WithReferences(row: Row): (r: Row)
      reads this
      ensures r.Keys == row.Keys + refs.Keys
      ensures forall n :: n in refs ==> r[n] == Null
      ensures forall k :: k in row && k !in refs ==> r[k] == row[k]
    {
      row + map n | n in refs :: Null
    }

    /** `_add_references`: set every registered reference name of `d` to None. */
    method AddReferences(d: Dict)
      modifies d`items
      ensures d.items == WithReferences(old(d.items))
    {
      var todo := refs.Keys;
      while todo != {}
        invariant todo <= refs.Keys
        invariant d.items.Keys == old(d.items).Keys + (refs.Keys - todo)
        invariant forall n :: n in refs.Keys - todo ==> d.items[n] == Null
        invariant forall k :: k in old(d.items) && (k !in refs || k in todo) ==> d.items[k] == old(d.items)[k]
        decreases todo
      {
        var refName :| refName in todo;
        d.items := d.items[refName := Null];
        todo := todo - {refName};
      }
    }

    /** `Table.__call__`: a new, not yet stored record of this table. */
    method Call(items: Row) returns (d: Dict)
      ensures fresh(d) && d.table == this && !d.inDb
      ensures d.items == WithReferences(items)
      ensures d.snapshot == Without(items, refs.Keys)
    {
      d := new Dict(this, items);
      AddReferences(d);
    }

    /** `_pk_value_pairs`: the primary keys as `pk=<placeholder>` pieces. */
    function PkValuePairs(joinStr: string, prefix: string): (r: string)
      reads this
      ensures |pks| == 1 ==> r == pks[0] + "=" + NamedPlaceholder(db.kind, prefix + pks[0])
    {
      var keys := SortedColumns(Named(pks));
      assert |pks| == 1 ==> keys[0] in multiset(pks) && keys == pks;
      ColumnValuePairs(db.kind, Named(pks), joinStr, prefix)
    }

    /** The ORDER BY column `get_where` picks: `order_by` if set, else the
        first primary key, else none. */
    function OrderColumn(): (c: Option<string>)
      reads this
      ensures orderBy.Some? && orderBy.value != "" ==> c == orderBy
      ensures !(orderBy.Some? && orderBy.value != "") && pks != [] ==> c == Some(pks[0])
      ensures !(orderBy.Some? && orderBy.value != "") && pks == [] ==> c == None
    {
      if orderBy.Some? && orderBy.value != "" then orderBy
      else if pks != [] then Some(pks[0])
      else None
    }

    /** The filter `get_where(*a, **kw)` queries with: a single dict argument,
        else the positional arguments paired with the primary keys, else `kw`. */
    function Filter(args: seq<Value>, kw: Row): (r: Result<Row>)
      reads this
      ensures |args| == 1 && args[0].Mapping? ==> r == Ok(args[0].fields)
      ensures args == [] ==> r == Ok(kw)
      ensures r == Err(NoPrimaryKey) <==> args != [] && !(|args| == 1 && args[0].Mapping?) && pks == []
    {
      if |args| == 1 && args[0].Mapping? then Ok(args[0].fields)
      else if args != [] then
        if pks == [] then Err(NoPrimaryKey) else Ok(ZipMap(pks, args))
      else Ok(kw)
    }

    /** The SELECT `get_where` builds for `filter`. */
    function SelectText(filter: Row): string
      reads this
    {
      var order := OrderColumn();
      "SELECT * FROM " + name + " "
        + (if filter != map[] then "WHERE " + ColumnValuePairs(db.kind, Assigned(filter), " AND ", "") + " " else "")
        + (if order.Some? && order.value != "" then "ORDER BY " + order.value else "")
    }

    /** `get_where`: the unexecuted generator, as its query and bound variables. */
    function GetWhereQuery(args: seq<Value>, kw: Row): (r: Result<Value>)
      reads this
      ensures r.Ok? <==> Filter(args, kw).Ok?
      ensures r.Ok? ==> r.value == Results(name, SelectText(Filter(args, kw).value), Filter(args, kw).value)
    {
      match Filter(args, kw)
      case Err(e) => Err(e)
      case Ok(f) => Ok(Results(name, SelectText(f), f))
    }

    /** `get_where` building its generator. */
    method GetWhere(args: seq<Value>, kw: Row) returns (r: Result<ResultsGenerator>)
      ensures r.Err? ==> GetWhereQuery(args, kw) == Err(r.error)
      ensures r.Ok? ==> GetWhereQuery(args, kw).Ok? && fresh(r.value) && r.value.Valid()
      ensures r.Ok? ==> var q := GetWhereQuery(args, kw).value;
        r.value.table == this && r.value.query == Some(q.query) && r.value.vars == q.vars
        && r.value.Pending() == db.Rows(name, q.vars)
    {
      var filter := kw;
      if |args| == 1 && args[0].Mapping? {
        filter := args[0].fields;
      } else if args != [] {
        if pks == [] {
          return Err(NoPrimaryKey);
        }
        filter := ZipMap(pks, args);
      }
      assert Filter(args, kw) == Ok(filter);
      var query := BuildSelect(filter);
      var g := new ResultsGenerator(query, filter, this);
      return Ok(g);
    }

    /** The query text `get_where` assembles: the WHERE clause when there is
        a filter, and the ORDER BY column it picks. */
    method BuildSelect(filter: Row) returns (query: string)
      ensures query == SelectText(filter)
    {
      var order: Option<string> := None;
      if orderBy.Some? && orderBy.value != "" {
        order := orderBy;
      } else if pks != [] {
        order := Some(pks[0]);
      }
      var whereClause := "";
      if filter != map[] {
        var wheres := BuildColumnValuePairs(db.kind, Assigned(filter), " AND ", "");
        whereClause := "WHERE " + wheres + " ";
      }
      var orderClause := "";
      if order.Some? && order.value != "" {
        orderClause := "ORDER BY " + order.value;
      }
      query := "SELECT * FROM " + name + " " + whereClause + orderClause;
    }

    /** What `get_one` returns: the one matching row as a record of this table. */
    function GetOneSpec(args: seq<Value>, kw: Row): Result<Row>
      reads this, db
    {
      match Filter(args, kw)
      case Err(e) => Err(e)
      case Ok(f) =>
        var rows := Yielded(db.Rows(name, f));
        if |rows| > 1 then Err(UnexpectedRows)
        else if rows == [] then Err(IndexError)
        else Ok(WithReferences(rows[0]))
    }

    /** `get_one`: drain a generator, then insist on exactly one row. */
    method GetOne(args: seq<Value>, kw: Row) returns (r: Result<Dict>)
      ensures r.Err? ==> GetOneSpec(args, kw) == Err(r.error)
      ensures r.Ok? ==> GetOneSpec(args, kw) == Ok(r.value.items)
      ensures r.Ok? ==> fresh(r.value) && r.value.inDb && r.value.table == this
      ensures r.Ok? ==> r.value.snapshot == Without(r.value.items, refs.Keys)
    {
      var gen := GetWhere(args, kw);
      if gen.Err? {
        return Err(gen.error);
      }
      ghost var rows := Yielded(db.Rows(name, Filter(args, kw).value));
      assert gen.value.Pending() == db.Rows(name, Filter(args, kw).value);
      assert GetOneSpec(args, kw) == if |rows| > 1 then Err(UnexpectedRows)
        else if rows == [] then Err(IndexError) else Ok(WithReferences(rows[0]));
      r := gen.value.One();
    }
  }

  /** `ResultsGenerator`: runs its query at most once, on its own cursor,
      then hands out one record per fetched row. */
  class ResultsGenerator {
    var query: Option<string>
    const vars: Row
    const table: Table
    /** The rows the generator's cursor has yet to hand out. */
    var cursor: seq<Row>
    var rowcount: int
    /** How many times the query has been executed. */
    ghost var runs: nat

    /** The query has run once if it has been cleared, and never otherwise. */
    ghost predicate Valid()
      reads this
    {
      runs == if query.None? then 1 else 0
    }

    /** `if self.query:` */
    predicate Runnable()
      reads this
    {
      query.Some? && query.value != ""
    }

    /** The rows `fetchone` will return from now on. */
    ghost function Pending(): seq<Row>
      reads this, table.db
    {
      if Runnable() then table.db.Rows(table.name, vars) else cursor
    }

    constructor (query: string, vars: Row, table: Table)
      ensures this.query == Some(query) && this.vars == vars && this.table == table
      ensures cursor == [] && rowcount == -1 && runs == 0 && Valid()
    {
      this.query := Some(query);
      this.vars := vars;
      this.table := table;
      cursor := [];
      rowcount := -1;
      runs := 0;
    }

    /** `_execute_once`. */
    method ExecuteOnce()
      requires Valid()
      modifies this
      ensures Valid() && !Runnable() && runs <= 1
      ensures Pending() == old(Pending())
      ensures old(Runnable()) ==> runs == 1 && cursor == table.db.Rows(table.name, vars) && rowcount == |cursor|
      ensures !old(Runnable()) ==> query == old(query) && cursor == old(cursor) && rowcount == old(rowcount) && runs == old(runs)
    {
      if query.Some? && query.value != "" {
        cursor := table.db.Rows(table.name, vars);
        rowcount := |cursor|;
        query := None;
        runs := runs + 1;
      }
    }

    /** `__next__`: None stands for StopIteration. */
    method Next() returns (r: Option<Dict>)
      requires Valid()
      modifies this
      ensures Valid() && !Runnable() && runs <= 1
      ensures r.None? <==> Yielded(old(Pending())) == []
      ensures r.None? ==> Pending() == if old(Pending()) == [] then [] else old(Pending())[1..]
      ensures r.Some? ==>
        old(Pending()) != [] && Pending() == old(Pending())[1..]
        && Yielded(old(Pending())) == [old(Pending())[0]] + Yielded(Pending())
      ensures r.Some? ==>
        fresh(r.value) && r.value.inDb && r.value.table == table
        && r.value.items == table.WithReferences(old(Pending())[0])
        && r.value.snapshot == Without(old(Pending())[0], table.refs.Keys)
      ensures query == if old(Runnable()) then None else old(query)
      ensures rowcount == if old(Runnable()) then |old(Pending())| else old(rowcount)
    {
      ExecuteOnce();
      if cursor == [] {
        return None;
      }
      var d := cursor[0];
      cursor := cursor[1..];
      if d == map[] {
        return None;
      }
      var rec := table.Call(d);
      rec.inDb := true;
      return Some(rec);
    }

    /** `list(generator)` as `get_one` uses it: one record per row the
        generator yields, the first of them built from the first row; the
        rows up to and including the one that stopped it are consumed. */
    method Drain() returns (l: seq<Dict>)
      requires Valid()
      modifies this
      ensures Valid() && !Runnable()
      ensures |l| == |Yielded(old(Pending()))|
      ensures Pending() == if |l| == |old(Pending())| then [] else old(Pending())[|l| + 1..]
      ensures l != [] ==>
        fresh(l[0]) && l[0].inDb && l[0].table == table
        && l[0].items == table.WithReferences(Yielded(old(Pending()))[0])
        && l[0].snapshot == Without(Yielded(old(Pending()))[0], table.refs.Keys)
      ensures query == if old(Runnable()) then None else old(query)
      ensures rowcount == if old(Runnable()) then |old(Pending())| else old(rowcount)
    {
      ghost var rows := Pending();
      ghost var all := Yielded(rows);
      ghost var count := if Runnable() then |rows| else rowcount;
      ghost var q := if Runnable() then None else query;
      ghost var items := if all == [] then map[] else table.WithReferences(all[0]);
      ghost var snapshot := if all == [] then map[] else Without(all[0], table.refs.Keys);
      l := [];
      while true
        invariant Valid() && |l| + |Yielded(Pending())| == |all|
        invariant |l| <= |rows| && Pending() == rows[|l|..]
        invariant l != [] ==>
          all != [] && fresh(l[0]) && l[0].inDb && l[0].table == table
          && l[0].items == items && l[0].snapshot == snapshot
        invariant Runnable() ==> l == [] && q == None && count == |rows|
        invariant !Runnable() ==> query == q && rowcount == count
        decreases |rows| - |l|
      {
        var d := Next();
        if d.None? {
          assert Pending() == if |l| == |rows| then [] else rows[|l| + 1..];
          break;
        }
        l := l + [d.value];
      }
    }

    /** The end of `get_one`: `list(self)`, then insist on exactly one record. */
    method One() returns (r: Result<Dict>)
      requires Valid()
      modifies this
      ensures |Yielded(old(Pending()))| > 1 ==> r == Err(UnexpectedRows)
      ensures Yielded(old(Pending())) == [] ==> r == Err(IndexError)
      ensures |Yielded(old(Pending()))| == 1 ==>
        r.Ok? && fresh(r.value) && r.value.inDb && r.value.table == table
        && r.value.items == table.WithReferences(Yielded(old(Pending()))[0])
        && r.value.snapshot == Without(r.value.items, table.refs.Keys)
    {
      var l := Drain();
      if |l| > 1 {
        return Err(UnexpectedRows);
      }
      if l == [] {
        return Err(IndexError);
      }
      return Ok(l[0]);
    }

    /** `__len__`: 0 for sqlite3, otherwise the cursor's row count. */
    method Len() returns (n: int)
      requires Valid()
      modifies this
      ensures Valid() && !Runnable() && runs <= 1
      ensures table.db.kind == Sqlite3 ==> n == 0
      ensures table.db.kind == Postgresql ==> n == rowcount
      ensures query == if old(Runnable()) then None else old(query)
      ensures rowcount == if old(Runnable()) then |old(Pending())| else old(rowcount)
      ensures Pending() == old(Pending())
    {
      ExecuteOnce();
      if table.db.kind == Sqlite3 {
        return 0;
      }
      return rowcount;
    }
  }

  /** `Dict`: a row of `table`, whether it is stored, and the reference-free
      contents last synchronised with the database. */
  class Dict {
    const table: Table
    var inDb: bool
    var items: Row
    var snapshot: Row

    constructor (table: Table, items: Row)
      ensures this.table == table && this.items == items && !inDb
      ensures snapshot == Without(items, table.refs.Keys)
    {
      this.table := table;
      this.items := items;
      inDb := false;
      snapshot := Without(items, table.refs.Keys);
    }

    /** `remove_refs`: the entries whose key is not a reference name. */
    function RemoveRefs(): (r: Row)
      reads this, table
      ensures r.Keys == items.Keys - table.refs.Keys
      ensures forall k :: k in r ==> r[k] == items[k]
    {
      Without(items, table.refs.Keys)
    }

    /** `remove_pks`: the entries whose key is not a primary key. */
    function RemovePks(): (r: Row)
      reads this, table
      ensures forall k :: k in r <==> k in items && k !in table.pks
      ensures forall k :: k in r ==> r[k] == items[k]
    {
      map k | k in items && k !in table.pks :: items[k]
    }

    /** The statements `flush` sends, or why it refuses. */
    function WriteStatements(): (r: Result<seq<Statement>>)
      reads this, table
      ensures r.Ok? ==> |r.value| == if table.db.kind == Sqlite3 then 2 else 1
      ensures r.Ok? && !inDb ==> r.value[0].params == JsonEncoded(RemoveRefs())
    {
      if !inDb then Ok(InsertStatements(table.db.kind, table.name, RemoveRefs()))
      else if table.pks == [] then Err(NoPrimaryKey)
      else Ok(UpdateStatements(table.db.kind, table.name, table.pks, RemoveRefs(), snapshot))
    }

    /** The first half of `flush`: build the statements of the insert or
        the update (the latter refused without primary keys). */
    method BuildStatements() returns (r: Result<seq<Statement>>)
      ensures r == WriteStatements()
    {
      var cols := RemoveRefs();
      if !inDb {
        var stmts := BuildInsert(table.db.kind, table.name, cols);
        return Ok(stmts);
      }
      if table.pks == [] {
        return Err(NoPrimaryKey);
      }
      var stmts := BuildUpdate(table.db.kind, table.name, table.pks, cols, snapshot);
      return Ok(stmts);
    }

    /** `flush`: send the insert or update, then merge in the row the driver
        hands back (`fetched`; None when it returns nothing). */
    method Flush(fetched: Option<Row>) returns (r: Result<()>)
      modifies this, table.db`log
      ensures old(WriteStatements()).Err? ==> r == Err(NoPrimaryKey) && unchanged(this, table.db)
      ensures old(WriteStatements()).Ok? ==>
        table.db.log == old(table.db.log) + old(WriteStatements()).value && inDb
      ensures old(WriteStatements()).Ok? && fetched.None? ==>
        r == Err(TypeError) && unchanged(this`items, this`snapshot)
      ensures old(WriteStatements()).Ok? && fetched.Some? ==>
        r == Ok(()) && items == old(items) + fetched.value && snapshot == Without(items, table.refs.Keys)
    {
      var stmts := BuildStatements();
      if stmts.Err? {
        return Err(stmts.error);
      }
      table.db.log := table.db.log + stmts.value;
      inDb := true;
      if fetched.None? {
        return Err(TypeError);
      }
      Merge(fetched.value);
      return Ok(());
    }

    /** The end of `flush`: take in the row read back, and remember its
        reference-free contents as the last synchronised state. */
    method Merge(fetched: Row)
      modifies this`items, this`snapshot
      ensures items == old(items) + fetched
      ensures snapshot == Without(items, table.refs.Keys)
    {
      items := items + fetched;
      snapshot := RemoveRefs();
    }

    /** `delete`: a DELETE keyed by the current primary-key values. */
    method Delete()
      modifies table.db`log
      ensures table.db.log == old(table.db.log)
        + [Statement("DELETE FROM " + table.name + " WHERE " + table.PkValuePairs(" AND ", ""), items)]
    {
      var pvp := BuildColumnValuePairs(table.db.kind, Named(table.pks), " AND ", "");
      table.db.log := table.db.log + [Statement("DELETE FROM " + table.name + " WHERE " + pvp, items)];
    }

    /** `__getitem__`: resolve a reference name, writing the result back into
        the record, or look up a plain key. */
    method Get(key: string) returns (r: Result<Value>)
      requires table.db.Valid() && table in table.db.tables
      modifies this`items
      ensures (r, items) == Lookup(MaxNesting, table, old(items), key)
    {
      var (value, written) := Lookup(MaxNesting, table, items, key);
      items := written;
      r := value;
    }
  }

  /** The SELECT sqlite3 needs to read back the row just inserted. */
  function LastInsertedText(name: string): string
  {
    "SELECT * FROM " + name + " WHERE\n                        rowid = last_insert_rowid()"
  }

  /** The INSERT of `flush` for the reference-free contents `cols`, and for
      sqlite3 the SELECT that reads the new row back. */
  function InsertStatements(kind: Kind, name: string, cols: Row): (r: seq<Statement>)
    ensures |r| == if kind == Sqlite3 then 2 else 1
    ensures r[0].params == JsonEncoded(cols)
    ensures kind == Sqlite3 ==> r[1].params == map[]
  {
    var returning := if kind == Postgresql then " RETURNING *" else "";
    var insert := Statement("INSERT INTO " + name + " " + InsertColumnValuePairs(kind, cols) + returning, JsonEncoded(cols));
    if kind == Sqlite3 then [insert, Statement(LastInsertedText(name), map[])] else [insert]
  }

  /** The UPDATE of `flush`, keyed by the primary-key values last read
      (`old_`-prefixed), and for sqlite3 the SELECT that reads the row back. */
  function UpdateStatements(kind: Kind, name: string, pks: seq<string>, cols: Row, snapshot: Row): (r: seq<Statement>)
    ensures |r| == if kind == Sqlite3 then 2 else 1
    ensures kind == Sqlite3 ==> r[1].params == r[0].params
  {
    var returning := if kind == Postgresql then " RETURNING *" else "";
    var combined := JsonEncoded(cols + OldPrefixed(snapshot));
    var update := Statement("UPDATE " + name + " SET " + ColumnValuePairs(kind, Assigned(cols), ", ", "")
                            + " WHERE " + ColumnValuePairs(kind, Named(pks), " AND ", "old_") + returning, combined);
    if kind == Sqlite3
    then [update, Statement("SELECT * FROM " + name + " WHERE " + ColumnValuePairs(kind, Named(pks), " AND ", ""), combined)]
    else [update]
  }

  /** The insert branch of `flush` building its statements. */
  method BuildInsert(kind: Kind, name: string, cols: Row) returns (stmts: seq<Statement>)
    ensures stmts == InsertStatements(kind, name, cols)
  {
    var returning := if kind == Postgresql then " RETURNING *" else "";
    var d := JsonDicts(cols);
    var query := "INSERT INTO " + name + " " + InsertColumnValuePairs(kind, cols) + returning;
    stmts := [Statement(query, d)];
    if kind == Sqlite3 {
      stmts := stmts + [Statement(LastInsertedText(name), map[])];
    }
  }

  /** The update branch of `flush` building its statements. */
  method BuildUpdate(kind: Kind, name: string, pks: seq<string>, cols: Row, snapshot: Row)
    returns (stmts: seq<Statement>)
    ensures stmts == UpdateStatements(kind, name, pks, cols, snapshot)
  {
    var returning := if kind == Postgresql then " RETURNING *" else "";
    var combined := JsonDicts(cols + OldPrefixed(snapshot));
    var cvp := BuildColumnValuePairs(kind, Assigned(cols), ", ", "");
    var pvp := BuildColumnValuePairs(kind, Named(pks), " AND ", "old_");
    var query := "UPDATE " + name + " SET " + cvp + " WHERE " + pvp + returning;
    stmts := [Statement(query, combined)];
    if kind == Sqlite3 {
      var pkPairs := BuildColumnValuePairs(kind, Named(pks), " AND ", "");
      stmts := stmts + [Statement("SELECT * FROM " + name + " WHERE " + pkPairs, combined)];
    }
  }

  /** `Dict.__getitem__(key)` on a record of `t` holding `rec`: the value (or
      error) and the record's contents afterwards. */
  function Lookup(fuel: nat, t: Table, rec: Row, key: string): (r: (Result<Value>, Row))
    requires t.db.Valid() && t in t.db.tables
    reads t.db, t.db.tables
    ensures key !in t.refs ==> r.1 == rec
    ensures key in t.refs && r.0.Ok? ==> key in r.1 && r.1[key] == r.0.value
    decreases fuel, 3, 0
  {
    if key !in t.refs then
      (if key in rec then Ok(rec[key]) else Err(KeyError(key)), rec)
    else if fuel == 0 then (Err(RecursionLimit), rec)
    else
      match t.refs[key]
      case Direct(_, myColumn, target, theirColumn, many) =>
        Resolve(fuel, t, rec, key, myColumn, target, theirColumn, many, None)
      case Sub(baseRef, _, sub) =>
        if baseRef !in t.refs then (Err(KeyError(baseRef)), rec)
        else
          match t.refs[baseRef]
          case Sub(_, _, _) => (Err(ValueError), rec)
          case Direct(_, myColumn, target, theirColumn, many) =>
            Resolve(fuel, t, rec, key, myColumn, target, theirColumn, many, Some(sub))
  }

  /** The direct part of a lookup: read this record's `myColumn`, follow
      the reference with its value, and store the outcome under `key`. */
  function Resolve(fuel: nat, t: Table, rec: Row, key: string, myColumn: string,
                   target: Table, theirColumn: string, many: bool, sub: Option<string>): (r: (Result<Value>, Row))
    requires fuel > 0
    requires t.db.Valid() && t in t.db.tables && target in t.db.tables
    reads t.db, t.db.tables
    ensures r.0.Ok? ==> key in r.1 && r.1[key] == r.0.value
    decreases fuel, 2, 0
  {
    var (mine, rec1) := Lookup(fuel - 1, t, rec, myColumn);
    var out := if mine.Err? then Err(mine.error) else Follow(fuel, target, mine.value, theirColumn, many, sub);
    if out.Err? then (out, rec1) else (out, rec1[key := out.value])
  }

  /** Query `target` for rows whose `theirColumn` holds `value`, then
      project `sub` out of the result for a substratum. */
  function Follow(fuel: nat, target: Table, value: Value, theirColumn: string, many: bool,
                  sub: Option<string>): (r: Result<Value>)
    requires fuel > 0
    requires target.db.Valid() && target in target.db.tables
    reads target.db, target.db.tables
    ensures Fetch(target, map[theirColumn := value], many).Err? ==> r == Fetch(target, map[theirColumn := value], many)
    ensures sub.None? && many ==> r.Ok? && r.value.Results? && r.value.vars == map[theirColumn := value]
    ensures sub.Some? && many && r.Ok? ==> r.value.Items?
    decreases fuel, 1, 0
  {
    var wheres := map[theirColumn := value];
    var val := Fetch(target, wheres, many);
    if val.Err? then val
    else
      match sub
      case None => val
      case Some(field) =>
        if many then
          match ProjectAll(fuel, target, Yielded(target.db.Rows(target.name, wheres)), field)
          case Ok(vs) => Ok(Items(vs))
          case Err(e) => Err(e)
        else
          match val.value
          case Record(_, row) => Lookup(fuel - 1, target, row, field).0
          case _ => Err(TypeError)
  }

  /** `table.get_where(**wheres)` for a many reference; for a single one,
      `table.get_one(**wheres)` with no row read as None. */
  function Fetch(target: Table, wheres: Row, many: bool): Result<Value>
    reads target, target.db
  {
    if many then target.GetWhereQuery([], wheres)
    else
      match target.GetOneSpec([], wheres)
      case Ok(row) => Ok(Record(target.name, row))
      case Err(IndexError) => Ok(Null)
      case Err(e) => Err(e)
  }

  /** `i[field]` for one row `i` a many reference yields. */
  function Project(fuel: nat, target: Table, row: Row, field: string): (r: Result<Value>)
    requires fuel > 0
    requires target.db.Valid() && target in target.db.tables
    reads target.db, target.db.tables
    ensures field !in target.refs ==> r == if field in row then Ok(row[field]) else Err(KeyError(field))
    decreases fuel, 0, 0
  {
    Lookup(fuel - 1, target, target.WithReferences(row), field).0
  }

  /** `[i[field] for i in val]` over the rows a many reference yields. */
  function ProjectAll(fuel: nat, target: Table, rows: seq<Row>, field: string): (r: Result<seq<Value>>)
    requires fuel > 0
    requires target.db.Valid() && target in target.db.tables
    reads target.db, target.db.tables
    ensures r.Ok? ==> |r.value| == |rows|
    decreases fuel, 0, |rows| + 1
  {
    if rows == [] then Ok([])
    else
      var first := Project(fuel, target, rows[0], field);
      if first.Err? then Err(first.error)
      else
        var rest := ProjectAll(fuel, target, rows[1..], field);
        if rest.Err? then rest else Ok([first.value] + rest.value)
  }
}
