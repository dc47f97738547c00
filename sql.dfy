/** The query builder of dictorm: the values a row holds, the two placeholder
    dialects, and the SQL fragments built from a mapping of column to value
    (`operator_kinds`, `column_value_pairs`, `insert_column_value_pairs`)
    together with the JSON conversion applied before binding (`json_dicts`). */
module Sql {
  import opened Text

  /** The database dialect (`DictDB.kind`): only these two are supported. */
  datatype Kind = Sqlite3 | Postgresql

  /** A Python value as it appears in a row, a filter or a bound parameter. */
  datatype Value =
    | Null                                   // None, SQL NULL
    | Atom(text: string)                     // a scalar; `text` is what str() gives for it
    | Items(elems: seq<Value>)               // a list or a tuple
    | Mapping(fields: map<string, Value>)    // a dict (a semi-structured column)
    | Json(doc: map<string, Value>)          // the string json.dumps produced for `doc`
    | Record(table: string, fields: map<string, Value>)   // a Dict of that table
    | Results(table: string, query: string, vars: map<string, Value>)  // an unexecuted ResultsGenerator

  /** A row, a filter, a record's contents: column name to value. */
  type Row = map<string, Value>

  /** str() of a list element inlined by the sqlite3 dialect. */
  function Render(v: Value): (r: string)
    ensures v.Atom? ==> r == v.text
    ensures v.Null? ==> r == "None"
  {
    match v
    case Null => "None"
    case Atom(t) => t
    case Items(_) => "[...]"
    case Mapping(_) => "{...}"
    case Json(_) => "{json}"
    case Record(_, _) => "{...}"
    case Results(_, _, _) => "<ResultsGenerator>"
  }

  /** `operator_kinds`: membership for a list or tuple, equality otherwise. */
  function OperatorKinds(isSequence: bool): (op: string)
    ensures op == " IN " <==> isSequence
    ensures op == "=" <==> !isSequence
  {
    if isSequence then " IN " else "="
  }

  /** The argument of `column_value_pairs`: a dict of column to value, or a
      list of column names (as `Table.pks` is passed). */
  datatype Columns = Assigned(values: Row) | Named(names: seq<string>)

  /** `sorted(d)`: the dict's keys, or the list's names with duplicates, ascending. */
  function SortedColumns(c: Columns): (keys: seq<string>)
    ensures c.Assigned? ==> forall k :: k in keys <==> k in c.values
    ensures c.Named? ==> multiset(keys) == multiset(c.names)
    ensures Ascending(keys)
  {
    match c
    case Assigned(m) =>
      var ks := SortedSet(m.Keys);
      assert forall i, j :: 0 <= i < j < |ks| ==> Below(ks[i], ks[j]);
      forall i, j | 0 <= i < j < |ks| ensures !Below(ks[j], ks[i]) {
        BelowAsymmetric(ks[i], ks[j]);
      }
      ks
    case Named(ns) => SortedSeq(ns)
  }

  /** True when the entry for `key` is a list or tuple value of a dict. */
  predicate IsSequenceEntry(c: Columns, key: string)
  {
    c.Assigned? && key in c.values && c.values[key].Items?
  }

  /** A named placeholder: `:name` for sqlite3, `%(name)s` for postgresql. */
  function NamedPlaceholder(kind: Kind, name: string): (p: string)
    ensures kind == Sqlite3 ==> p == ":" + name
    ensures kind == Postgresql ==> p == "%(" + name + ")s"
  {
    match kind
    case Sqlite3 => ":" + name
    case Postgresql => "%(" + name + ")s"
  }

  /** One `column<op><placeholder>` piece of `column_value_pairs`. */
  function Pair(kind: Kind, c: Columns, key: string, prefix: string): string
  {
    key + OperatorKinds(IsSequenceEntry(c, key)) + Placeholder(kind, c, key, prefix)
  }

  /** The placeholder of a piece: a list or tuple is inlined as `(v1,v2,...)`
      for sqlite3; everything else gets a named placeholder. */
  function Placeholder(kind: Kind, c: Columns, key: string, prefix: string): string
  {
    if kind == Sqlite3 && IsSequenceEntry(c, key)
    then "(" + Join(",", Rendered(c.values[key].elems)) + ")"
    else NamedPlaceholder(kind, prefix + key)
  }

  /** `[str(i) for i in items]`. */
  function Rendered(items: seq<Value>): (r: seq<string>)
    ensures |r| == |items|
    ensures forall i :: 0 <= i < |items| ==> r[i] == Render(items[i])
  {
    seq(|items|, i requires 0 <= i < |items| => Render(items[i]))
  }

  /** The pieces for `keys`, in the order given. */
  function Pairs(kind: Kind, c: Columns, keys: seq<string>, prefix: string): (r: seq<string>)
    ensures |r| == |keys|
    ensures forall i :: 0 <= i < |keys| ==> r[i] == Pair(kind, c, keys[i], prefix)
  {
    seq(|keys|, i requires 0 <= i < |keys| => Pair(kind, c, keys[i], prefix))
  }

  /** What `column_value_pairs(kind, d, join_str, prefix)` returns: one piece per
      sorted key, joined by `join_str`. */
  function ColumnValuePairs(kind: Kind, c: Columns, joinStr: string, prefix: string): string
  {
    Join(joinStr, Pairs(kind, c, SortedColumns(c), prefix))
  }

  /** `column_value_pairs` as the source runs it: a loop over the sorted keys
      that appends each piece, and the separator after every piece but the last. */
  method BuildColumnValuePairs(kind: Kind, c: Columns, joinStr: string, prefix: string)
    returns (ret: string)
    ensures ret == Join(joinStr, Pairs(kind, c, SortedColumns(c), prefix))
  {
    ret := "";
    var keys := SortedColumns(c);
    ghost var pieces := Pairs(kind, c, keys, prefix);
    var finalItem := |keys| - 1;
    for idx := 0 to |keys|
      invariant ret == Emitted(joinStr, pieces, idx)
    {
      var piece := BuildPair(kind, c, keys[idx], prefix);
      assert piece == pieces[idx];
      EmittedStep(joinStr, pieces, idx);
      ret := ret + piece;
      if idx != finalItem {
        ret := ret + joinStr;
      }
    }
  }

  /** One round of the loop of `column_value_pairs`: the piece for `key`,
      with the placeholder the dialect calls for. */
  method BuildPair(kind: Kind, c: Columns, key: string, prefix: string) returns (piece: string)
    ensures piece == Pair(kind, c, key, prefix)
  {
    var seqValue := IsSequenceEntry(c, key);
    var placeholder: string;
    if kind == Sqlite3 {
      if seqValue {
        placeholder := "(" + Join(",", Rendered(c.values[key].elems)) + ")";
      } else {
        placeholder := ":" + (prefix + key);
      }
    } else {
      placeholder := "%(" + (prefix + key) + ")s";
    }
    piece := key + OperatorKinds(seqValue) + placeholder;
  }

  /** What the loop of `column_value_pairs` has built after `n` of the pieces. */
  ghost function Emitted(sep: string, parts: seq<string>, n: nat): string
    requires n <= |parts|
  {
    if n == 0 then ""
    else if n < |parts| then Join(sep, parts[..n]) + sep
    else Join(sep, parts)
  }

  /** One more round of the loop appends the next piece, then the separator
      unless that piece was the last. */
  lemma EmittedStep(sep: string, parts: seq<string>, n: nat)
    requires n < |parts|
    ensures Emitted(sep, parts, n + 1)
      == Emitted(sep, parts, n) + parts[n] + (if n + 1 < |parts| then sep else "")
  {
    assert parts[..n + 1] == parts[..n] + [parts[n]];
    JoinSnoc(sep, parts[..n], parts[n]);
    if n + 1 == |parts| { assert parts[..n + 1] == parts; }
  }

  /** The placeholders of an INSERT, one per column, in column order. */
  function Placeholders(kind: Kind, cols: seq<string>): (r: seq<string>)
    ensures |r| == |cols|
    ensures forall i :: 0 <= i < |cols| ==> r[i] == NamedPlaceholder(kind, cols[i])
  {
    seq(|cols|, i requires 0 <= i < |cols| => NamedPlaceholder(kind, cols[i]))
  }

  /** `insert_column_value_pairs(kind, d)`: `(c1, ..., cn) VALUES (p1, ..., pn)`. */
  function InsertColumnValuePairs(kind: Kind, d: Row): (r: string)
    ensures d == map[] ==> r == "() VALUES ()"
  {
    var cols := SortedSet(d.Keys);
    "(" + Join(", ", cols) + ") VALUES (" + Join(", ", Placeholders(kind, cols)) + ")"
  }

  /** The value `json_dicts` leaves in place of `v`. */
  function JsonValue(v: Value): Value
  {
    if v.Mapping? then Json(v.fields) else v
  }

  /** What `json_dicts(d)` turns `d` into: every dict value replaced by its JSON text. */
  function JsonEncoded(d: Row): (r: Row)
    ensures r.Keys == d.Keys
    ensures forall k :: k in r ==> !r[k].Mapping?
    ensures forall k :: k in d && d[k].Mapping? ==> r[k] == Json(d[k].fields)
    ensures forall k :: k in d && !d[k].Mapping? ==> r[k] == d[k]
  {
    map k | k in d :: JsonValue(d[k])
  }

  /** `json_dicts` as the source runs it: a pass over the entries that
      rewrites each dict value in place. */
  method JsonDicts(d: Row) returns (r: Row)
    ensures r == JsonEncoded(d)
  {
    r := d;
    var todo := d.Keys;
    while todo != {}
      invariant todo <= d.Keys && r.Keys == d.Keys
      invariant forall k :: k in d && k !in todo ==> r[k] == JsonValue(d[k])
      invariant forall k :: k in todo ==> r[k] == d[k]
      decreases todo
    {
      var key :| key in todo;
      if d[key].Mapping? {
        r := r[key := Json(d[key].fields)];
      }
      todo := todo - {key};
    }
  }
}
