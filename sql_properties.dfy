/** What the query builder promises: `column_value_pairs` is a join of one
    piece per sorted column, each piece uses the operator and placeholder of
    its dialect, and the INSERT fragment names one placeholder per column,
    in column order. */
module SqlProperties {
  import opened Text
  import opened Sql

  /** `column_value_pairs` is empty exactly for an empty mapping or list. */
  lemma ColumnValuePairsEmpty(kind: Kind, c: Columns, joinStr: string, prefix: string)
    ensures SortedColumns(c) == [] <==> (c.Assigned? && c.values == map[]) || (c.Named? && c.names == [])
    ensures ColumnValuePairs(kind, c, joinStr, prefix) == "" <==> SortedColumns(c) == []
  {
    var keys := SortedColumns(c);
    if c.Assigned? && c.values != map[] {
      var k :| k in c.values;
      assert k in keys;
    }
    if c.Named? && c.names != [] {
      assert |multiset(keys)| == |multiset(c.names)|;
    }
    if keys != [] {
      var pieces := Pairs(kind, c, keys, prefix);
      JoinShape(joinStr, pieces);
      assert pieces[0] == keys[0] + OperatorKinds(IsSequenceEntry(c, keys[0]))
        + Placeholder(kind, c, keys[0], prefix);
    }
  }

  /** Otherwise it starts with the first column's piece, ends with the last
      column's, and holds one separator between neighbouring pieces and no
      other. */
  lemma ColumnValuePairsShape(kind: Kind, c: Columns, joinStr: string, prefix: string)
    requires SortedColumns(c) != []
    ensures var keys := SortedColumns(c);
      var r := ColumnValuePairs(kind, c, joinStr, prefix);
      var first := Pair(kind, c, keys[0], prefix);
      var last := Pair(kind, c, keys[|keys| - 1], prefix);
      first <= r && |last| <= |r| && r[|r| - |last|..] == last
      && |r| == TotalLength(Pairs(kind, c, keys, prefix)) + (|keys| - 1) * |joinStr|
  {
    var keys := SortedColumns(c);
    var pieces := Pairs(kind, c, keys, prefix);
    var r := ColumnValuePairs(kind, c, joinStr, prefix);
    assert r == Join(joinStr, pieces);
    JoinShape(joinStr, pieces);
    assert pieces[0] == Pair(kind, c, keys[0], prefix);
    var last := pieces[|pieces| - 1];
    assert last == Pair(kind, c, keys[|keys| - 1], prefix);
    assert r[|r| - |last|..] == last;
  }

  /** Each piece is `column<op><placeholder>`: `%(<prefix>column)s` for
      postgresql; for sqlite3 `:<prefix>column`, except that a list or tuple
      value is compared with ` IN ` against its elements written out. A list
      of names, such as the primary keys, always compares with `=`. */
  lemma PairForms(kind: Kind, c: Columns, key: string, prefix: string)
    ensures kind == Postgresql ==>
      Pair(kind, c, key, prefix) == key + OperatorKinds(IsSequenceEntry(c, key)) + "%(" + prefix + key + ")s"
    ensures kind == Sqlite3 && !IsSequenceEntry(c, key) ==>
      Pair(kind, c, key, prefix) == key + "=" + ":" + prefix + key
    ensures kind == Sqlite3 && IsSequenceEntry(c, key) ==>
      Pair(kind, c, key, prefix) == key + " IN " + "(" + Join(",", Rendered(c.values[key].elems)) + ")"
    ensures c.Named? ==> Pair(kind, c, key, prefix) == key + "=" + NamedPlaceholder(kind, prefix + key)
    ensures IsSequenceEntry(c, key) <==> c.Assigned? && key in c.values && c.values[key].Items?
  {
    assert ":" + (prefix + key) == ":" + prefix + key;
    assert "%(" + (prefix + key) + ")s" == "%(" + prefix + key + ")s";
  }

  /** The pieces follow the columns in ascending order, one per column: a
      dict contributes each key once, a list of names each name as often as
      it occurs. */
  lemma PiecesFollowSortedColumns(kind: Kind, c: Columns, prefix: string)
    ensures var keys := SortedColumns(c);
      var pieces := Pairs(kind, c, keys, prefix);
      |pieces| == |keys| && Ascending(keys)
      && (c.Assigned? ==> |keys| == |c.values|)
      && (c.Named? ==> |keys| == |c.names|)
      && forall i :: 0 <= i < |keys| ==> pieces[i] == Pair(kind, c, keys[i], prefix)
  {
    var keys := SortedColumns(c);
    if c.Assigned? {
      assert keys == SortedSet(c.values.Keys);
    } else {
      assert |multiset(keys)| == |multiset(c.names)|;
    }
  }

  /** The INSERT fragment lists the sorted columns and then as many
      placeholders, the i-th naming the i-th column, and every column is one
      the bound parameters (`json_dicts(d)`) supply. */
  lemma InsertPlaceholdersLineUp(kind: Kind, d: Row)
    ensures var cols := SortedSet(d.Keys);
      var ps := Placeholders(kind, cols);
      InsertColumnValuePairs(kind, d) == "(" + Join(", ", cols) + ") VALUES (" + Join(", ", ps) + ")"
      && |ps| == |cols| == |d|
      && (forall i :: 0 <= i < |cols| ==>
            cols[i] in JsonEncoded(d)
            && ps[i] == (if kind == Sqlite3 then ":" + cols[i] else "%(" + cols[i] + ")s"))
      && (forall k :: k in d ==> k in cols)
  {
  }

  /** `json_dicts` leaves no dict behind and touches nothing else: applying
      it twice changes nothing more. */
  lemma JsonEncodedIdempotent(d: Row)
    ensures JsonEncoded(JsonEncoded(d)) == JsonEncoded(d)
  {
    var once := JsonEncoded(d);
    assert forall k :: k in once ==> JsonValue(once[k]) == once[k];
  }
}
