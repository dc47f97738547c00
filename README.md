# DictORM core in Dafny

DictORM maps the rows of a PostgreSQL or SQLite table to dict-like records.
This project models its single library file, `dictorm/dictorm.py`, in four
layers, and proves what each layer promises.

- **Text** (`text.dfy`). The Python built-ins the query builder leans on:
  - `str.join`;
  - the code-point order on strings;
  - `sorted` over the keys of a dict (a set) and over a list of names (duplicates kept).
- **Sql** (`sql.dfy`, properties in `sql_properties.dfy`). The SQL fragment builders:
  - `operator_kinds`;
  - `column_value_pairs`: the loop that joins one `column<op><placeholder>` piece per sorted key;
  - `insert_column_value_pairs`;
  - `json_dicts`.

  Both dialects are modelled. sqlite3 uses `:name` placeholders and writes
  list and tuple values out inline. postgresql uses `%(name)s`.
- **Orm** (`orm.dfy`, properties in `properties.dfy`). The record layer:
  - **Database**: the connection. It holds its dialect, the rows of each
    table (a store), and a log of the write statements sent through the
    shared cursor.
  - **Table**: primary keys, `order_by`, and the reference registry that
    `__setitem__` fills from the tuples `Reference.__eq__`, `__gt__` and
    `substratum` build. Also `__call__`, `get_where` and `get_one`.
  - **ResultsGenerator**: executes its query at most once, on its own
    cursor, then hands out one record per fetched row until `fetchone`
    returns nothing.
  - **Dict**: the record. It carries the `_in_db` flag and the `_old`
    snapshot. `flush` inserts or updates, `delete` deletes, and
    `__getitem__` resolves a reference name and writes the result back into
    the record.

A SELECT is modelled by what it returns: the stored rows of the table, in
stored order, that meet every condition of the WHERE. A condition compares
with `=` for a scalar, and a list or tuple matches when the column holds one
of its elements, which is what the `IN` the builder writes means when the
driver reads it as a list of values (see `Orm.Holds` below). SQL NULL never
matches. A reference lookup recurses through `self[my_column]` and through
`i[their_sub_ref]`. That recursion is bounded by `MaxNesting`, which stands
for Python's recursion limit (`RecursionLimit`).

Where the library's tests or docstrings disagree with its code, the model
follows the code:
- `get_where(v1, v2)` with fewer primary keys than values pairs them with
  `zip` and drops the extra values. It does not raise `NoPrimaryKey`.
- A single substratum whose base reference matches no row subscripts `None`,
  which raises `TypeError`. It does not give `None`.
- `delete` does not check for primary keys, although its docstring says it
  requires them. With none, its WHERE is empty.

## Model

| member | source | states |
|---|---|---|
| Text.SortedSet | dictorm/dictorm.py:68 | `sorted(d)` of a dict: each key exactly once, in strictly ascending code-point order |
| Text.SortedSeq | dictorm/dictorm.py:68 | `sorted(l)` of a list of names: the same names with the same multiplicities, ascending |
| Sql.OperatorKinds | dictorm/dictorm.py:36-39 | ` IN ` exactly when the value is a list or tuple, `=` exactly otherwise |
| Sql.SortedColumns | dictorm/dictorm.py:68 | the keys the loop visits: every key of a dict, or every name of a list with its multiplicity, ascending |
| Sql.NamedPlaceholder | dictorm/dictorm.py:72-76 | `:name` for sqlite3, `%(name)s` for postgresql |
| Sql.Render | dictorm/dictorm.py:71 | `str(i)` of an inlined element: the text of a scalar, `None` for None |
| Sql.Rendered | dictorm/dictorm.py:71 | one `str(i)` per element, in element order |
| Sql.Pairs | dictorm/dictorm.py:66-79 | one piece per key, in the order of the keys |
| Sql.BuildColumnValuePairs | dictorm/dictorm.py:42-79 | the loop builds exactly the pieces of the sorted keys joined by `join_str` |
| Sql.BuildPair | dictorm/dictorm.py:69-76 | one round of the loop produces the piece the dialect and the value call for |
| Sql.EmittedStep | dictorm/dictorm.py:77-78 | each round appends its piece, then the separator unless the piece is the last |
| Sql.Placeholders | dictorm/dictorm.py:93-101 | one placeholder per column, the i-th naming the i-th column |
| Sql.JsonEncoded | dictorm/dictorm.py:104-111 | same keys; every dict value becomes its JSON text; every other value is unchanged; no dict value is left |
| Sql.JsonDicts | dictorm/dictorm.py:104-111 | the in-place pass over the entries yields exactly `JsonEncoded(d)` |
| Sql.InsertColumnValuePairs | dictorm/dictorm.py:82-101 | an empty dict gives `() VALUES ()`; `InsertPlaceholdersLineUp` states the general form |
| SqlProperties.ColumnValuePairsEmpty | dictorm/dictorm.py:66-79 | the result is `''` exactly when the dict or list is empty |
| SqlProperties.ColumnValuePairsShape | dictorm/dictorm.py:66-79 | a non-empty result starts with the first key's piece and ends with the last key's; its length is the pieces' plus one separator per gap, so there is no leading or trailing separator |
| SqlProperties.PairForms | dictorm/dictorm.py:69-76 | postgresql pieces are `key<op>%(<prefix>key)s`; sqlite3 pieces are `key=:<prefix>key`, or `key IN (v1,...,vn)` for a list or tuple value; a list of names always uses `=` |
| SqlProperties.PiecesFollowSortedColumns | dictorm/dictorm.py:66-69 | one piece per sorted key, as many as the dict's keys or the list's names |
| SqlProperties.InsertPlaceholdersLineUp | dictorm/dictorm.py:82-101 | `(c1, ..., cn) VALUES (p1, ..., pn)`: the columns are sorted, there are as many placeholders as columns, the i-th names the i-th column, and each column is a bound parameter |
| SqlProperties.JsonEncodedIdempotent | dictorm/dictorm.py:104-111 | converting twice changes nothing more |
| Orm.Yielded | dictorm/dictorm.py:198-207 | the rows handed out are a prefix of the cursor's rows, none of them empty, and the row that stops iteration is empty or absent |
| Orm.OldPrefixed | dictorm/dictorm.py:547 | each snapshot key `k` appears as `old_k` with its value, and there is no other key |
| Orm.Reference.Eq | dictorm/dictorm.py:459-460 | `a == b` is `(a.column, b.table, b.column, False)` |
| Orm.Reference.Gt | dictorm/dictorm.py:462-463 | `a > b` is `(a.column, b.table, b.column, True)` |
| Orm.Reference.Substratum | dictorm/dictorm.py:465-466 | `r.substratum(f)` is `(r.column, r.table[r.column], f)` |
| Orm.Table.Column | dictorm/dictorm.py:438-439 | `table[column]` is the reference to that column of that table |
| Orm.Table.PkValuePairs | dictorm/dictorm.py:328-329 | for a single primary key, `pk=<placeholder of prefix+pk>`; `DeleteWithoutPrimaryKey` covers none |
| Orm.Table.constructor | dictorm/dictorm.py:288-295 | a table with the given name and primary keys, no references and no `order_by`, added to its database |
| Orm.Table.Stored | dictorm/dictorm.py:428-435 | a 3-tuple is stored unchanged; a 4-tuple becomes `(self, my_column, table, their_column, many)` |
| Orm.Table.SetItem | dictorm/dictorm.py:428-435 | the registry gains (or replaces) exactly that entry, and the database stays well formed |
| Orm.Table.WithReferences | dictorm/dictorm.py:413-416 | every reference name maps to None; every other column keeps its value; no other key is added |
| Orm.Table.AddReferences | dictorm/dictorm.py:413-416 | the loop leaves the record exactly `WithReferences` of its old contents |
| Orm.Table.Call | dictorm/dictorm.py:320-325 | a fresh record, not in the database, holding the row with every reference name None; its snapshot is the row without reference names |
| Orm.Table.OrderColumn | dictorm/dictorm.py:369-373 | `order_by` if set, else the first primary key, else none |
| Orm.Table.Filter | dictorm/dictorm.py:375-382 | a single dict argument is the filter; no positional arguments leave the keywords; `NoPrimaryKey` exactly when there are other positional arguments and no primary keys |
| Orm.Table.GetWhereQuery | dictorm/dictorm.py:369-396 | succeeds exactly when the filter does, and describes the generator for that filter's SELECT |
| Orm.Table.GetWhere | dictorm/dictorm.py:332-396 | the generator is fresh, has not yet run, carries that SELECT and filter, and will yield the matching rows; otherwise the same error |
| Orm.Table.BuildSelect | dictorm/dictorm.py:386-395 | the query text is `SelectText` of the filter, whose forms `SelectTextForms` states |
| Orm.Table.GetOne | dictorm/dictorm.py:399-410 | the outcome `GetOneSpec` describes: the only matching row as a fresh stored record whose snapshot is that row without reference names; `UnexpectedRows` for several; `IndexError` for none |
| Orm.ResultsGenerator.constructor | dictorm/dictorm.py:183-192 | an unexecuted generator on an empty cursor of its own |
| Orm.ResultsGenerator.ExecuteOnce | dictorm/dictorm.py:210-216 | runs the query only if not yet run, loads the matching rows, and clears the query, so the query runs at most once |
| Orm.ResultsGenerator.Next | dictorm/dictorm.py:198-216 | stops exactly when the next fetched row is missing or empty; otherwise hands out a fresh stored record of that row (references set to None, snapshot the row without reference names) and consumes it; the query is cleared and `rowcount` fixed by the one execution |
| Orm.ResultsGenerator.Drain | dictorm/dictorm.py:407 | `list(generator)` holds one record per yielded row, the first made from the first row with its snapshot; it consumes the yielded rows and the one that stopped it, so nothing is left when every row was yielded; query and `rowcount` as for `Next` |
| Orm.ResultsGenerator.One | dictorm/dictorm.py:407-410 | after `list()`, `UnexpectedRows` for several records, `IndexError` for none, else the one record, fresh, stored, with its snapshot |
| Orm.ResultsGenerator.Len | dictorm/dictorm.py:210-228 | 0 for sqlite3 and the cursor's row count for postgresql; the count is that of the one execution, whenever `len` is called |
| Orm.Dict.constructor | dictorm/dictorm.py:500-505 | not in the database; the snapshot is the contents without reference names |
| Orm.Dict.RemoveRefs | dictorm/dictorm.py:596-601 | exactly the entries whose key is not a reference name |
| Orm.Dict.RemovePks | dictorm/dictorm.py:587-593 | exactly the entries whose key is not a primary key |
| Orm.Dict.WriteStatements | dictorm/dictorm.py:520-567 | two statements for sqlite3 and one for postgresql; a new record binds its reference-free contents with dicts as JSON |
| Orm.InsertStatements | dictorm/dictorm.py:520-540 | the INSERT binds the JSON-converted columns; the sqlite3 read-back binds nothing |
| Orm.UpdateStatements | dictorm/dictorm.py:541-567 | one UPDATE, plus for sqlite3 a read-back bound exactly as the UPDATE |
| Orm.Lookup | dictorm/dictorm.py:604-638 | a plain key leaves the record unchanged; a resolved reference is written back under its own name |
| Orm.Resolve | dictorm/dictorm.py:612-637 | a resolved reference is written back under its own name |
| Orm.Follow | dictorm/dictorm.py:620-634 | a failing fetch fails the reference; a many reference is the unexecuted generator for `their_column=value`; a substratum over it is a list |
| Orm.Project | dictorm/dictorm.py:633-634 | `val[their_sub_ref]` of a plain field is that field of the record, KeyError when missing |
| Orm.ProjectAll | dictorm/dictorm.py:631-632 | `[i[their_sub_ref] for i in val]` has one value per row |
| Orm.Dict.BuildStatements | dictorm/dictorm.py:520-567 | the INSERT for a new record, `NoPrimaryKey` for an update without primary keys, else the UPDATE |
| Orm.BuildInsert | dictorm/dictorm.py:520-540 | the INSERT of the reference-free columns with their JSON-converted values, `RETURNING *` for postgresql, then the sqlite3 read-back |
| Orm.BuildUpdate | dictorm/dictorm.py:541-567 | the UPDATE that sets the columns and keys the WHERE on the `old_` primary keys, then the sqlite3 read-back on the current keys |
| Orm.Dict.Flush | dictorm/dictorm.py:508-572 | `NoPrimaryKey` with nothing sent or changed; otherwise the statements are logged and the record is in the database; the fetched row is merged in and the snapshot reset, or `TypeError` when there is no row |
| Orm.Dict.Merge | dictorm/dictorm.py:569-571 | the returned row overrides the record's values and keeps the keys it lacks; the snapshot becomes the new reference-free contents |
| Orm.Dict.Delete | dictorm/dictorm.py:575-584 | logs a DELETE keyed on the primary keys, bound to the whole record |
| Orm.Dict.Get | dictorm/dictorm.py:604-638 | returns and writes back exactly what the lookup specifies |
| OrmProperties.SelectMatches | dictorm/dictorm.py:386-396 | every selected row meets the WHERE, and every stored row that meets it is selected |
| OrmProperties.YieldedMatch | dictorm/dictorm.py:198-207 | every row a generator hands out meets its filter |
| OrmProperties.ZipMapKeys | dictorm/dictorm.py:382 | `dict(zip(pks, a))` binds exactly the keys among the first min(len(pks), len(a)) |
| OrmProperties.ZipMapLastWins | dictorm/dictorm.py:382 | a key gets the value at its last paired position |
| OrmProperties.ZipMapDropsExtra | dictorm/dictorm.py:382 | values beyond the number of keys are ignored |
| OrmProperties.GetWherePositional | dictorm/dictorm.py:375-382 | with distinct primary keys and enough values, the filter binds exactly the primary keys, each to its value in order; the keywords and extra values are ignored |
| OrmProperties.PlainColumn | dictorm/dictorm.py:638 | a non-reference key is read as stored, KeyError when missing, and the record is unchanged |
| OrmProperties.LookupIgnoresReferenceEntries | dictorm/dictorm.py:609-611 | a lookup's result depends only on the columns that are not reference names |
| OrmProperties.ResolveIgnoresReferenceEntries | dictorm/dictorm.py:620-634 | the same, for following one reference |
| OrmProperties.NotACache | dictorm/dictorm.py:609-611 | whatever is stored under a reference name, reading it resolves afresh to the same value |
| OrmProperties.LookupWritesOnlyReferences | dictorm/dictorm.py:604-638 | a lookup changes only entries under reference names and adds no other key |
| OrmProperties.ResolveWritesOnlyReferences | dictorm/dictorm.py:620-637 | the same, for following one reference |
| OrmProperties.LookupResult | dictorm/dictorm.py:612-636 | a resolved reference is stored under its name; a reference met with no nesting left fails with `RecursionLimit` |
| OrmProperties.ManyReference | dictorm/dictorm.py:620-623 | a many reference is the unexecuted `get_where(their_column=value)`, written back, and every row it yields holds the value |
| OrmProperties.SingleReference | dictorm/dictorm.py:624-629 | a single reference is None for no matching row, that row's record for one, `UnexpectedRows` for several |
| OrmProperties.MissingColumn | dictorm/dictorm.py:620-621 | a reference whose own column is missing raises KeyError and writes nothing |
| OrmProperties.SubstratumErrors | dictorm/dictorm.py:612-634 | KeyError for an unregistered base, ValueError for a base that is itself a substratum, TypeError over a single base with no row |
| OrmProperties.ProjectAllOk | dictorm/dictorm.py:632 | a projection has one value per row, each the field of that row's record, in order |
| OrmProperties.ProjectAllErr | dictorm/dictorm.py:632 | the first row whose field lookup fails fails the projection with its error |
| OrmProperties.SubstratumOverSingle | dictorm/dictorm.py:624-636 | a substratum over a single reference with one matching row is the field of that row's record, written back under the substratum's name; several rows give `UnexpectedRows` |
| OrmProperties.SubstratumOverMany | dictorm/dictorm.py:631-632 | a substratum over a many reference is the list of the field over the rows yielded, in order |
| OrmProperties.DeclaredReferences | dictorm/dictorm.py:428-466 | `a[x] == b[y]`, `a[x] > b[y]` and `a[x].substratum(f)` register the single, many and substratum reference they describe |
| OrmProperties.FetchOutcomes | dictorm/dictorm.py:622-629 | a many reference fetches the unexecuted generator; a single one None exactly for no row, `UnexpectedRows` exactly for several, else the row's record |
| OrmProperties.SelectTextForms | dictorm/dictorm.py:369-395 | the SELECT text: `WHERE` with a non-empty condition list exactly for a non-empty filter; `ORDER BY` the non-empty `order_by`, else the first primary key, else nothing |
| OrmProperties.GetOneOutcomes | dictorm/dictorm.py:399-410 | `NoPrimaryKey` exactly when the filter fails; `UnexpectedRows` exactly for several rows; `IndexError` exactly for none; else the record of the one row, which meets the filter |
| OrmProperties.InsertBindings | dictorm/dictorm.py:520-540 | the INSERT binds every non-reference column, with dicts as JSON; sqlite3 then reads the row back; postgresql uses one statement |
| OrmProperties.UpdateBindings | dictorm/dictorm.py:541-567 | the UPDATE binds the new non-reference values and the snapshot values under `old_` names, which win on a clash; sqlite3 reads back with the same bindings |
| OrmProperties.UpdateNeedsPrimaryKey | dictorm/dictorm.py:541-545 | a flush is refused with `NoPrimaryKey` exactly for a stored record of a table without primary keys |
| OrmProperties.DeleteWithoutPrimaryKey | dictorm/dictorm.py:328-329 | with no primary keys the WHERE of `delete` is empty |

## Left out

- Connection setup and schema reading are not modelled: `DictDB.__init__`,
  `_list_tables`, `refresh_tables`, `Table._set_pks` and `Table.count` are
  I/O. The dialect is a two-valued datatype. The primary keys are a
  constructor argument, where the code reads them from the schema.
- Executing statements is not modelled. The driver, `curs.execute` and
  the cursors are replaced by a row store and a statement log. A SELECT
  yields the matching rows in stored order. ORDER BY appears only in the
  query text; no sorting is modelled.
- Each generator's own cursor is an independent sequence of rows. No
  concurrency is modelled.
- `flush` reads back the row the driver returns. That row is the `fetched`
  parameter of `Orm.Dict.Flush`.
- `json.dumps` is a foreign call. Its result is the value `Json(doc)`,
  standing for the JSON text of `doc`.
- Sql.Render: `str()` of an inlined list element is exact only for scalars
  and None. Nested values render as placeholder text.
- Python's recursion limit is the fixed depth `MaxNesting`.
- Object identity is not modelled. A record resolved through a reference is
  stored as a value: the table name and the row of the `Dict` that
  `get_one` makes, or a description of the unexecuted `ResultsGenerator`
  that `get_where` returns. Both are snapshots, not shared objects.
- Orm.ResultsGenerator.Drain: states the first record and the count, not
  every record. `get_one` only needs these.
- Orm.Holds: a list or tuple condition matches a column holding one of its
  elements. For sqlite3 the code writes the elements into the SQL text as
  unquoted `str(i)`, so a string element is read as an identifier or as SQL,
  not as a value; and psycopg2 binds a Python list as an ARRAY, so for
  postgresql `IN` works only with a tuple. The model compares by value in
  both cases.
- Sql.Value: a scalar is its `str()` text (`Atom`), so scalars that print
  the same (`1` and `'1'`, `True` and `'True'`) are one value. The code
  only distinguishes containers from scalars.
- Database-native errors are not modelled (constraint violations, bad
  columns, parameters no placeholder names).
- The asynchronous variant is not part of this model.
