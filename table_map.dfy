/**
 * The start-up scan of the configured databases in `Mysql.start_sync`: the schema to tables map,
 * the table list, and the tables whose deletes are skipped because their primary key cannot
 * identify a row.
 */
module TableMap {
  import opened Wrappers
  import opened Events
  import opened PrimaryKey
  import opened Transformer

  /** One entry of the `databases` configuration: a database name and its table names. */
  datatype DatabaseConfig = DatabaseConfig(name: string, tables: seq<string>)

  /** A configured (database, table) pair. */
  datatype TableRef = TableRef(schema: string, table: string)

  /** The primary-key catalog query: COLUMN_NAME values for (database, table), in result order. */
  type Catalog = (string, string) -> seq<string>

  /** `self.databases`, the database names of the configuration (the `only_schemas` filter). */
  function DatabaseNames(dbs: seq<DatabaseConfig>): seq<string>
  {
    seq(|dbs|, i requires 0 <= i < |dbs| => dbs[i].name)
  }

  /** The pairs of one database's tables, in configuration order. */
  function RefsOf(name: string, tables: seq<string>): seq<TableRef>
  {
    seq(|tables|, j requires 0 <= j < |tables| => TableRef(name, tables[j]))
  }

  /** The (database, table) pairs in the order the nested loops of the scan visit them. */
  function Entries(dbs: seq<DatabaseConfig>): seq<TableRef>
  {
    if dbs == [] then []
    else Entries(dbs[..|dbs| - 1]) + RefsOf(dbs[|dbs| - 1].name, dbs[|dbs| - 1].tables)
  }

  /** `schema_tables.setdefault(db, []).append(table)` */
  function Register(m: map<string, seq<string>>, ref: TableRef): map<string, seq<string>>
  {
    m[ref.schema := (if ref.schema in m then m[ref.schema] else []) + [ref.table]]
  }

  /** `schema_tables` after the scan has visited `refs`. */
  function SchemaMap(refs: seq<TableRef>): map<string, seq<string>>
  {
    if refs == [] then map[] else Register(SchemaMap(refs[..|refs| - 1]), refs[|refs| - 1])
  }

  /** `tables` after the scan has visited `refs`. */
  function TableNames(refs: seq<TableRef>): seq<string>
  {
    seq(|refs|, k requires 0 <= k < |refs| => refs[k].table)
  }

  /** `not pk or isinstance(pk, tuple)` for the key the catalog reports for `ref`. */
  predicate Unsafe(catalog: Catalog, ref: TableRef)
  {
    NeedsAutoSkip(GetPrimaryKey(catalog(ref.schema, ref.table)))
  }

  /** The `"db.table"` names the scan adds to `skip_delete_tables` after visiting `refs`. */
  function AutoSkipped(refs: seq<TableRef>, catalog: Catalog): set<string>
  {
    if refs == [] then {}
    else
      var last := refs[|refs| - 1];
      AutoSkipped(refs[..|refs| - 1], catalog) +
        (if Unsafe(catalog, last) then {QualifiedName(last.schema, last.table)} else {})
  }

  /** One more database visited: its tables follow those of the databases before it. */
  lemma EntriesStep(dbs: seq<DatabaseConfig>, i: nat)
    requires i < |dbs|
    ensures Entries(dbs[..i + 1]) == Entries(dbs[..i]) + RefsOf(dbs[i].name, dbs[i].tables)
  {
    assert dbs[..i + 1][..i] == dbs[..i] && dbs[..i + 1][i] == dbs[i];
  }

  /** One more table of the same database visited. */
  lemma RefsOfStep(done: seq<TableRef>, name: string, tables: seq<string>, j: nat)
    requires j < |tables|
    ensures done + RefsOf(name, tables[..j + 1]) == (done + RefsOf(name, tables[..j])) + [TableRef(name, tables[j])]
  {
    var r := RefsOf(name, tables[..j]);
    assert RefsOf(name, tables[..j + 1]) == r + [TableRef(name, tables[j])];
    assert done + (r + [TableRef(name, tables[j])]) == (done + r) + [TableRef(name, tables[j])];
  }

  /** One more table visited: the map, the list and the auto-skipped names each take one step. */
  lemma ScanStep(done: seq<TableRef>, entry: TableRef, catalog: Catalog, base: set<string>)
    ensures SchemaMap(done + [entry]) == Register(SchemaMap(done), entry)
    ensures TableNames(done + [entry]) == TableNames(done) + [entry.table]
    ensures Unsafe(catalog, entry) ==>
      base + AutoSkipped(done + [entry], catalog) == base + AutoSkipped(done, catalog) + {QualifiedName(entry.schema, entry.table)}
    ensures !Unsafe(catalog, entry) ==>
      base + AutoSkipped(done + [entry], catalog) == base + AutoSkipped(done, catalog)
  {
    var next := done + [entry];
    assert next[..|next| - 1] == done && next[|next| - 1] == entry;
  }

  // ---- properties of the scan ----

  /** The scan visits exactly the configured tables. */
  lemma {:induction false} EntriesIff(dbs: seq<DatabaseConfig>, ref: TableRef)
    ensures ref in Entries(dbs) <==>
      exists i :: 0 <= i < |dbs| && dbs[i].name == ref.schema && ref.table in dbs[i].tables
    decreases |dbs|
  {
    if dbs != [] {
      var init := dbs[..|dbs| - 1];
      var last := dbs[|dbs| - 1];
      EntriesIff(init, ref);
      if ref in RefsOf(last.name, last.tables) {
        var j :| 0 <= j < |last.tables| && RefsOf(last.name, last.tables)[j] == ref;
      }
      if exists i :: 0 <= i < |dbs| && dbs[i].name == ref.schema && ref.table in dbs[i].tables {
        var i :| 0 <= i < |dbs| && dbs[i].name == ref.schema && ref.table in dbs[i].tables;
        if i < |init| {
          assert init[i] == dbs[i];
        } else {
          var j :| 0 <= j < |last.tables| && last.tables[j] == ref.table;
          assert RefsOf(last.name, last.tables)[j] == ref;
        }
      }
    }
  }

  /**
   * A schema is a key of `schema_tables` iff some visited table belongs to it; its list is then
   * non-empty and holds exactly the tables visited for it.
   */
  lemma {:induction false} SchemaMapIff(refs: seq<TableRef>, schema: string, table: string)
    ensures schema in SchemaMap(refs) <==> exists k :: 0 <= k < |refs| && refs[k].schema == schema
    ensures schema in SchemaMap(refs) ==>
      SchemaMap(refs)[schema] != [] &&
      (table in SchemaMap(refs)[schema] <==> TableRef(schema, table) in refs)
    decreases |refs|
  {
    if refs != [] {
      var init := refs[..|refs| - 1];
      var last := refs[|refs| - 1];
      SchemaMapIff(init, schema, table);
      assert refs == init + [last];
      if exists k :: 0 <= k < |refs| && refs[k].schema == schema {
        var k :| 0 <= k < |refs| && refs[k].schema == schema;
        if k < |init| { assert init[k] == refs[k]; }
      }
      if exists k :: 0 <= k < |init| && init[k].schema == schema {
        var k :| 0 <= k < |init| && init[k].schema == schema;
        assert refs[k] == init[k];
      }
    }
  }

  /** Exactly the visited tables whose key is absent or composite are auto-skipped, under their `"db.table"` name. */
  lemma {:induction false} AutoSkippedIff(refs: seq<TableRef>, catalog: Catalog, name: string)
    ensures name in AutoSkipped(refs, catalog) <==>
      exists k :: 0 <= k < |refs| && Unsafe(catalog, refs[k]) && QualifiedName(refs[k].schema, refs[k].table) == name
    decreases |refs|
  {
    if refs != [] {
      var init := refs[..|refs| - 1];
      AutoSkippedIff(init, catalog, name);
      if exists k :: 0 <= k < |refs| && Unsafe(catalog, refs[k]) && QualifiedName(refs[k].schema, refs[k].table) == name {
        var k :| 0 <= k < |refs| && Unsafe(catalog, refs[k]) && QualifiedName(refs[k].schema, refs[k].table) == name;
        if k < |init| { assert init[k] == refs[k]; }
      }
      if exists k :: 0 <= k < |init| && Unsafe(catalog, init[k]) && QualifiedName(init[k].schema, init[k].table) == name {
        var k :| 0 <= k < |init| && Unsafe(catalog, init[k]) && QualifiedName(init[k].schema, init[k].table) == name;
        assert refs[k] == init[k];
      }
    }
  }

  /**
   * Once the auto-skipped names are in `skip_delete_tables`, a delete event on a configured
   * table with no primary key or a composite one yields nothing, whatever else is configured.
   */
  lemma AutoSkippedDeletesDropped(dbs: seq<DatabaseConfig>, catalog: Catalog, i: nat, j: nat,
                                  policy: SkipPolicy, rows: seq<Row>, convert: Converter)
    requires i < |dbs| && j < |dbs[i].tables|
    requires Unsafe(catalog, TableRef(dbs[i].name, dbs[i].tables[j]))
    requires AutoSkipped(Entries(dbs), catalog) <= policy.deleteTables
    ensures Transform(DeleteRowsEvent(dbs[i].name, dbs[i].tables[j], rows), policy, convert) == []
  {
    var ref := TableRef(dbs[i].name, dbs[i].tables[j]);
    EntriesIff(dbs, ref);
    var refs := Entries(dbs);
    var k :| 0 <= k < |refs| && refs[k] == ref;
    AutoSkippedIff(refs, catalog, QualifiedName(ref.schema, ref.table));
  }

  /**
   * The scan extends only `skip_delete_tables`. With the configured skip sets `dmls`, `del` and
   * `upd`, and the auto-skipped names added to `del`, a delete on a configured table with no
   * usable key yields nothing, while an update on that same table is still split into a delete
   * and an insert per row, as long as the configuration did not skip its updates.
   */
  lemma AutoSkipKeepsUpdates(dbs: seq<DatabaseConfig>, catalog: Catalog, i: nat, j: nat,
                             dmls: set<string>, del: set<string>, upd: set<string>,
                             rows: seq<Row>, updates: seq<UpdateRow>, convert: Converter)
    requires i < |dbs| && j < |dbs[i].tables|
    requires Unsafe(catalog, TableRef(dbs[i].name, dbs[i].tables[j]))
    requires !SkipsUpdates(SkipPolicy(dmls, del, upd), dbs[i].name, dbs[i].tables[j])
    ensures var post := SkipPolicy(dmls, del + AutoSkipped(Entries(dbs), catalog), upd);
      && Transform(DeleteRowsEvent(dbs[i].name, dbs[i].tables[j], rows), post, convert) == []
      && |Transform(UpdateRowsEvent(dbs[i].name, dbs[i].tables[j], updates), post, convert)| == 2 * |updates|
  {
    var post := SkipPolicy(dmls, del + AutoSkipped(Entries(dbs), catalog), upd);
    AutoSkippedDeletesDropped(dbs, catalog, i, j, post, rows, convert);
  }

  // ---- the skip collection as the configuration delivers it ----

  /** The Python object behind `skip_delete_tables`: a list (the default, or a configured list) or a set. */
  datatype PyCollection = PyList(items: seq<string>) | PySet(members: set<string>)

  /** The error `list.add` raises. */
  datatype PyError = AttributeError

  predicate IsEmpty(c: PyCollection)
  {
    match c
    case PyList(items) => items == []
    case PySet(members) => members == {}
  }

  /** `source_db.get("skip_delete_tables") or []` */
  function ConfiguredOrEmpty(configured: Option<PyCollection>): PyCollection
  {
    if configured.None? || IsEmpty(configured.value) then PyList([]) else configured.value
  }

  /** `collection.add(name)`: a set grows, a list has no `add`. */
  function PyAdd(c: PyCollection, name: string): Result<PyCollection, PyError>
  {
    match c
    case PyList(_) => Err(AttributeError)
    case PySet(members) => Ok(PySet(members + {name}))
  }

  /** The scan's `self.skip_delete_tables.add(...)` calls as written, on whatever collection was configured. */
  function AutoSkipAsWritten(c: PyCollection, refs: seq<TableRef>, catalog: Catalog): Result<PyCollection, PyError>
  {
    if refs == [] then Ok(c)
    else
      var last := refs[|refs| - 1];
      match AutoSkipAsWritten(c, refs[..|refs| - 1], catalog)
      case Err(e) => Err(e)
      case Ok(c') => if Unsafe(catalog, last) then PyAdd(c', QualifiedName(last.schema, last.table)) else Ok(c')
  }

  /** As written, the scan raises as soon as the collection is a list and one table has an unusable key. */
  lemma {:induction false} AsWrittenFailsOnList(items: seq<string>, refs: seq<TableRef>, catalog: Catalog, k: nat)
    requires k < |refs| && Unsafe(catalog, refs[k])
    ensures AutoSkipAsWritten(PyList(items), refs, catalog) == Err(AttributeError)
    decreases |refs|
  {
    var init := refs[..|refs| - 1];
    if k < |init| {
      assert init[k] == refs[k];
      AsWrittenFailsOnList(items, init, catalog, k);
    } else {
      AsWrittenNeverLeavesList(items, init, catalog);
    }
  }

  /** Without an `add` the list is passed through unchanged (or the scan has already raised). */
  lemma {:induction false} AsWrittenNeverLeavesList(items: seq<string>, refs: seq<TableRef>, catalog: Catalog)
    ensures AutoSkipAsWritten(PyList(items), refs, catalog) in {Ok(PyList(items)), Err(AttributeError)}
    decreases |refs|
  {
    if refs != [] {
      AsWrittenNeverLeavesList(items, refs[..|refs| - 1], catalog);
    }
  }

  /** With the default (no `skip_delete_tables` configured), one table without a primary key makes start-up raise. */
  lemma DefaultSkipDeleteRaises()
    ensures AutoSkipAsWritten(ConfiguredOrEmpty(None), [TableRef("test", "log")], (db: string, t: string) => []) == Err(AttributeError)
  {
    var refs := [TableRef("test", "log")];
    assert refs[..0] == [];
  }

  /** On a set, the calls as written add exactly the auto-skipped names: the set model below computes the same. */
  lemma {:induction false} AsWrittenOnSetAgrees(members: set<string>, refs: seq<TableRef>, catalog: Catalog)
    ensures AutoSkipAsWritten(PySet(members), refs, catalog) == Ok(PySet(members + AutoSkipped(refs, catalog)))
    decreases |refs|
  {
    if refs != [] {
      var init := refs[..|refs| - 1];
      var last := refs[|refs| - 1];
      AsWrittenOnSetAgrees(members, init, catalog);
      var added := if Unsafe(catalog, last) then {QualifiedName(last.schema, last.table)} else {};
      assert AutoSkipped(refs, catalog) == AutoSkipped(init, catalog) + added;
      var before := PySet(members + AutoSkipped(init, catalog));
      assert AutoSkipAsWritten(PySet(members), refs, catalog) ==
        if Unsafe(catalog, last) then PyAdd(before, QualifiedName(last.schema, last.table)) else Ok(before);
      assert members + AutoSkipped(init, catalog) + added == members + AutoSkipped(refs, catalog);
      if Unsafe(catalog, last) {
        assert PyAdd(before, QualifiedName(last.schema, last.table)) == Ok(PySet(members + AutoSkipped(init, catalog) + added));
      } else {
        assert members + AutoSkipped(init, catalog) == members + AutoSkipped(refs, catalog);
      }
    } else {
      assert members + AutoSkipped(refs, catalog) == members;
    }
  }
}
