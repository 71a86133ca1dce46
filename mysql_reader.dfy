/**
 * The `Mysql` reader's `start_sync`: resolve where to resume, scan the configured tables, then
 * send every yielded event to the broker and checkpoint its position right after the send.
 * The position store (`RedisLogPos`) is the `stored` field; the broker is the ghost `sent` log.
 */
module MysqlReader {
  import opened Wrappers
  import opened Events
  import opened Transformer
  import opened TableMap
  import opened StartPosition
  import opened Dispatch
  import opened PrimaryKey

  /** How `start_sync` ended: it could not resolve a start position, or it streamed from one. */
  datatype SyncOutcome = NoStartPosition | Streamed(from: Position, complete: bool)

  /**
   * `source_db.get(key) or []` for the skip collections, taken as sets: the corrected
   * counterpart of `TableMap.ConfiguredOrEmpty`, which keeps the list the code defaults to.
   */
  function OrEmpty(configured: Option<set<string>>): set<string>
  {
    if configured.Some? then configured.value else {}
  }

  /** The store holds the last of the positions written to it. */
  ghost predicate Consistent(stored: StoredPos, writes: seq<Position>)
  {
    writes != [] ==> stored == AsStored(writes[|writes| - 1])
  }

  /** Checkpointing after each send keeps the store consistent with the checkpoints written. */
  lemma DispatchKeepsConsistent(stored0: StoredPos, writes0: seq<Position>, done: seq<Emitted>)
    requires Consistent(stored0, writes0)
    ensures Consistent(Checkpoint(stored0, done), writes0 + Positions(done))
  {
    if done != [] {
      LastPosition(writes0, done);
    } else {
      assert writes0 + Positions(done) == writes0;
    }
  }

  /**
   * One configured update row is sent as two events, a delete of the before image and then an
   * insert of the after image, and each is checkpointed at the update's position: the checkpoint
   * is written between the two halves as well as after the second.
   */
  lemma UpdateHalvesCheckpointed(schemaTables: map<string, seq<string>>, schema: string, table: string,
                                 u: UpdateRow, at: Position, policy: SkipPolicy, convert: Converter)
    requires schema in schemaTables && table in schemaTables[schema]
    requires !SkipsUpdates(policy, schema, table)
    ensures var fw := Forwarded(schemaTables, TransformStream([BinlogEvent(UpdateRowsEvent(schema, table, [u]), at)], policy, convert));
      && SentEvents(fw) == [DeleteOf(schema, table, u.before), InsertOf(schema, table, u.after)]
      && Positions(fw) == [at, at]
  {
    TransformStreamOneUpdate(schema, table, u, at, policy, convert);
    ForwardedPair(schemaTables, Emitted(DeleteOf(schema, table, u.before), at), Emitted(InsertOf(schema, table, u.after), at));
  }

  /**
   * Because both halves of an update carry the position after the whole update event, a send
   * that raises on the insert half leaves the store at that position with only the delete sent:
   * a restart then resumes after the update, and its insert half is never sent.
   */
  lemma UpdateInsertHalfLostOnFailure(schemaTables: map<string, seq<string>>, schema: string, table: string,
                                      u: UpdateRow, at: Position, policy: SkipPolicy, convert: Converter,
                                      stored0: StoredPos, init: StoredPos, master: Option<Position>)
    requires schema in schemaTables && table in schemaTables[schema]
    requires !SkipsUpdates(policy, schema, table)
    requires IsSet(AsStored(at))
    ensures var items := TransformStream([BinlogEvent(UpdateRowsEvent(schema, table, [u]), at)], policy, convert);
      var done := SentItems(schemaTables, items, Some(1));
      && SentEvents(done) == [DeleteOf(schema, table, u.before)]
      && Checkpoint(stored0, done) == AsStored(at)
      && ResolveStart(Checkpoint(stored0, done), init, master) == Ok(Start(at, false))
  {
    var del := Emitted(DeleteOf(schema, table, u.before), at);
    var ins := Emitted(InsertOf(schema, table, u.after), at);
    TransformStreamOneUpdate(schema, table, u, at, policy, convert);
    ForwardedPair(schemaTables, del, ins);
    assert [del, ins][..1] == [del];
  }

  /** Scanning the single configured table `test.t`, keyed by the single column `id`, registers it and skips nothing. */
  lemma SingleKeyTableScan(catalog: Catalog)
    requires catalog("test", "t") == ["id"]
    ensures Entries([DatabaseConfig("test", ["t"])]) == [TableRef("test", "t")]
    ensures SchemaMap([TableRef("test", "t")]) == map["test" := ["t"]]
    ensures AutoSkipped([TableRef("test", "t")], catalog) == {}
  {
    var dbs := [DatabaseConfig("test", ["t"])];
    var ref := TableRef("test", "t");
    assert dbs[..0] == [];
    assert [ref][..0] == [];
    assert SchemaMap([ref]) == Register(map[], ref);
    assert [] + ["t"] == ["t"];
    assert !Unsafe(catalog, ref);
  }

  /**
   * With `test.t` configured as above, an update of row `id=5` from `amount=1.00` to
   * `amount=2.00` is sent as a delete of the old row (sequence 1) followed by an insert of the
   * new one (sequence 2), both at the update's position.
   */
  lemma SingleKeyUpdateScenario(catalog: Catalog, at: Position, convert: Converter)
    requires catalog("test", "t") == ["id"]
    ensures var refs := Entries([DatabaseConfig("test", ["t"])]);
      var policy := SkipPolicy({}, AutoSkipped(refs, catalog), {});
      var u := UpdateRow(map["id" := IntValue(5), "amount" := DecimalValue(100, 2)],
                         map["id" := IntValue(5), "amount" := DecimalValue(200, 2)]);
      var fw := Forwarded(SchemaMap(refs), TransformStream([BinlogEvent(UpdateRowsEvent("test", "t", [u]), at)], policy, convert));
      && SentEvents(fw) == [ChangeEvent(Some("t"), "test", Delete, u.before, 1),
                            ChangeEvent(Some("t"), "test", Insert, u.after, 2)]
      && Positions(fw) == [at, at]
  {
    SingleKeyTableScan(catalog);
    var u := UpdateRow(map["id" := IntValue(5), "amount" := DecimalValue(100, 2)],
                       map["id" := IntValue(5), "amount" := DecimalValue(200, 2)]);
    UpdateHalvesCheckpointed(map["test" := ["t"]], "test", "t", u, at, SkipPolicy({}, {}, {}), convert);
  }

  class Mysql {
    /** `init_binlog_file` and `init_binlog_pos` from the configuration. */
    const init: StoredPos
    const skipDmls: set<string>
    var skipDeleteTables: set<string>
    var skipUpdateTables: set<string>
    /** What `pos_handler.get_log_pos()` returns: the last checkpoint written, if any. */
    var stored: StoredPos
    /** Every `set_log_pos_slave` call, in order. */
    ghost var writes: seq<Position>
    /** Every `broker.send` call, in order. */
    ghost var sent: seq<ChangeEvent>

    /** The store holds the last position written to it. */
    ghost predicate Valid()
      reads this`stored, this`writes
    {
      Consistent(stored, writes)
    }

    /** The skip collections as the reading generator receives them. */
    function Policy(): SkipPolicy
      reads this
    {
      SkipPolicy(skipDmls, skipDeleteTables, skipUpdateTables)
    }

    /** `__init__`, apart from the database connection. */
    constructor (init: StoredPos, stored: StoredPos, skipDmls: Option<set<string>>,
                 skipDeleteTables: Option<set<string>>, skipUpdateTables: Option<set<string>>)
      ensures Valid() && writes == [] && sent == []
      ensures this.init == init && this.stored == stored
      ensures this.skipDmls == OrEmpty(skipDmls)
      ensures this.skipDeleteTables == OrEmpty(skipDeleteTables)
      ensures this.skipUpdateTables == OrEmpty(skipUpdateTables)
    {
      this.init := init;
      this.stored := stored;
      this.skipDmls := OrEmpty(skipDmls);
      this.skipDeleteTables := OrEmpty(skipDeleteTables);
      this.skipUpdateTables := OrEmpty(skipUpdateTables);
      writes := [];
      sent := [];
    }

    /** `pos_handler.set_log_pos_slave(file, pos)` */
    method SetLogPos(at: Position)
      modifies this`stored, this`writes
      ensures Valid()
      ensures stored == AsStored(at) && writes == old(writes) + [at]
    {
      stored := AsStored(at);
      writes := writes + [at];
    }

    /** `broker.send(msg=event, schema=schema)` once it has returned. */
    method Send(e: ChangeEvent)
      modifies this`sent
      ensures sent == old(sent) + [e]
    {
      sent := sent + [e];
    }

    /**
     * The start of `start_sync`: take the stored checkpoint when both halves are truthy, else
     * the configured initial pair, else the master status, and write a fallback to the store.
     */
    method ResolveStartPosition(master: Option<Position>) returns (r: Result<Start, StartError>)
      requires Valid()
      modifies this`stored, this`writes
      ensures Valid()
      ensures r == ResolveStart(old(stored), init, master)
      ensures writes == old(writes) + (if r.Ok? && r.value.persist then [r.value.at] else [])
      ensures !(r.Ok? && r.value.persist) ==> stored == old(stored)
    {
      var logFile, logPos := stored.file, stored.pos;
      if !IsSet(StoredPos(logFile, logPos)) {
        logFile, logPos := init.file, init.pos;
        var at: Position;
        if !IsSet(StoredPos(logFile, logPos)) {
          if master.None? {
            return Err(EmptyMasterStatus);
          }
          at := master.value;
        } else {
          at := Position(logFile.value, logPos.value);
        }
        SetLogPos(at);
        return Ok(Start(at, true));
      }
      r := Ok(Start(Position(logFile.value, logPos.value), false));
    }

    /**
     * The scan of the configured databases: builds `schema_tables` and `tables`, and adds the
     * `"db.table"` name of every table whose key is absent or composite to `skip_delete_tables`.
     */
    method BuildTableMap(dbs: seq<DatabaseConfig>, catalog: Catalog)
      returns (schemaTables: map<string, seq<string>>, tables: seq<string>)
      modifies this`skipDeleteTables
      ensures schemaTables == SchemaMap(Entries(dbs))
      ensures tables == TableNames(Entries(dbs))
      ensures skipDeleteTables == old(skipDeleteTables) + AutoSkipped(Entries(dbs), catalog)
      ensures skipUpdateTables == old(skipUpdateTables)
    {
      schemaTables, tables := map[], [];
      var i := 0;
      while i < |dbs|
        invariant 0 <= i <= |dbs|
        invariant schemaTables == SchemaMap(Entries(dbs[..i])) && tables == TableNames(Entries(dbs[..i]))
        invariant skipDeleteTables == old(skipDeleteTables) + AutoSkipped(Entries(dbs[..i]), catalog)
      {
        EntriesStep(dbs, i);
        schemaTables, tables := ScanDatabase(dbs[i], catalog, schemaTables, tables, Entries(dbs[..i]), old(skipDeleteTables));
        i := i + 1;
      }
      assert dbs[..i] == dbs;
    }

    /** The inner loop of the scan: the tables of one database, in configuration order. */
    method ScanDatabase(database: DatabaseConfig, catalog: Catalog, schemaTables0: map<string, seq<string>>,
                        tables0: seq<string>, ghost done0: seq<TableRef>, ghost base: set<string>)
      returns (schemaTables: map<string, seq<string>>, tables: seq<string>)
      requires schemaTables0 == SchemaMap(done0) && tables0 == TableNames(done0)
      requires skipDeleteTables == base + AutoSkipped(done0, catalog)
      modifies this`skipDeleteTables
      ensures var done := done0 + RefsOf(database.name, database.tables);
        && schemaTables == SchemaMap(done) && tables == TableNames(done)
        && skipDeleteTables == base + AutoSkipped(done, catalog)
    {
      schemaTables, tables := schemaTables0, tables0;
      ghost var done := done0;
      var j := 0;
      while j < |database.tables|
        invariant 0 <= j <= |database.tables|
        invariant done == done0 + RefsOf(database.name, database.tables[..j])
        invariant schemaTables == SchemaMap(done) && tables == TableNames(done)
        invariant skipDeleteTables == base + AutoSkipped(done, catalog)
      {
        var table := database.tables[j];
        var entry := TableRef(database.name, table);
        schemaTables := schemaTables[database.name :=
          (if database.name in schemaTables then schemaTables[database.name] else []) + [table]];
        var pk := GetPrimaryKey(catalog(database.name, table));
        if NeedsAutoSkip(pk) {
          skipDeleteTables := skipDeleteTables + {QualifiedName(database.name, table)};
        }
        tables := tables + [table];
        ScanStep(done, entry, catalog, base);
        RefsOfStep(done0, database.name, database.tables, j);
        done := done + [entry];
        j := j + 1;
      }
      assert database.tables[..j] == database.tables;
    }

    /**
     * The dispatch loop over `items`, what the reading generator yields: for every item, skip it when its schema or
     * table is not configured; otherwise send it, then checkpoint its position. The send attempt
     * numbered `failAt` raises and ends the loop.
     */
    method Dispatch(schemaTables: map<string, seq<string>>, items: seq<Emitted>, failAt: Option<nat>)
      returns (complete: bool)
      requires Valid()
      modifies this`stored, this`writes, this`sent
      ensures Valid()
      ensures var done := SentItems(schemaTables, items, failAt);
        && complete == (done == Forwarded(schemaTables, items))
        && sent == old(sent) + SentEvents(done)
        && writes == old(writes) + Positions(done)
        && stored == Checkpoint(old(stored), done)
    {
      ghost var fw := Forwarded(schemaTables, items);
      var i, attempts := 0, 0;
      while i < |items|
        invariant 0 <= i <= |items|
        invariant attempts <= |fw| && Forwarded(schemaTables, items[..i]) == fw[..attempts]
        invariant failAt.Some? ==> attempts <= failAt.value
        invariant sent == old(sent) + SentEvents(fw[..attempts])
        invariant writes == old(writes) + Positions(fw[..attempts])
        invariant stored == Checkpoint(old(stored), fw[..attempts])
      {
        var item := items[i];
        ForwardedNext(schemaTables, items, i, attempts);
        if Dispatchable(schemaTables, item.event) {
          if failAt == Some(attempts) {
            assert SentItems(schemaTables, items, failAt) == fw[..attempts];
            DispatchKeepsConsistent(old(stored), old(writes), fw[..attempts]);
            return false;
          }
          Deliver(item, fw, attempts, old(sent), old(writes), old(stored));
          attempts := attempts + 1;
        }
        i := i + 1;
      }
      assert items[..i] == items;
      assert SentItems(schemaTables, items, failAt) == fw[..attempts];
      DispatchKeepsConsistent(old(stored), old(writes), fw[..attempts]);
      complete := true;
    }

    /** One pass of the loop body past the filter: send the item, then checkpoint its position. */
    method Deliver(item: Emitted, ghost fw: seq<Emitted>, ghost m: nat, ghost sent0: seq<ChangeEvent>,
                   ghost writes0: seq<Position>, ghost stored0: StoredPos)
      requires m < |fw| && fw[m] == item
      requires sent == sent0 + SentEvents(fw[..m]) && writes == writes0 + Positions(fw[..m])
      modifies this`stored, this`writes, this`sent
      ensures sent == sent0 + SentEvents(fw[..m + 1]) && writes == writes0 + Positions(fw[..m + 1])
      ensures stored == Checkpoint(stored0, fw[..m + 1])
    {
      Send(item.event);
      SetLogPos(item.at);
      LogsStep(fw, m);
    }

    /**
     * `start_sync`: resolve the start position (raising before anything else changes when the
     * master status is empty), scan the tables, then run the dispatch loop over the events read
     * from that position.
     */
    method StartSync(dbs: seq<DatabaseConfig>, catalog: Catalog, master: Option<Position>,
                     stream: seq<BinlogEvent>, convert: Converter, failAt: Option<nat>)
      returns (outcome: SyncOutcome)
      requires Valid()
      modifies this`stored, this`writes, this`sent, this`skipDeleteTables
      ensures Valid()
      ensures skipUpdateTables == old(skipUpdateTables)
      ensures var start := ResolveStart(old(stored), init, master);
        && (start.Err? ==>
              outcome == NoStartPosition && writes == old(writes) && sent == old(sent) &&
              stored == old(stored) && skipDeleteTables == old(skipDeleteTables))
        && (start.Ok? ==>
              var items := TransformStream(stream, Policy(), convert);
              var done := SentItems(SchemaMap(Entries(dbs)), items, failAt);
              && skipDeleteTables == old(skipDeleteTables) + AutoSkipped(Entries(dbs), catalog)
              && outcome == Streamed(start.value.at, done == Forwarded(SchemaMap(Entries(dbs)), items))
              && sent == old(sent) + SentEvents(done)
              && writes == old(writes) + (if start.value.persist then [start.value.at] else []) + Positions(done)
              && stored == Checkpoint(if start.value.persist then AsStored(start.value.at) else old(stored), done))
    {
      var start := ResolveStartPosition(master);
      if start.Err? {
        return NoStartPosition;
      }
      ghost var persisted := if start.value.persist then [start.value.at] else [];
      assert writes == old(writes) + persisted;
      var schemaTables, tables := BuildTableMap(dbs, catalog);
      var items := TransformStream(stream, Policy(), convert);
      var complete := Dispatch(schemaTables, items, failAt);
      outcome := Streamed(start.value.at, complete);
    }
  }
}
