/**
 * The per-event body of `Mysql._binlog_reading`: one raw binlog event becomes zero or more
 * canonical change events, each tagged with the stream position after that raw event.
 */
module Transformer {
  import opened Wrappers
  import opened Text
  import opened Events
  import opened Seqs

  /** The three skip collections: `skip_dmls`, `skip_delete_tables`, `skip_update_tables`. */
  datatype SkipPolicy = SkipPolicy(dmls: set<string>, deleteTables: set<string>, updateTables: set<string>)

  /** The `"db.table"` key the skip-table sets are matched against. */
  function QualifiedName(schema: string, table: string): string
  {
    schema + "." + table
  }

  predicate SkipsUpdates(p: SkipPolicy, schema: string, table: string)
  {
    "update" in p.dmls || QualifiedName(schema, table) in p.updateTables
  }

  predicate SkipsDeletes(p: SkipPolicy, schema: string, table: string)
  {
    "delete" in p.dmls || QualifiedName(schema, table) in p.deleteTables
  }

  /**
   * `SqlConvert.to_clickhouse(schema, query)`, an external converter: None stands for an
   * exception (or a None result), Some(sql) for the converted text.
   */
  type Converter = (string, string) -> Option<string>

  function InsertOf(schema: string, table: string, values: Row): ChangeEvent
  {
    ChangeEvent(Some(table), schema, Insert, values, 2)
  }

  function DeleteOf(schema: string, table: string, values: Row): ChangeEvent
  {
    ChangeEvent(Some(table), schema, Delete, values, 1)
  }

  function QueryOf(schema: string, sql: string): ChangeEvent
  {
    ChangeEvent(None, schema, Query, map["query" := TextValue(sql)], 0)
  }

  /** One insert per row of a write event, in row order. */
  function Inserts(schema: string, table: string, rows: seq<Row>): (r: seq<ChangeEvent>)
    ensures |r| == |rows|
    ensures forall i :: 0 <= i < |rows| ==> r[i] == InsertOf(schema, table, rows[i])
  {
    if rows == [] then [] else [InsertOf(schema, table, rows[0])] + Inserts(schema, table, rows[1..])
  }

  /** One delete per row of a delete event, in row order. */
  function Deletes(schema: string, table: string, rows: seq<Row>): (r: seq<ChangeEvent>)
    ensures |r| == |rows|
    ensures forall i :: 0 <= i < |rows| ==> r[i] == DeleteOf(schema, table, rows[i])
  {
    if rows == [] then [] else [DeleteOf(schema, table, rows[0])] + Deletes(schema, table, rows[1..])
  }

  /** The two events one update row becomes: a delete of the before image, then an insert of the after image. */
  function UpdateHalf(schema: string, table: string, u: UpdateRow, second: bool): ChangeEvent
  {
    if second then InsertOf(schema, table, u.after) else DeleteOf(schema, table, u.before)
  }

  /** Per row of an update event, in row order: position `k` holds half `k % 2` of row `k / 2`. */
  function UpdatePairs(schema: string, table: string, updates: seq<UpdateRow>): (r: seq<ChangeEvent>)
    ensures |r| == 2 * |updates|
    ensures forall k :: 0 <= k < |r| ==> r[k] == UpdateHalf(schema, table, updates[k / 2], k % 2 == 1)
  {
    if updates == [] then []
    else
      var rest := UpdatePairs(schema, table, updates[1..]);
      var r := [UpdateHalf(schema, table, updates[0], false), UpdateHalf(schema, table, updates[0], true)] + rest;
      assert forall k :: 2 <= k < |r| ==> r[k] == rest[k - 2] && (k - 2) / 2 == k / 2 - 1 && (k - 2) % 2 == k % 2;
      r
  }

  /** The canonical events one raw event yields, in the order the generator yields them. */
  function Transform(e: RawEvent, policy: SkipPolicy, convert: Converter): (r: seq<ChangeEvent>)
    ensures e.QueryEvent? ==> |r| <= 1
    ensures e.WriteRowsEvent? ==> |r| == |e.rows|
    ensures e.DeleteRowsEvent? ==> |r| == if SkipsDeletes(policy, e.schema, e.table) then 0 else |e.rows|
    ensures e.UpdateRowsEvent? ==> |r| == if SkipsUpdates(policy, e.schema, e.table) then 0 else 2 * |e.updates|
    ensures forall k :: 0 <= k < |r| ==> r[k].schema == e.schema && r[k].actionSeq == ActionSeq(r[k].action)
    ensures forall k :: 0 <= k < |r| ==> (r[k].action == Query <==> e.QueryEvent?)
    ensures forall k :: 0 <= k < |r| ==> r[k].table == if e.QueryEvent? then None else Some(e.table)
  {
    match e
    case QueryEvent(schema, query) =>
      var q := Lower(query);
      if !Contains(q, "alter") then []
      else (
        match convert(schema, q)
        case None => []
        case Some(sql) => if sql == "" then [] else [QueryOf(schema, sql)])
    case WriteRowsEvent(schema, table, rows) =>
      Inserts(schema, table, rows)
    case UpdateRowsEvent(schema, table, updates) =>
      if SkipsUpdates(policy, schema, table) then []
      else
        UpdatePairs(schema, table, updates)
    case DeleteRowsEvent(schema, table, rows) =>
      if SkipsDeletes(policy, schema, table) then [] else Deletes(schema, table, rows)
  }

  /** Attaches the stream position of the raw event to each of its canonical events. */
  function Tag(es: seq<ChangeEvent>, at: Position): seq<Emitted>
  {
    seq(|es|, k requires 0 <= k < |es| => Emitted(es[k], at))
  }

  /** What the generator yields for one raw event: its canonical events, tagged with its position. */
  function Step(policy: SkipPolicy, convert: Converter): BinlogEvent -> seq<Emitted>
  {
    (be: BinlogEvent) => Tag(Transform(be.event, policy, convert), be.at)
  }

  /** Everything the reading generator yields for a finite stretch of the binlog, in stream order. */
  function TransformStream(stream: seq<BinlogEvent>, policy: SkipPolicy, convert: Converter): seq<Emitted>
  {
    FlatMap(stream, Step(policy, convert))
  }

  // ---- properties of the transform ----

  /** A query event yields nothing unless its lower-cased text mentions "alter" and converts to non-empty text. */
  lemma QueryEventOutcome(schema: string, query: string, policy: SkipPolicy, convert: Converter)
    ensures var r := Transform(QueryEvent(schema, query), policy, convert);
      var q := Lower(query);
      && (!Contains(q, "alter") ==> r == [])
      && (convert(schema, q) == None || convert(schema, q) == Some("") ==> r == [])
      && (Contains(q, "alter") && convert(schema, q).Some? && convert(schema, q).value != "" ==>
            r == [QueryOf(schema, convert(schema, q).value)])
  {
  }

  /** Write events are never filtered: every row becomes an insert, whatever the policy. */
  lemma WriteRowsNeverSkipped(schema: string, table: string, rows: seq<Row>, policy: SkipPolicy, convert: Converter)
    ensures var r := Transform(WriteRowsEvent(schema, table, rows), policy, convert);
      |r| == |rows| &&
      forall i :: 0 <= i < |rows| ==> r[i].action == Insert && r[i].actionSeq == 2 && r[i].values == rows[i]
  {
  }

  /** A delete event yields one delete per row, unless deletes are skipped for its table. */
  lemma DeleteRowsRule(schema: string, table: string, rows: seq<Row>, policy: SkipPolicy, convert: Converter)
    ensures var r := Transform(DeleteRowsEvent(schema, table, rows), policy, convert);
      && (SkipsDeletes(policy, schema, table) ==> r == [])
      && (!SkipsDeletes(policy, schema, table) ==>
            |r| == |rows| &&
            forall i :: 0 <= i < |rows| ==> r[i].action == Delete && r[i].actionSeq == 1 && r[i].values == rows[i])
  {
  }

  /**
   * An update event yields nothing iff it is skipped (or has no rows); otherwise each row
   * becomes a delete of its before image immediately followed by an insert of its after image.
   */
  lemma UpdateRowsRule(schema: string, table: string, updates: seq<UpdateRow>, policy: SkipPolicy, convert: Converter)
    ensures var r := Transform(UpdateRowsEvent(schema, table, updates), policy, convert);
      && (r == [] <==> SkipsUpdates(policy, schema, table) || updates == [])
      && (!SkipsUpdates(policy, schema, table) ==>
            forall i :: 0 <= i < |updates| ==>
              && r[2 * i].action == Delete && r[2 * i].actionSeq == 1 && r[2 * i].values == updates[i].before
              && r[2 * i + 1].action == Insert && r[2 * i + 1].actionSeq == 2 && r[2 * i + 1].values == updates[i].after)
  {
    if !SkipsUpdates(policy, schema, table) {
      var r := UpdatePairs(schema, table, updates);
      forall i | 0 <= i < |updates|
        ensures r[2 * i] == DeleteOf(schema, table, updates[i].before)
        ensures r[2 * i + 1] == InsertOf(schema, table, updates[i].after)
      {
        assert (2 * i) / 2 == i && (2 * i) % 2 == 0;
        assert (2 * i + 1) / 2 == i && (2 * i + 1) % 2 == 1;
      }
    }
  }

  /** The output for a stream read in two stretches is the output of the first followed by that of the second. */
  lemma TransformStreamAppend(a: seq<BinlogEvent>, b: seq<BinlogEvent>, policy: SkipPolicy, convert: Converter)
    ensures TransformStream(a + b, policy, convert) == TransformStream(a, policy, convert) + TransformStream(b, policy, convert)
  {
    FlatMapAppend(a, b, Step(policy, convert));
  }

  /** The output for one raw event is exactly its canonical events, in order, each at the event's position. */
  lemma TransformStreamSingle(be: BinlogEvent, policy: SkipPolicy, convert: Converter)
    ensures var r := TransformStream([be], policy, convert);
      var t := Transform(be.event, policy, convert);
      |r| == |t| && forall k :: 0 <= k < |t| ==> r[k].event == t[k] && r[k].at == be.at
  {
    FlatMapSingle(be, Step(policy, convert));
  }

  /** A non-skipped update of one row yields its delete half and then its insert half, both at the event's position. */
  lemma TransformStreamOneUpdate(schema: string, table: string, u: UpdateRow, at: Position,
                                 policy: SkipPolicy, convert: Converter)
    requires !SkipsUpdates(policy, schema, table)
    ensures TransformStream([BinlogEvent(UpdateRowsEvent(schema, table, [u]), at)], policy, convert) ==
      [Emitted(DeleteOf(schema, table, u.before), at), Emitted(InsertOf(schema, table, u.after), at)]
  {
    var be := BinlogEvent(UpdateRowsEvent(schema, table, [u]), at);
    var t := Transform(be.event, policy, convert);
    assert t == UpdatePairs(schema, table, [u]);
    assert t == [DeleteOf(schema, table, u.before), InsertOf(schema, table, u.after)];
    FlatMapSingle(be, Step(policy, convert));
  }

  /** Every yielded event carries the position of the raw event it was derived from. */
  lemma TransformStreamPositions(stream: seq<BinlogEvent>, policy: SkipPolicy, convert: Converter, k: nat) returns (j: nat)
    requires k < |TransformStream(stream, policy, convert)|
    ensures j < |stream|
    ensures TransformStream(stream, policy, convert)[k].at == stream[j].at
    ensures TransformStream(stream, policy, convert)[k].event in Transform(stream[j].event, policy, convert)
  {
    var e := TransformStream(stream, policy, convert)[k];
    j := FlatMapOrigin(stream, Step(policy, convert), k);
    var t := Transform(stream[j].event, policy, convert);
    var i :| 0 <= i < |t| && Tag(t, stream[j].at)[i] == e;
  }
}
