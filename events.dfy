/** The values that flow through the binlog reader: raw replication events in, canonical change events out. */
module Events {
  import opened Wrappers

  /** A column value as the replication library decodes it. */
  datatype Value =
    | NullValue
    | IntValue(i: int)
    | DecimalValue(unscaled: int, scale: nat)
    | TextValue(s: string)

  /** One row: column name to value (`row["values"]`, `row["before_values"]`, `row["after_values"]`). */
  type Row = map<string, Value>

  /** One row of an update event: its image before and after the change. */
  datatype UpdateRow = UpdateRow(before: Row, after: Row)

  /** The four event kinds the stream is restricted to (`only_events`). */
  datatype RawEvent =
    | QueryEvent(schema: string, query: string)
    | WriteRowsEvent(schema: string, table: string, rows: seq<Row>)
    | UpdateRowsEvent(schema: string, table: string, updates: seq<UpdateRow>)
    | DeleteRowsEvent(schema: string, table: string, rows: seq<Row>)

  /** A binlog coordinate: file name and offset. */
  datatype Position = Position(file: string, pos: int)

  /** A raw event together with the stream's `(log_file, log_pos)` once it has been read. */
  datatype BinlogEvent = BinlogEvent(event: RawEvent, at: Position)

  /** The `action` field of a canonical event. */
  datatype Action = Insert | Delete | Query

  /** The canonical event dictionary, without its wall-clock `event_unixtime`. */
  datatype ChangeEvent = ChangeEvent(
    table: Option<string>,
    schema: string,
    action: Action,
    values: Row,
    actionSeq: int)

  /** What the reading generator yields: an event and the position it is checkpointed at. */
  datatype Emitted = Emitted(event: ChangeEvent, at: Position)

  /** The `action_seq` the reader attaches to each action: query 0, delete 1, insert 2. */
  function ActionSeq(a: Action): int
  {
    match a
    case Query => 0
    case Delete => 1
    case Insert => 2
  }
}
