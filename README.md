# MySQL binlog reader: a Dafny model

This project models the core of `synch/reader/mysql.py`, the MySQL side of a change-data-capture
agent. The `Mysql` reader tails the binlog and turns row and schema changes into canonical change
events. It sends each event to a broker and checkpoints the binlog position after every send.

The model covers five pieces.

- **Primary-key classification** (`get_primary_key`). The `COLUMN_NAME` rows of the catalog
  query become no key, a single column, or a tuple of columns (module `PrimaryKey`).
- **Resume position** (start of `start_sync`). The stored checkpoint is used if both of its
  halves are truthy. Otherwise the configured initial pair is used, else the master status.
  Only a fallback is written to the store (module `StartPosition`, method
  `Mysql.ResolveStartPosition`).
- **Table scan and auto-skip** (`start_sync`, nested loops). The scan builds `schema_tables` and
  `tables`. It adds `"db.table"` to `skip_delete_tables` for every configured table whose key is
  absent or composite (module `TableMap`, methods `Mysql.BuildTableMap` and `Mysql.ScanDatabase`).
- **Per-event transform** (`_binlog_reading`). One raw event becomes zero or more canonical
  events, each tagged with the raw event's position (module `Transformer`). A query event passes
  through a substring test and an external converter. Write, delete and update rows become
  inserts, deletes, and delete+insert pairs, subject to the skip collections.
- **Dispatch loop** (end of `start_sync`). Events whose schema or table is not configured are
  dropped. Every other event is sent, and then its position is checkpointed (module `Dispatch`,
  method `Mysql.Dispatch`). `Mysql.StartSync` composes all of the above.

The class `MysqlReader.Mysql` holds the reader's state:

- the configured initial pair;
- the three skip collections, with `skip_dmls` constant and the two table sets mutable;
- the position store's content, `stored`;
- two ghost logs: `writes` records every `set_log_pos_slave` call and `sent` records every
  `broker.send` call.

Its invariant `Valid()` says that the store holds the last position written to it.

The binlog stream is a finite sequence of `BinlogEvent(event, at)` values. `at` is the
`(log_file, log_pos)` the stream reports after that event. What the generator yields for a stream
is `TransformStream`, the concatenation of the per-event transform in stream order.

`SqlConvert.to_clickhouse` is a parameter of type `(string, string) -> Option<string>`. `None`
stands for an exception. The catalog query is a parameter `(db, table) -> seq<string>`. The
master status is an `Option<Position>`, where `None` means an empty result. A failing
`broker.send` is the parameter `failAt`, the number of the send attempt that raises.

The code auto-skips only deletes for tables with an absent or composite key. The comment at
line 96 says that updates are skipped too. Line 97 adds
the name to `skip_delete_tables` only. The model follows the code, and
`TableMap.AutoSkipKeepsUpdates` states the consequence over the skip sets the scan leaves behind:
a delete on such a table yields nothing, while an update on it is still split into a delete and
an insert.

Both halves of an update are checkpointed at the position after the whole update event (lines
201 and 224 yield the same `stream.log_pos`). `MysqlReader.UpdateInsertHalfLostOnFailure` states
what follows when the send of the insert half raises: a restart resumes after the update, and
the insert half is never sent.

## Model

| member | source | states |
|---|---|---|
| PrimaryKey.GetPrimaryKey | synch/reader/mysql.py:53-66 | No rows gives no key. Exactly one row gives that column name. Two or more rows give all the names, in result order. Each shape holds exactly when its row count does. |
| PrimaryKey.ColumnsRoundTrip | synch/reader/mysql.py:62-66 | Classification loses nothing: the key's column list is exactly the catalog rows. |
| PrimaryKey.NeedsAutoSkip | synch/reader/mysql.py:95 | Definition of `not pk or isinstance(pk, tuple)`: no key, an empty single name, or a composite key. `PrimaryKey.NeedsAutoSkipIff` states when it holds in terms of the catalog rows. |
| PrimaryKey.NeedsAutoSkipIff | synch/reader/mysql.py:94-95 | `not pk or isinstance(pk, tuple)` holds iff the query did not return exactly one non-empty column name. |
| StartPosition.IsSet | synch/reader/mysql.py:76-79 | Definition of `log_file and log_pos`: both halves present, the name non-empty and the offset non-zero; a missing half, an empty name or offset 0 counts as unset. `StartPosition.ResolveStart` and `StartPosition.ResolveStartStable` are stated in its terms. |
| StartPosition.ResolveStart | synch/reader/mysql.py:75-80 | The stored pair is used iff it is set. Otherwise the init pair is used iff it is set, else the master status. The result is persisted iff the stored pair is not set. It fails iff the stored pair and the init pair are both unset and the master status is empty. |
| StartPosition.ResolveStartStable | synch/reader/mysql.py:75-81 | Once a truthy choice is persisted, a restart resumes at the same position and writes nothing, whatever the init pair and the master status are by then. |
| MysqlReader.Mysql.ResolveStartPosition | synch/reader/mysql.py:75-81 | Returns the resume rule's result. Writes the chosen pair to the store exactly once when a fallback was used, and leaves the store and its log unchanged otherwise. Keeps `Valid()`. |
| MysqlReader.OrEmpty | synch/reader/mysql.py:38-40 | Definition of `source_db.get(key) or []` for the skip collections taken as sets: a missing collection becomes the empty set. `MysqlReader.Mysql.constructor` states its use; `TableMap.ConfiguredOrEmpty` is the list-keeping form the code has. |
| MysqlReader.Mysql.SetLogPos | synch/reader/mysql.py:114 | The store then holds the given pair, and the pair is appended to the write log. |
| MysqlReader.Mysql.Send | synch/reader/mysql.py:113 | The event is appended to the send log. |
| MysqlReader.Mysql.Deliver | synch/reader/mysql.py:113-114 | For the next forwarded item, the send log gains its event, and the write log and the store gain its position. |
| MysqlReader.Mysql.constructor | synch/reader/mysql.py:35-40 | Records the init pair and the store. Missing or empty skip collections become empty. Both logs start empty. |
| MysqlReader.Mysql.BuildTableMap | synch/reader/mysql.py:86-98 | `schema_tables` and `tables` are those of the configured (database, table) pairs in loop order. `skip_delete_tables` gains exactly the auto-skipped names. `skip_update_tables` is unchanged. |
| MysqlReader.Mysql.ScanDatabase | synch/reader/mysql.py:91-98 | The inner loop extends the map, the list and the skip set by one database's tables, in order. |
| TableMap.Entries | synch/reader/mysql.py:89-92 | Definition of the (database, table) pairs in the order the nested loops visit them. `TableMap.EntriesIff` states which pairs it holds. |
| TableMap.SchemaMap | synch/reader/mysql.py:93 | Definition of `schema_tables` after the visited pairs, one `TableMap.Register` per pair. `TableMap.SchemaMapIff` states its keys and lists. |
| TableMap.AutoSkipped | synch/reader/mysql.py:94-97 | Definition of the `"db.table"` names the scan adds to `skip_delete_tables`. `TableMap.AutoSkippedIff` states which names it holds. |
| TableMap.EntriesIff | synch/reader/mysql.py:89-92 | The scan visits a (database, table) pair iff that table is configured under that database. |
| TableMap.Register | synch/reader/mysql.py:93 | Definition of `schema_tables.setdefault(db, []).append(table)`: the database's list, empty if it had none, gains the table at its end; other keys are untouched. Its effect over a whole scan is stated by `TableMap.SchemaMapIff`. |
| TableMap.SchemaMapIff | synch/reader/mysql.py:93 | A schema is a key of `schema_tables` iff some visited table belongs to it. Its list is then non-empty and holds exactly the tables visited for it. |
| TableMap.AutoSkippedIff | synch/reader/mysql.py:94-97 | A name is auto-skipped iff it is `"db.table"` for a visited table whose key is absent, composite, or an empty name. |
| TableMap.AutoSkippedDeletesDropped | synch/reader/mysql.py:95-97 | Once the auto-skipped names are in the delete-skip set, a delete event on a configured table without a usable key yields nothing. |
| TableMap.AutoSkipKeepsUpdates | synch/reader/mysql.py:95-97 | Auto-skip drops deletes but not updates: with the configured skip sets and the auto-skipped names added to the delete set, a delete on a configured table with no usable key yields nothing, and an update on the same table still yields two events per row unless the configuration skips its updates. |
| TableMap.PyAdd | synch/reader/mysql.py:97 | Definition of `collection.add(name)`: a set gains the name, a list raises `AttributeError`. `TableMap.AsWrittenFailsOnList` and `TableMap.AsWrittenOnSetAgrees` state its effect over the scan. |
| TableMap.AsWrittenFailsOnList | synch/reader/mysql.py:97 | On a list, the scan as written raises `AttributeError` as soon as one visited table lacks a usable key. |
| TableMap.AsWrittenNeverLeavesList | synch/reader/mysql.py:97 | On a list, the scan as written either leaves the list unchanged or raises. |
| TableMap.DefaultSkipDeleteRaises | synch/reader/mysql.py:39 | With no `skip_delete_tables` configured, one keyless configured table makes the scan raise `AttributeError`. |
| TableMap.AsWrittenOnSetAgrees | synch/reader/mysql.py:97 | On a set, the `.add` calls as written produce the configured set plus exactly the auto-skipped names, as the set model does. |
| TableMap.ConfiguredOrEmpty | synch/reader/mysql.py:39 | Definition of `source_db.get("skip_delete_tables") or []`: a missing or empty configured collection becomes an empty list, anything else is kept. `TableMap.DefaultSkipDeleteRaises` states its consequence. |
| TableMap.AutoSkipAsWritten | synch/reader/mysql.py:94-97 | Definition of the scan's `.add` calls on the collection as configured, raising on the first list `.add`. Its behaviour is stated by `TableMap.AsWrittenFailsOnList`, `TableMap.AsWrittenNeverLeavesList` and `TableMap.AsWrittenOnSetAgrees`. |
| Text.Contains | synch/reader/mysql.py:157 | Definition of `sub in s`: `sub` is a prefix of `s` or occurs in its tail. `Text.ContainsAt` and `Text.ContainsWitness` together state that it holds iff `sub` occurs at some offset. |
| Text.ContainsAt | synch/reader/mysql.py:157 | `sub in s` holds whenever `sub` occurs in `s` at some offset. |
| Text.ContainsWitness | synch/reader/mysql.py:157 | When `sub in s` holds, there is an offset at which `sub` occurs in `s`. |
| Text.Lower | synch/reader/mysql.py:156 | `query.lower()` keeps the length, turns each ASCII letter A-Z into the same letter in lower case, keeps every other character, and so leaves no upper-case ASCII letter. |
| Text.AlterInAnyCase | synch/reader/mysql.py:156-157 | "alter" written in any mix of case anywhere in the query passes the `"alter" in query` test on the lower-cased text. |
| Text.LowerIdempotent | synch/reader/mysql.py:156 | Lower-casing an already lower-cased query changes nothing. |
| Transformer.QualifiedName | synch/reader/mysql.py:97 | Definition of the `f"{schema}.{table}"` name the skip sets hold and are matched against (also at line 178). `TableMap.AutoSkippedIff` and the rule lemmas are stated in its terms. |
| Transformer.SkipsUpdates | synch/reader/mysql.py:191 | Definition of the update skip test: `"update"` in `skip_dmls` or the qualified name in `skip_update_tables`. `Transformer.UpdateRowsRule` states its effect. |
| Transformer.SkipsDeletes | synch/reader/mysql.py:212 | Definition of the delete skip test: `"delete"` in `skip_dmls` or the qualified name in `skip_delete_tables`. `Transformer.DeleteRowsRule` states its effect. |
| Transformer.InsertOf | synch/reader/mysql.py:181-188 | Definition of the insert event dict: the table, the schema, action insert, the row's values and `action_seq` 2. `Transformer.WriteRowsNeverSkipped` and `Transformer.UpdateRowsRule` state where it is yielded. |
| Transformer.DeleteOf | synch/reader/mysql.py:213-221 | Definition of the delete event dict: the table, the schema, action delete, the row's values and `action_seq` 1. `Transformer.DeleteRowsRule` and `Transformer.UpdateRowsRule` state where it is yielded. |
| Transformer.QueryOf | synch/reader/mysql.py:166-173 | Definition of the query event dict: no table, the schema, action query, the converted text under `query` and `action_seq` 0. `Transformer.QueryEventOutcome` states when it is yielded. |
| Transformer.Inserts | synch/reader/mysql.py:179-188 | One insert per written row, in row order, carrying that row's values. |
| Transformer.Deletes | synch/reader/mysql.py:211-221 | One delete per deleted row, in row order, carrying that row's values. |
| Transformer.UpdatePairs | synch/reader/mysql.py:190-209 | Two events per update row, in row order. Position `2i` is the delete of row `i`'s before image, and `2i+1` the insert of its after image. |
| Transformer.Transform | synch/reader/mysql.py:153-224 | A query event yields at most one event. A write event yields one per row. A delete or update event yields nothing when skipped, and one event per row (deletes) or two (updates) otherwise. Every event has the raw event's schema and the action sequence of its action (query 0, delete 1, insert 2). Only query events yield query actions, with no table. |
| Transformer.TransformStream | synch/reader/mysql.py:153-224 | Definition of what the generator yields for a stretch of stream: each raw event's transform, tagged with its position, in stream order. Its properties are stated by `Transformer.TransformStreamAppend`, `Transformer.TransformStreamSingle` and `Transformer.TransformStreamPositions`. |
| Transformer.QueryEventOutcome | synch/reader/mysql.py:154-174 | A query event yields nothing when its lower-cased text lacks "alter", or when the converter fails or returns "". Otherwise it yields one query event with no table and values `{"query": converted}`. |
| Transformer.WriteRowsNeverSkipped | synch/reader/mysql.py:179-188 | Every written row becomes an insert with its values and sequence 2, whatever the skip collections hold. |
| Transformer.DeleteRowsRule | synch/reader/mysql.py:211-221 | Deleted rows yield nothing iff "delete" is in `skip_dmls` or `"db.table"` is in `skip_delete_tables`. Otherwise each row yields one delete with its values and sequence 1. |
| Transformer.UpdateRowsRule | synch/reader/mysql.py:190-209 | Update rows yield nothing iff "update" is in `skip_dmls` or `"db.table"` is in `skip_update_tables`, or there are no rows. Otherwise row `i` yields a delete of its before image (sequence 1) at `2i`, immediately followed by an insert of its after image (sequence 2). |
| Transformer.TransformStreamAppend | synch/reader/mysql.py:153 | The output for two stretches of stream read in turn is the output of the first followed by that of the second. |
| Transformer.TransformStreamSingle | synch/reader/mysql.py:153-224 | For one raw event, the output is its transform, in order, each event at the raw event's position. |
| Transformer.TransformStreamOneUpdate | synch/reader/mysql.py:190-209 | A non-skipped update of one row yields the delete of its before image and then the insert of its after image, both at the event's position. |
| Transformer.TransformStreamPositions | synch/reader/mysql.py:153-224 | Every yielded event carries the position of some raw event of the stream. |
| Dispatch.Delivered | synch/reader/mysql.py:113 | Fewer sends complete than were due iff a send attempt within range raises. |
| Dispatch.SentItems | synch/reader/mysql.py:101-113 | The items whose send completes are a prefix of the forwarded items. They are all of them iff no send attempt within range raises. |
| Dispatch.Truthy | synch/reader/mysql.py:111 | Definition of the truthiness of the yielded `table` in `table and`: present and non-empty. `Dispatch.ForwardedIff` is stated in its terms. |
| Dispatch.Dispatchable | synch/reader/mysql.py:111 | Definition of the negation of the `continue` guard: the schema has a non-empty table list and, if the event names a non-empty table, that list contains it. |
| Dispatch.Forwarded | synch/reader/mysql.py:101-112 | Definition of the items the loop sends, in yield order. Its properties are stated by `Dispatch.ForwardedIff`, `Dispatch.ForwardedAppend` and `Dispatch.ForwardedPrefix`. |
| Dispatch.Checkpoint | synch/reader/mysql.py:114 | Definition of the store's content after checkpointing a sequence of sent items: the last item's position, or the initial content if none was sent. `MysqlReader.DispatchKeepsConsistent` shows it is always the last position written. |
| Dispatch.ForwardedIff | synch/reader/mysql.py:111-112 | An item is sent iff it was yielded and its schema has a non-empty table list containing its table, if it has a non-empty one. |
| Dispatch.ForwardedAppend | synch/reader/mysql.py:101-112 | Filtering a concatenation concatenates the filtered parts, so stream order is preserved. |
| Dispatch.ForwardedPrefix | synch/reader/mysql.py:101-112 | What is sent after a prefix of the yielded items is a prefix of everything sent. |
| Dispatch.LastPosition | synch/reader/mysql.py:113-114 | After at least one send, the last checkpoint written is the position of the last event sent. |
| Dispatch.SentEventsPassReaderFilter | synch/reader/mysql.py:99-111 | Whatever passes the loop's filter is in a configured database and, if it names a table, that table is configured: the filter is at least as strict as `only_schemas`/`only_tables`. |
| MysqlReader.Mysql.Dispatch | synch/reader/mysql.py:101-116 | The send log grows by exactly the configured items, in yield order, up to the failing send. The write log grows by their positions. The store then holds the last sent item's position, or is unchanged if nothing was sent. It completes iff every forwarded item was sent. Keeps `Valid()`. |
| MysqlReader.DispatchKeepsConsistent | synch/reader/mysql.py:113-114 | Checkpointing after each send keeps the store equal to the last position written, whatever was sent. |
| MysqlReader.Mysql.StartSync | synch/reader/mysql.py:74-116 | An empty master status (with nothing stored and nothing configured) fails before anything changes. Otherwise it streams from the resolved position. The writes are the persisted fallback (if any) and then the positions of the sent events. The store then holds the last sent event's position, else the persisted fallback, else what it held before. The sends are the configured transformed events up to the failing one. `skip_delete_tables` gains the auto-skipped names and `skip_update_tables` is unchanged. Keeps `Valid()`. |
| MysqlReader.UpdateHalvesCheckpointed | synch/reader/mysql.py:190-209 | One configured, non-skipped update row is sent as a delete of its before image and then an insert of its after image. The checkpoint is written after each of the two halves, at the update's position. |
| MysqlReader.UpdateInsertHalfLostOnFailure | synch/reader/mysql.py:190-209 | Both halves of an update carry the position after the whole event. If the send of the insert half raises, only the delete was sent, the store already holds that position, and a restart resumes there without sending the insert. |
| MysqlReader.SingleKeyTableScan | synch/reader/mysql.py:89-98 | A configured table `test.t` keyed by `id` alone is registered under `test` and is not auto-skipped. |
| MysqlReader.SingleKeyUpdateScenario | synch/reader/mysql.py:190-209 | For that table, updating `id=5` from `amount=1.00` to `amount=2.00` sends the delete of the old row (sequence 1) and then the insert of the new row (sequence 2), both checkpointed at the update's position. |

## Left out

- The MySQL connection, `execute` and the SQL text of the catalog query are left out (database I/O). The query result is the `Catalog` parameter.
- `get_binlog_pos` reading `File`/`Position` from the master-status row is left out. The row is an `Option<Position>`, and a row missing those keys is not modelled.
- The `int(log_pos)` conversion at line 83 is left out. Positions are integers throughout, so a non-numeric stored pos is not modelled.
- `BinLogStreamReader` is replaced by a finite sequence of raw events with their positions: the network, heartbeats, blocking reads and resuming are left out. Its own `only_schemas`/`only_tables` filtering is left out too. `Dispatch.SentEventsPassReaderFilter` shows that the loop's own filter already implies it.
- `RedisLogPos` is left out. The model keeps its content as the `stored` field and its string representation is not modelled.
- `broker.send` is left out; the model keeps a ghost log of the sends. A failure is the attempt number `failAt`, after which the loop stops, as an exception would.
- `SqlConvert.to_clickhouse` is an uninterpreted parameter. An exception (or a `None` result) is `None`; the code treats it like an empty result.
- `event_unixtime` is left out; it is wall-clock time.
- The throughput counter, `insert_interval` and logging (lines 115-125) are left out; they are timing and observability only.
- `signal_handler` and `exit()` (lines 68-72) are left out; they are process signals.
- The `else: return` at lines 222-223 is left out. It cannot be reached because raw events are a closed datatype, as `only_events` guarantees.
- `Text.Lower` lower-cases ASCII letters only. Python's `str.lower` also folds non-ASCII letters.
- `Transformer.Transform` matches `"db.table"` names, and `skip_dmls` membership, as sets of strings. A configured list behaves the same for `in`.
- `MysqlReader.Mysql.constructor`, `MysqlReader.Mysql.BuildTableMap` and `MysqlReader.Mysql.StartSync` take the skip collections as sets: the corrected behaviour of the finding below. With the list the code defaults to, `StartSync` would raise `AttributeError` at line 97 instead of adding the auto-skipped names.
- conftest.py is not part of this model; it holds test fixtures that run DDL against live databases.

## Findings

| source | as written | input that shows it | evidently intended | confidence | as-written member | corrected member |
|---|---|---|---|---|---|---|
| synch/reader/mysql.py:97 | `self.skip_delete_tables.add(...)` is called on the value set at line 39, which defaults to `[]` and is a list whenever the configuration gives one, so `.add` raises `AttributeError` | no `skip_delete_tables` configured, and one configured table `test.log` whose catalog query returns no primary-key column | the skip collections are sets, so the table's `"db.table"` name is added and start-up continues | medium, not executed | TableMap.DefaultSkipDeleteRaises | MysqlReader.Mysql.BuildTableMap |
