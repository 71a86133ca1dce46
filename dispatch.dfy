/**
 * The filter of the dispatch loop in `Mysql.start_sync`: which yielded events are sent to the
 * broker and checkpointed, and in what order.
 */
module Dispatch {
  import opened Wrappers
  import opened Events
  import opened TableMap
  import opened StartPosition

  /** Python truthiness of the yielded `table`: present and non-empty. */
  predicate Truthy(s: Option<string>)
  {
    s.Some? && s.value != ""
  }

  /**
   * The negation of the loop's `continue` guard: the schema has a non-empty table list and a
   * truthy table is in it. Query events (no table) pass whenever their schema is configured.
   */
  predicate Dispatchable(schemaTables: map<string, seq<string>>, e: ChangeEvent)
  {
    && e.schema in schemaTables
    && schemaTables[e.schema] != []
    && (Truthy(e.table) ==> e.table.value in schemaTables[e.schema])
  }

  /** The yielded events the loop sends, in the order it sends them. */
  function Forwarded(schemaTables: map<string, seq<string>>, es: seq<Emitted>): seq<Emitted>
  {
    if es == [] then []
    else
      var last := es[|es| - 1];
      Forwarded(schemaTables, es[..|es| - 1]) + (if Dispatchable(schemaTables, last.event) then [last] else [])
  }

  /** The events handed to `broker.send`, one per forwarded item. */
  function SentEvents(es: seq<Emitted>): seq<ChangeEvent>
  {
    seq(|es|, k requires 0 <= k < |es| => es[k].event)
  }

  /** The positions handed to `set_log_pos_slave`, one per forwarded item. */
  function Positions(es: seq<Emitted>): seq<Position>
  {
    seq(|es|, k requires 0 <= k < |es| => es[k].at)
  }

  /**
   * How many of `total` sends complete when the send attempt numbered `failAt` (from 0) raises;
   * `None` when no send raises.
   */
  function Delivered(total: nat, failAt: Option<nat>): (n: nat)
    ensures n <= total
    ensures n < total <==> failAt.Some? && failAt.value < total
  {
    if failAt.Some? && failAt.value < total then failAt.value else total
  }

  /** The forwarded items whose send completes: all of them, or those before the send that raises. */
  function SentItems(schemaTables: map<string, seq<string>>, items: seq<Emitted>, failAt: Option<nat>): (r: seq<Emitted>)
    ensures var fw := Forwarded(schemaTables, items);
      |r| <= |fw| && r == fw[..|r|] && (|r| < |fw| <==> failAt.Some? && failAt.value < |fw|)
  {
    var fw := Forwarded(schemaTables, items);
    fw[..Delivered(|fw|, failAt)]
  }

  /** What the position store holds after the checkpoints of `done`, starting from `initial`. */
  function Checkpoint(initial: StoredPos, done: seq<Emitted>): StoredPos
  {
    if done == [] then initial else AsStored(done[|done| - 1].at)
  }

  // ---- properties of the filter ----

  /** Filtering a concatenation is concatenating the filtered parts. */
  lemma {:induction false} ForwardedAppend(schemaTables: map<string, seq<string>>, a: seq<Emitted>, b: seq<Emitted>)
    ensures Forwarded(schemaTables, a + b) == Forwarded(schemaTables, a) + Forwarded(schemaTables, b)
    decreases |b|
  {
    if b == [] {
      assert a + b == a;
    } else {
      var ab := a + b;
      assert ab[..|ab| - 1] == a + b[..|b| - 1];
      assert ab[|ab| - 1] == b[|b| - 1];
      ForwardedAppend(schemaTables, a, b[..|b| - 1]);
    }
  }

  /** One more yielded item: it is appended to what is sent iff it passes the filter. */
  lemma ForwardedStep(schemaTables: map<string, seq<string>>, es: seq<Emitted>, i: nat)
    requires i < |es|
    ensures Forwarded(schemaTables, es[..i + 1]) ==
      Forwarded(schemaTables, es[..i]) + (if Dispatchable(schemaTables, es[i].event) then [es[i]] else [])
  {
    assert es[..i + 1][..i] == es[..i] && es[..i + 1][i] == es[i];
  }

  /**
   * The dispatch loop's view of the filter: after `i` yielded items it has sent the first
   * `m` forwarded ones, and item `i` is the next to send iff it passes the filter.
   */
  lemma ForwardedNext(schemaTables: map<string, seq<string>>, es: seq<Emitted>, i: nat, m: nat)
    requires i < |es| && m <= |Forwarded(schemaTables, es)|
    requires Forwarded(schemaTables, es[..i]) == Forwarded(schemaTables, es)[..m]
    ensures var fw := Forwarded(schemaTables, es);
      if Dispatchable(schemaTables, es[i].event) then
        m < |fw| && fw[m] == es[i] && Forwarded(schemaTables, es[..i + 1]) == fw[..m + 1]
      else
        Forwarded(schemaTables, es[..i + 1]) == fw[..m]
  {
    ForwardedStep(schemaTables, es, i);
    ForwardedPrefix(schemaTables, es, i + 1);
  }

  /** Two items that both pass the filter are both sent, in order, each checkpointed at its own position. */
  lemma ForwardedPair(schemaTables: map<string, seq<string>>, a: Emitted, b: Emitted)
    requires Dispatchable(schemaTables, a.event) && Dispatchable(schemaTables, b.event)
    ensures Forwarded(schemaTables, [a, b]) == [a, b]
    ensures SentEvents([a, b]) == [a.event, b.event] && Positions([a, b]) == [a.at, b.at]
  {
    assert [a, b][..1] == [a] && [a][..0] == [];
    assert Forwarded(schemaTables, [a]) == [a];
  }

  /** Sending one more forwarded item extends the send log and the checkpoint log by one entry each. */
  lemma LogsStep(fw: seq<Emitted>, n: nat)
    requires n < |fw|
    ensures SentEvents(fw[..n + 1]) == SentEvents(fw[..n]) + [fw[n].event]
    ensures Positions(fw[..n + 1]) == Positions(fw[..n]) + [fw[n].at]
  {
  }

  /** After at least one send, the last checkpoint written is the position of the last item sent. */
  lemma LastPosition(before: seq<Position>, done: seq<Emitted>)
    requires done != []
    ensures var w := before + Positions(done); w != [] && w[|w| - 1] == done[|done| - 1].at
  {
  }

  /** What the loop has sent after `i` yielded items is a prefix of everything it sends. */
  lemma ForwardedPrefix(schemaTables: map<string, seq<string>>, es: seq<Emitted>, i: nat)
    requires i <= |es|
    ensures |Forwarded(schemaTables, es[..i])| <= |Forwarded(schemaTables, es)|
    ensures Forwarded(schemaTables, es[..i]) == Forwarded(schemaTables, es)[..|Forwarded(schemaTables, es[..i])|]
  {
    assert es == es[..i] + es[i..];
    ForwardedAppend(schemaTables, es[..i], es[i..]);
  }

  /** An item is sent iff it was yielded and passes the filter. */
  lemma {:induction false} ForwardedIff(schemaTables: map<string, seq<string>>, es: seq<Emitted>, x: Emitted)
    ensures x in Forwarded(schemaTables, es) <==> x in es && Dispatchable(schemaTables, x.event)
    decreases |es|
  {
    if es != [] {
      var init := es[..|es| - 1];
      ForwardedIff(schemaTables, init, x);
      assert es == init + [es[|es| - 1]];
    }
  }

  /**
   * The loop's filter is at least as strict as the reader's `only_schemas` / `only_tables`
   * filter: whatever it sends has a configured database and, when it names a table, a
   * configured table name.
   */
  lemma SentEventsPassReaderFilter(dbs: seq<DatabaseConfig>, e: ChangeEvent)
    requires Dispatchable(SchemaMap(Entries(dbs)), e)
    ensures e.schema in DatabaseNames(dbs)
    ensures Truthy(e.table) ==> e.table.value in TableNames(Entries(dbs))
  {
    var refs := Entries(dbs);
    var t := if Truthy(e.table) then e.table.value else "";
    SchemaMapIff(refs, e.schema, t);
    var k :| 0 <= k < |refs| && refs[k].schema == e.schema;
    EntriesIff(dbs, refs[k]);
    var i :| 0 <= i < |dbs| && dbs[i].name == e.schema && refs[k].table in dbs[i].tables;
    assert DatabaseNames(dbs)[i] == e.schema;
    if Truthy(e.table) {
      var m :| 0 <= m < |refs| && refs[m] == TableRef(e.schema, t);
      assert TableNames(refs)[m] == t;
    }
  }
}
