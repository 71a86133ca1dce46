/** Classification of a table's primary key from the catalog rows (`Mysql.get_primary_key`). */
module PrimaryKey {

  /** What `get_primary_key` returns: None, one column name, or a tuple of column names. */
  datatype PrimaryKey = NoKey | Single(column: string) | Composite(columns: seq<string>)

  /**
   * Classifies the COLUMN_NAME values the information_schema query returned for one table,
   * in result order.
   */
  function GetPrimaryKey(rows: seq<string>): (pk: PrimaryKey)
    ensures pk.NoKey? <==> |rows| == 0
    ensures pk.Single? <==> |rows| == 1
    ensures pk.Composite? <==> |rows| >= 2
    ensures pk.Single? ==> pk.column == rows[0]
    ensures pk.Composite? ==> pk.columns == rows
  {
    if |rows| == 0 then NoKey
    else if |rows| > 1 then Composite(rows)
    else Single(rows[0])
  }

  /** The column names a key stands for. */
  function Columns(pk: PrimaryKey): seq<string>
  {
    match pk
    case NoKey => []
    case Single(c) => [c]
    case Composite(cs) => cs
  }

  /** Classification loses nothing: the key's columns are exactly the catalog rows. */
  lemma ColumnsRoundTrip(rows: seq<string>)
    ensures Columns(GetPrimaryKey(rows)) == rows
  {
  }

  /**
   * `not pk or isinstance(pk, tuple)`: the key cannot identify a row. A single column name is
   * falsy only when it is the empty string.
   */
  predicate NeedsAutoSkip(pk: PrimaryKey)
  {
    match pk
    case NoKey => true
    case Single(c) => c == ""
    case Composite(_) => true
  }

  /** A table is auto-skipped exactly when its catalog query does not return one non-empty name. */
  lemma NeedsAutoSkipIff(rows: seq<string>)
    ensures NeedsAutoSkip(GetPrimaryKey(rows)) <==> |rows| != 1 || rows[0] == ""
  {
  }
}
