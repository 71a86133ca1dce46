/** Where `Mysql.start_sync` resumes reading the binlog, and whether it records that choice. */
module StartPosition {
  import opened Wrappers
  import opened Events

  /**
   * A (file, pos) pair as the position store returns it or the configuration supplies it
   * (`init_binlog_file`, `init_binlog_pos`); either half may be missing.
   */
  datatype StoredPos = StoredPos(file: Option<string>, pos: Option<int>)

  /** `log_file and log_pos`: both halves present and truthy (a non-empty name, a non-zero offset). */
  predicate IsSet(p: StoredPos)
  {
    p.file.Some? && p.file.value != "" && p.pos.Some? && p.pos.value != 0
  }

  /** The pair `set_log_pos_slave(file, pos)` leaves in the store. */
  function AsStored(at: Position): StoredPos
  {
    StoredPos(Some(at.file), Some(at.pos))
  }

  /** The position streaming starts from, and whether it has to be written to the store first. */
  datatype Start = Start(at: Position, persist: bool)

  /** `show master status` returned no row, so `execute(sql)[0]` raises. */
  datatype StartError = EmptyMasterStatus

  /**
   * The resume rule: the stored checkpoint if it is set, else the configured initial pair if it
   * is set, else the master's current head; only a fallback is persisted.
   */
  function ResolveStart(stored: StoredPos, init: StoredPos, master: Option<Position>): (r: Result<Start, StartError>)
    ensures r.Err? <==> !IsSet(stored) && !IsSet(init) && master.None?
    ensures r.Ok? ==> (r.value.persist <==> !IsSet(stored))
    ensures IsSet(stored) ==> r.Ok? && AsStored(r.value.at) == stored
    ensures !IsSet(stored) && IsSet(init) ==> r.Ok? && AsStored(r.value.at) == init
    ensures !IsSet(stored) && !IsSet(init) && master.Some? ==> r == Ok(Start(master.value, true))
  {
    if IsSet(stored) then Ok(Start(Position(stored.file.value, stored.pos.value), false))
    else if IsSet(init) then Ok(Start(Position(init.file.value, init.pos.value), true))
    else if master.Some? then Ok(Start(master.value, true))
    else Err(EmptyMasterStatus)
  }

  /**
   * Restarting after the choice has been persisted resumes at the same position and writes
   * nothing, whatever the configuration and the master say by then (provided the persisted
   * pair is truthy: a master offset of 0 would be resolved again).
   */
  lemma ResolveStartStable(stored: StoredPos, init: StoredPos, master: Option<Position>,
                           init': StoredPos, master': Option<Position>)
    requires ResolveStart(stored, init, master).Ok?
    requires IsSet(AsStored(ResolveStart(stored, init, master).value.at))
    ensures var at := ResolveStart(stored, init, master).value.at;
      ResolveStart(AsStored(at), init', master') == Ok(Start(at, false))
  {
  }
}
