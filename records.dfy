/** The table shared by the collector and the dashboard: one row per
    (team, round), as it is written to and read back from the CSV file. */
module Records {

  /** Team ids are numeric strings in the collector and integers once the
      file has been read back; the model uses the number throughout. */
  type TeamId = nat

  datatype Option<+T> = None | Some(value: T) {
    function GetOr(default: T): T {
      match this
      case Some(v) => v
      case None => default
    }
  }

  /** One persisted row. `None` is an empty cell of the file. */
  datatype Record = Record(
    team: TeamId,      // id_time
    name: string,      // nome_time, as reported when the round was fetched
    round: int,        // rodada
    points: Option<real>,  // pontos
    assets: Option<real>   // patrimonio
  )

  /** True when some row of `table` belongs to round `round`. */
  predicate HasRound(table: seq<Record>, round: int) {
    exists i :: 0 <= i < |table| && table[i].round == round
  }

  /** A row's key: no two rows of a well-formed table share one. */
  function Key(r: Record): (TeamId, int) {
    (r.team, r.round)
  }
}
