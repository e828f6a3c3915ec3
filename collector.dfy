/** The incremental collector: for each round of the championship that the
    table does not hold yet, it asks the game's API for every tracked team,
    appends the rows it gets and writes the whole table back after each
    round that produced rows. The API is an oracle that answers each
    (team, round) request; the CSV file is the `saved` field. */
module Collector {
  import opened Records
  import opened Sorting

  /** The last round of the championship; rounds are numbered from 1. */
  const FinalRound: int := 38

  /** The teams the collector follows, in the order it asks for them. */
  const TrackedTeams: seq<TeamId> := [50423224, 5526087, 28371048, 27794605, 20228122,
                                      50419783, 50509457, 48659451, 50530603, 50835213]

  /** The name written when the answer carries no team name. */
  const UnknownName: string := "Time Desconhecido"

  /** What one request for (team, round) comes back with. `Found` is a
      decoded answer whose fields are `None` when the key is absent;
      `NotFound` is a 404; `Failure` is any other error (an HTTP error
      status, a connection or decoding error). */
  datatype Outcome =
    | Found(name: Option<string>, points: Option<real>, assets: Option<real>)
    | NotFound
    | Failure

  /** The row an answer produces, if any: absent fields take their
      defaults, the unknown name and zero points and assets. */
  function RowFor(team: TeamId, round: int, outcome: Outcome): (r: Option<Record>)
    ensures r.Some? <==> outcome.Found?
    ensures r.Some? ==> r.value.team == team && r.value.round == round
    ensures r.Some? ==> r.value.points.Some? && r.value.assets.Some?
    ensures outcome.Found? && outcome.name.None? ==> r.value.name == UnknownName
    ensures outcome.Found? && outcome.points.None? ==> r.value.points == Some(0.0)
    ensures outcome.Found? && outcome.assets.None? ==> r.value.assets == Some(0.0)
    ensures outcome.Found? && outcome.name.Some? ==> r.value.name == outcome.name.value
    ensures outcome.Found? && outcome.points.Some? ==> r.value.points == outcome.points
    ensures outcome.Found? && outcome.assets.Some? ==> r.value.assets == outcome.assets
  {
    match outcome
    case Found(name, points, assets) =>
      Some(Record(team, name.GetOr(UnknownName), round, Some(points.GetOr(0.0)), Some(assets.GetOr(0.0))))
    case NotFound => None
    case Failure => None
  }

  /** The rows one round's requests produce, in the order of `teams`. */
  function RoundRows(teams: seq<TeamId>, round: int, fetch: (TeamId, int) -> Outcome): seq<Record>
  {
    if teams == [] then []
    else
      var last := teams[|teams| - 1];
      RoundRows(teams[..|teams| - 1], round, fetch)
        + match RowFor(last, round, fetch(last, round)) { case Some(r) => [r] case None => [] }
  }

  /** Asks for every team in turn; a 404 or an error skips that team only. */
  method FetchRound(teams: seq<TeamId>, round: int, fetch: (TeamId, int) -> Outcome)
    returns (rows: seq<Record>)
    ensures rows == RoundRows(teams, round, fetch)
  {
    rows := [];
    for i := 0 to |teams|
      invariant rows == RoundRows(teams[..i], round, fetch)
    {
      assert teams[..i + 1][..i] == teams[..i];
      var outcome := fetch(teams[i], round);
      match outcome {
        case NotFound =>
        case Failure =>
        case Found(name, points, assets) =>
          var row := Record(teams[i], name.GetOr(UnknownName), round, Some(points.GetOr(0.0)), Some(assets.GetOr(0.0)));
          rows := rows + [row];
      }
    }
    assert teams[..|teams|] == teams;
  }

  /** The teams whose request was answered, in list order. */
  function Answered(teams: seq<TeamId>, round: int, fetch: (TeamId, int) -> Outcome): seq<TeamId>
  {
    if teams == [] then []
    else
      var last := teams[|teams| - 1];
      Answered(teams[..|teams| - 1], round, fetch) + (if fetch(last, round).Found? then [last] else [])
  }

  function TeamsOf(rows: seq<Record>): (ids: seq<TeamId>)
    ensures |ids| == |rows|
    ensures forall i :: 0 <= i < |rows| ==> ids[i] == rows[i].team
  {
    seq(|rows|, i requires 0 <= i < |rows| => rows[i].team)
  }

  /** A round yields one row per answered team, in list order, each the row
      that team's answer produces, for the requested round. */
  lemma {:induction false} RoundRowsCorrect(teams: seq<TeamId>, round: int, fetch: (TeamId, int) -> Outcome)
    ensures TeamsOf(RoundRows(teams, round, fetch)) == Answered(teams, round, fetch)
    ensures |RoundRows(teams, round, fetch)| <= |teams|
    ensures var rows := RoundRows(teams, round, fetch);
      forall i :: 0 <= i < |rows| ==>
        && rows[i].round == round
        && rows[i].team in teams
        && RowFor(rows[i].team, round, fetch(rows[i].team, round)) == Some(rows[i])
  {
    if teams != [] {
      var init, last := teams[..|teams| - 1], teams[|teams| - 1];
      RoundRowsCorrect(init, round, fetch);
      var rows := RoundRows(teams, round, fetch);
      var head := RoundRows(init, round, fetch);
      assert TeamsOf(rows) == TeamsOf(head) + (if fetch(last, round).Found? then [last] else []);
      forall i | 0 <= i < |rows| ensures rows[i].team in teams {
        if i < |head| {
          assert rows[i] == head[i];
          assert rows[i].team in init;
        }
      }
    }
  }

  /** Requests are independent: the rows of a team list split in two are
      the rows of the first part followed by those of the second. */
  lemma {:induction false} RoundRowsAppend(a: seq<TeamId>, b: seq<TeamId>, round: int, fetch: (TeamId, int) -> Outcome)
    ensures RoundRows(a + b, round, fetch) == RoundRows(a, round, fetch) + RoundRows(b, round, fetch)
    decreases |b|
  {
    if b == [] {
      assert a + b == a;
    } else {
      assert (a + b)[..|a + b| - 1] == a + b[..|b| - 1];
      RoundRowsAppend(a, b[..|b| - 1], round, fetch);
    }
  }

  /** A team whose request fails or is not found contributes no row, and
      the teams after it are still asked. */
  lemma SkippedTeam(a: seq<TeamId>, team: TeamId, b: seq<TeamId>, round: int, fetch: (TeamId, int) -> Outcome)
    requires !fetch(team, round).Found?
    ensures RoundRows(a + [team] + b, round, fetch) == RoundRows(a, round, fetch) + RoundRows(b, round, fetch)
  {
    assert a + [team] + b == (a + [team]) + b;
    RoundRowsAppend(a + [team], b, round, fetch);
    RoundRowsAppend(a, [team], round, fetch);
    assert [team][..0] == [];
    assert RoundRows([team], round, fetch) == [];
  }

  /** A list of distinct teams yields rows with distinct keys. */
  lemma RoundRowsUnique(teams: seq<TeamId>, round: int, fetch: (TeamId, int) -> Outcome)
    requires Distinct(teams)
    ensures KeysDistinct(RoundRows(teams, round, fetch), Key)
  {
    RoundRowsCorrect(teams, round, fetch);
    AnsweredDistinct(teams, round, fetch);
    var rows := RoundRows(teams, round, fetch);
    forall i, j | 0 <= i < j < |rows| ensures rows[i].team != rows[j].team {
      assert TeamsOf(rows)[i] == rows[i].team && TeamsOf(rows)[j] == rows[j].team;
    }
  }

  lemma {:induction false} AnsweredDistinct(teams: seq<TeamId>, round: int, fetch: (TeamId, int) -> Outcome)
    requires Distinct(teams)
    ensures Distinct(Answered(teams, round, fetch))
    ensures forall t :: t in Answered(teams, round, fetch) ==> t in teams
  {
    if teams != [] {
      var init, last := teams[..|teams| - 1], teams[|teams| - 1];
      AnsweredDistinct(init, round, fetch);
      assert last !in init;
    }
  }

  // ---------------------------------------------------------------------
  // The round loop, as functions of the initial table

  /** One iteration: a round already present is skipped, any other round is
      fetched and its rows appended. */
  function Step(table: seq<Record>, teams: seq<TeamId>, fetch: (TeamId, int) -> Outcome, round: int): seq<Record>
  {
    if HasRound(table, round) then table else table + RoundRows(teams, round, fetch)
  }

  /** The table after rounds 1 .. k. */
  function Through(table: seq<Record>, teams: seq<TeamId>, fetch: (TeamId, int) -> Outcome, k: int): seq<Record>
    decreases k
  {
    if k < 1 then table else Step(Through(table, teams, fetch, k - 1), teams, fetch, k)
  }

  /** The rounds fetched while going through rounds 1 .. k, in order. */
  function Requested(table: seq<Record>, teams: seq<TeamId>, fetch: (TeamId, int) -> Outcome, k: int): seq<int>
    decreases k
  {
    if k < 1 then []
    else
      Requested(table, teams, fetch, k - 1)
        + (if HasRound(Through(table, teams, fetch, k - 1), k) then [] else [k])
  }

  /** The rounds after which the table was written back, in order. */
  function Checkpointed(table: seq<Record>, teams: seq<TeamId>, fetch: (TeamId, int) -> Outcome, k: int): seq<int>
    decreases k
  {
    if k < 1 then []
    else
      Checkpointed(table, teams, fetch, k - 1)
        + (if !HasRound(Through(table, teams, fetch, k - 1), k) && RoundRows(teams, k, fetch) != [] then [k] else [])
  }

  /** A round present in a table stays present in any extension of it. */
  lemma HasRoundPrefix(a: seq<Record>, b: seq<Record>, round: int)
    requires a <= b && HasRound(a, round)
    ensures HasRound(b, round)
  {
    var i :| 0 <= i < |a| && a[i].round == round;
    assert b[i] == a[i];
  }

  /** The table only grows: the initial rows stay as they are, in front,
      and every row added belongs to a tracked team and a round in 1 .. k. */
  lemma {:induction false} ThroughGrows(table: seq<Record>, teams: seq<TeamId>, fetch: (TeamId, int) -> Outcome, k: int)
    ensures table <= Through(table, teams, fetch, k)
    ensures var t := Through(table, teams, fetch, k);
      forall i :: |table| <= i < |t| ==> 1 <= t[i].round <= k && t[i].team in teams
    decreases k
  {
    if k >= 1 {
      ThroughGrows(table, teams, fetch, k - 1);
      var before := Through(table, teams, fetch, k - 1);
      if !HasRound(before, k) {
        var rows := RoundRows(teams, k, fetch);
        RoundRowsCorrect(teams, k, fetch);
        var t := before + rows;
        forall i | |table| <= i < |t| ensures 1 <= t[i].round <= k && t[i].team in teams {
          if i >= |before| {
            assert t[i] == rows[i - |before|];
          }
        }
      }
    }
  }

  /** Going through more rounds extends the table. */
  lemma {:induction false} ThroughMonotone(table: seq<Record>, teams: seq<TeamId>, fetch: (TeamId, int) -> Outcome, j: int, k: int)
    requires j <= k
    ensures Through(table, teams, fetch, j) <= Through(table, teams, fetch, k)
    decreases k - j
  {
    if j < k {
      ThroughMonotone(table, teams, fetch, j, k - 1);
      if k >= 1 {
        ThroughGrows(Through(table, teams, fetch, k - 1), teams, fetch, 0);
      }
    }
  }

  /** Rounds later than k are present after rounds 1 .. k exactly when
      they were present at the start. */
  lemma LaterRoundUntouched(table: seq<Record>, teams: seq<TeamId>, fetch: (TeamId, int) -> Outcome, k: int, round: int)
    requires k < round
    ensures HasRound(Through(table, teams, fetch, k), round) <==> HasRound(table, round)
  {
    ThroughGrows(table, teams, fetch, k);
    var t := Through(table, teams, fetch, k);
    if HasRound(t, round) {
      var i :| 0 <= i < |t| && t[i].round == round;
      assert i < |table| && table[i] == t[i];
    }
    if HasRound(table, round) {
      HasRoundPrefix(table, t, round);
    }
  }

  /** A round is fetched exactly when it lies in 1 .. k and the initial
      table has no row for it, however few teams that row covers; rounds
      are fetched in strictly increasing order. */
  lemma {:induction false} RequestedCorrect(table: seq<Record>, teams: seq<TeamId>, fetch: (TeamId, int) -> Outcome, k: int)
    ensures forall r :: r in Requested(table, teams, fetch, k) <==> 1 <= r <= k && !HasRound(table, r)
    ensures StrictlyIncreasing(Requested(table, teams, fetch, k))
    decreases k
  {
    if k >= 1 {
      RequestedCorrect(table, teams, fetch, k - 1);
      LaterRoundUntouched(table, teams, fetch, k - 1, k);
      var earlier := Requested(table, teams, fetch, k - 1);
      assert forall i :: 0 <= i < |earlier| ==> earlier[i] < k by {
        forall i | 0 <= i < |earlier| ensures earlier[i] < k {
          assert earlier[i] in earlier;
        }
      }
    }
  }

  /** The table is written back after a round exactly when that round was
      fetched and produced rows; writes come in strictly increasing round
      order. */
  lemma {:induction false} CheckpointedCorrect(table: seq<Record>, teams: seq<TeamId>, fetch: (TeamId, int) -> Outcome, k: int)
    ensures forall r :: r in Checkpointed(table, teams, fetch, k) <==>
      1 <= r <= k && !HasRound(table, r) && RoundRows(teams, r, fetch) != []
    ensures StrictlyIncreasing(Checkpointed(table, teams, fetch, k))
    decreases k
  {
    if k >= 1 {
      CheckpointedCorrect(table, teams, fetch, k - 1);
      LaterRoundUntouched(table, teams, fetch, k - 1, k);
      var earlier := Checkpointed(table, teams, fetch, k - 1);
      assert forall i :: 0 <= i < |earlier| ==> earlier[i] < k by {
        forall i | 0 <= i < |earlier| ensures earlier[i] < k {
          assert earlier[i] in earlier;
        }
      }
    }
  }

  /** A fetched round that produced no rows is still missing afterwards,
      so a later run asks for it again. */
  lemma EmptyRoundStaysOpen(table: seq<Record>, teams: seq<TeamId>, fetch: (TeamId, int) -> Outcome, k: int, round: int)
    requires 1 <= round <= k && !HasRound(table, round) && RoundRows(teams, round, fetch) == []
    ensures !HasRound(Through(table, teams, fetch, k), round)
  {
    ThroughGrows(table, teams, fetch, k);
    ThroughGrows(table, teams, fetch, round - 1);
    ThroughGrows(Through(table, teams, fetch, round), teams, fetch, 0);
    LaterRoundUntouched(table, teams, fetch, round - 1, round);
    assert Through(table, teams, fetch, round) == Through(table, teams, fetch, round - 1);
    var t := Through(table, teams, fetch, k);
    if HasRound(t, round) {
      var i :| 0 <= i < |t| && t[i].round == round;
      AddedRowRound(table, teams, fetch, k, i);
      assert false;
    }
  }

  /** A row added while going through rounds 1 .. k belongs to a round that
      was fetched and produced rows. */
  lemma {:induction false} AddedRowRound(table: seq<Record>, teams: seq<TeamId>, fetch: (TeamId, int) -> Outcome, k: int, i: nat)
    requires |table| <= i < |Through(table, teams, fetch, k)|
    ensures var r := Through(table, teams, fetch, k)[i].round;
      !HasRound(table, r) && RoundRows(teams, r, fetch) != []
    decreases k
  {
    var before := Through(table, teams, fetch, k - 1);
    if i < |before| {
      ThroughGrows(before, teams, fetch, 0);
      AddedRowRound(table, teams, fetch, k - 1, i);
    } else {
      RoundRowsCorrect(teams, k, fetch);
      LaterRoundUntouched(table, teams, fetch, k - 1, k);
    }
  }

  /** Starting from a table without repeated (team, round) pairs and a
      list of distinct teams, no pair is ever repeated. */
  lemma {:induction false} ThroughKeepsKeysUnique(table: seq<Record>, teams: seq<TeamId>, fetch: (TeamId, int) -> Outcome, k: int)
    requires KeysDistinct(table, Key) && Distinct(teams)
    ensures KeysDistinct(Through(table, teams, fetch, k), Key)
    decreases k
  {
    if k >= 1 {
      ThroughKeepsKeysUnique(table, teams, fetch, k - 1);
      var before := Through(table, teams, fetch, k - 1);
      if !HasRound(before, k) {
        var rows := RoundRows(teams, k, fetch);
        RoundRowsUnique(teams, k, fetch);
        RoundRowsCorrect(teams, k, fetch);
        forall i, j | 0 <= i < |before| && 0 <= j < |rows|
          ensures before[i].team != rows[j].team || before[i].round != rows[j].round
        {
        }
        KeysDistinctAppend(before, rows, Key);
      }
    }
  }

  /** Every round up to k is present after rounds 1 .. k unless its
      requests produced no rows. */
  lemma EarlierRoundSettled(table: seq<Record>, teams: seq<TeamId>, fetch: (TeamId, int) -> Outcome, j: int, k: int)
    requires 1 <= j <= k
    ensures HasRound(Through(table, teams, fetch, k), j) || RoundRows(teams, j, fetch) == []
  {
    var before := Through(table, teams, fetch, j - 1);
    var rows := RoundRows(teams, j, fetch);
    if !HasRound(before, j) && rows != [] {
      RoundRowsCorrect(teams, j, fetch);
      assert (before + rows)[|before|] == rows[0];
    }
    ThroughMonotone(table, teams, fetch, j, k);
    if HasRound(Through(table, teams, fetch, j), j) {
      HasRoundPrefix(Through(table, teams, fetch, j), Through(table, teams, fetch, k), j);
    }
  }

  /** Going through the first j rounds again changes nothing once rounds
      1 .. k, with j <= k, are done. */
  lemma {:induction false} RepeatedRoundsChangeNothing(table: seq<Record>, teams: seq<TeamId>, fetch: (TeamId, int) -> Outcome, j: int, k: int)
    requires j <= k
    ensures var done := Through(table, teams, fetch, k);
      Through(done, teams, fetch, j) == done
    decreases j
  {
    if j >= 1 {
      var done := Through(table, teams, fetch, k);
      RepeatedRoundsChangeNothing(table, teams, fetch, j - 1, k);
      EarlierRoundSettled(table, teams, fetch, j, k);
    }
  }

  /** Resumption: a run that starts from the table a previous run had after
      round k ends where a single run would have, because rounds already
      present are skipped and rounds that produced nothing are asked
      again. */
  lemma {:induction false} Resume(table: seq<Record>, teams: seq<TeamId>, fetch: (TeamId, int) -> Outcome, k: int, n: int)
    requires k <= n
    ensures Through(Through(table, teams, fetch, k), teams, fetch, n) == Through(table, teams, fetch, n)
    decreases n - k
  {
    if n <= k {
      RepeatedRoundsChangeNothing(table, teams, fetch, n, k);
    } else {
      Resume(table, teams, fetch, k, n - 1);
    }
  }

  /** Running the collector twice gives the table of a single run. */
  lemma Idempotent(table: seq<Record>, teams: seq<TeamId>, fetch: (TeamId, int) -> Outcome)
    ensures var once := Through(table, teams, fetch, FinalRound);
      Through(once, teams, fetch, FinalRound) == once
  {
    Resume(table, teams, fetch, FinalRound, FinalRound);
  }

  /** A run in which every round missing from the table produces no rows
      leaves the table as it was. */
  lemma {:induction false} NothingNewChangesNothing(table: seq<Record>, teams: seq<TeamId>, fetch: (TeamId, int) -> Outcome, k: int)
    requires forall r :: 1 <= r <= k && !HasRound(table, r) ==> RoundRows(teams, r, fetch) == []
    ensures Through(table, teams, fetch, k) == table
    decreases k
  {
    if k >= 1 {
      NothingNewChangesNothing(table, teams, fetch, k - 1);
    }
  }

  // ---------------------------------------------------------------------
  // The collector itself

  class Collector {
    /** The teams asked for, in order, and the API. */
    const teams: seq<TeamId>
    const fetch: (TeamId, int) -> Outcome
    /** The table in memory. */
    var table: seq<Record>
    /** The contents of the CSV file. */
    var saved: seq<Record>
    /** The rounds requested from the API, and those after which the file
        was written, in order. */
    ghost var requested: seq<int>
    ghost var checkpoints: seq<int>

    /** Starts from the rows already in the file, `[]` when there is none. */
    constructor(existing: seq<Record>, teams: seq<TeamId>, fetch: (TeamId, int) -> Outcome)
      ensures this.teams == teams && this.fetch == fetch
      ensures table == existing && saved == existing
      ensures requested == [] && checkpoints == []
    {
      this.teams := teams;
      this.fetch := fetch;
      table := existing;
      saved := existing;
      requested := [];
      checkpoints := [];
    }

    /** One iteration of the round loop: skip a round already present,
        otherwise fetch it, and append and write back its rows if any. */
    method Visit(round: int)
      modifies this
      ensures table == Step(old(table), teams, fetch, round)
      ensures requested == old(requested) + (if HasRound(old(table), round) then [] else [round])
      ensures var wrote := !HasRound(old(table), round) && RoundRows(teams, round, fetch) != [];
        && checkpoints == old(checkpoints) + (if wrote then [round] else [])
        && saved == (if wrote then table else old(saved))
    {
      if HasRound(table, round) {
        return;
      }
      requested := requested + [round];
      var rows := FetchRound(teams, round, fetch);
      if rows != [] {
        table := table + rows;
        saved := table;
        checkpoints := checkpoints + [round];
      }
    }

    /** Goes through rounds 1 .. FinalRound in order. The file always holds
        the table of the last round boundary, so a run stopped at any point
        leaves a file from which `Resume` finishes the job. */
    method Run()
      requires saved == table
      modifies this
      ensures table == Through(old(table), teams, fetch, FinalRound)
      ensures saved == table
      ensures requested == old(requested) + Requested(old(table), teams, fetch, FinalRound)
      ensures checkpoints == old(checkpoints) + Checkpointed(old(table), teams, fetch, FinalRound)
    {
      ghost var start := table;
      for round := 1 to FinalRound + 1
        invariant table == Through(start, teams, fetch, round - 1)
        invariant saved == table
        invariant requested == old(requested) + Requested(start, teams, fetch, round - 1)
        invariant checkpoints == old(checkpoints) + Checkpointed(start, teams, fetch, round - 1)
      {
        Visit(round);
      }
    }
  }

  /** The collector over the tracked teams never repeats a (team, round)
      pair that the file did not already repeat. */
  lemma TrackedRunKeepsKeysUnique(table: seq<Record>, fetch: (TeamId, int) -> Outcome)
    requires KeysDistinct(table, Key)
    ensures KeysDistinct(Through(table, TrackedTeams, fetch, FinalRound), Key)
  {
    ThroughKeepsKeysUnique(table, TrackedTeams, fetch, FinalRound);
  }
}
