/** The dashboard's loading step (`carregar_dados`): the persisted rows are
    given zero points where the cell is empty, relabelled with each team's
    latest name, ordered by team and round, given a per-team running total
    and a dense rank of that total within each round. */
module Ranking {
  import opened Records
  import opened Sorting

  /** A row once its points are known (the frame after fillna). */
  datatype Row = Row(team: TeamId, name: string, round: int, points: real, assets: Option<real>)

  /** A row with the two derived columns pontos_acumulados and posicao. */
  datatype Ranked = Ranked(row: Row, cumulative: real, position: int)

  // ---------------------------------------------------------------------
  // Step 1: empty points become 0

  function FillMissingPoints(records: seq<Record>): (rows: seq<Row>)
    ensures |rows| == |records|
    ensures forall i :: 0 <= i < |records| ==>
      && rows[i].team == records[i].team
      && rows[i].name == records[i].name
      && rows[i].round == records[i].round
      && rows[i].assets == records[i].assets
    ensures forall i :: 0 <= i < |records| ==>
      rows[i].points == if records[i].points.Some? then records[i].points.value else 0.0
  {
    seq(|records|, i requires 0 <= i < |records| =>
      Row(records[i].team, records[i].name, records[i].round, records[i].points.GetOr(0.0), records[i].assets))
  }

  // ---------------------------------------------------------------------
  // Step 2: every row of a team takes the name of the team's latest row

  predicate HasTeam(rows: seq<Row>, team: TeamId) {
    exists i :: 0 <= i < |rows| && rows[i].team == team
  }

  /** The index of the team's row with the largest round; among rows that
      share that round, the last one in table order. */
  function LatestIndex(rows: seq<Row>, team: TeamId): (k: nat)
    requires HasTeam(rows, team)
    ensures k < |rows| && rows[k].team == team
    ensures forall i :: 0 <= i < |rows| && rows[i].team == team ==> rows[i].round <= rows[k].round
    ensures forall i :: k < i < |rows| && rows[i].team == team ==> rows[i].round < rows[k].round
  {
    var last := |rows| - 1;
    if rows[last].team != team then
      assert HasTeam(rows[..last], team) by {
        var i :| 0 <= i < |rows| && rows[i].team == team;
        assert rows[..last][i] == rows[i];
      }
      LatestIndex(rows[..last], team)
    else if !HasTeam(rows[..last], team) then
      assert forall i :: 0 <= i < last ==> rows[i].team != team by {
        forall i | 0 <= i < last ensures rows[i].team != team {
          assert rows[..last][i] == rows[i];
        }
      }
      last
    else
      var k := LatestIndex(rows[..last], team);
      assert forall i :: 0 <= i < last ==> rows[..last][i] == rows[i];
      if rows[k].round > rows[last].round then k else last
  }

  function CanonicalNames(rows: seq<Row>): (named: seq<Row>)
    ensures |named| == |rows|
    ensures forall i :: 0 <= i < |rows| ==> named[i].(name := rows[i].name) == rows[i]
    ensures forall i, j :: 0 <= i < |rows| && 0 <= j < |rows| && rows[i].team == rows[j].team ==>
      named[i].name == named[j].name
    ensures forall i :: 0 <= i < |rows| ==> exists k ::
      && 0 <= k < |rows|
      && rows[k].team == rows[i].team
      && named[i].name == rows[k].name
      && forall j :: 0 <= j < |rows| && rows[j].team == rows[i].team ==> rows[j].round <= rows[k].round
  {
    var latest := seq(|rows|, i requires 0 <= i < |rows| =>
      assert HasTeam(rows, rows[i].team);
      LatestIndex(rows, rows[i].team));
    assert forall i :: 0 <= i < |rows| ==> latest[i] < |rows| && rows[latest[i]].team == rows[i].team;
    seq(|rows|, i requires 0 <= i < |rows| => rows[i].(name := rows[latest[i]].name))
  }

  // ---------------------------------------------------------------------
  // Step 3: order by team, then round

  predicate TeamThenRound(a: Row, b: Row) {
    a.team < b.team || (a.team == b.team && a.round <= b.round)
  }

  lemma TeamThenRoundIsPreorder()
    ensures TotalPreorder(TeamThenRound)
  {
  }

  // ---------------------------------------------------------------------
  // Step 4a: running total of a team's points, in table order

  /** The points of `team` summed over `rows`. */
  function PointsOf(rows: seq<Row>, team: TeamId): real {
    if rows == [] then 0.0
    else PointsOf(rows[..|rows| - 1], team)
         + (if rows[|rows| - 1].team == team then rows[|rows| - 1].points else 0.0)
  }

  /** The points of `team` summed over its rows of rounds up to `round`. */
  function PointsThrough(rows: seq<Row>, team: TeamId, round: int): real {
    if rows == [] then 0.0
    else PointsThrough(rows[..|rows| - 1], team, round)
         + (var r := rows[|rows| - 1]; if r.team == team && r.round <= round then r.points else 0.0)
  }

  /** groupby('id_time').cumsum(): the team's points over rows 0 .. i. */
  function RunningTotal(rows: seq<Row>, i: nat): real
    requires i < |rows|
  {
    PointsOf(rows[..i + 1], rows[i].team)
  }

  // ---------------------------------------------------------------------
  // Step 4b: dense rank, descending, of the running totals of one round

  /** The distinct running totals among the rows of round `round`. */
  function Totals(table: seq<Ranked>, round: int): set<real> {
    set i | 0 <= i < |table| && table[i].row.round == round :: table[i].cumulative
  }

  function Above(values: set<real>, v: real): set<real> {
    set w | w in values && w > v
  }

  /** rank(method='dense', ascending=False): one more than the number of
      distinct values strictly above `v`. */
  function DenseRank(values: set<real>, v: real): (p: int)
    ensures p >= 1
    ensures v in values ==> p <= |values|
  {
    if v in values then
      assert Above(values, v) <= values - {v};
      SubsetCard(Above(values, v), values - {v});
      |Above(values, v)| + 1
    else
      |Above(values, v)| + 1
  }

  ghost predicate DenselyRanked(table: seq<Ranked>) {
    forall i :: 0 <= i < |table| ==>
      table[i].position == DenseRank(Totals(table, table[i].row.round), table[i].cumulative)
  }

  function Rows(table: seq<Ranked>): (rows: seq<Row>)
    ensures |rows| == |table|
    ensures forall i :: 0 <= i < |table| ==> rows[i] == table[i].row
  {
    seq(|table|, i requires 0 <= i < |table| => table[i].row)
  }

  /** Adds pontos_acumulados and then posicao to the ordered rows. */
  function Rank(rows: seq<Row>): (table: seq<Ranked>)
    ensures Rows(table) == rows
    ensures forall i :: 0 <= i < |rows| ==> table[i].cumulative == RunningTotal(rows, i)
    ensures DenselyRanked(table)
  {
    var accumulated := seq(|rows|, i requires 0 <= i < |rows| => Ranked(rows[i], RunningTotal(rows, i), 0));
    var table := seq(|rows|, i requires 0 <= i < |rows| =>
      accumulated[i].(position := DenseRank(Totals(accumulated, rows[i].round), accumulated[i].cumulative)));
    assert forall q :: Totals(table, q) == Totals(accumulated, q) by {
      forall q ensures Totals(table, q) == Totals(accumulated, q) {
        assert forall i :: 0 <= i < |rows| ==> table[i].cumulative == accumulated[i].cumulative;
      }
    }
    table
  }

  /** carregar_dados, without the file: fill, rename, order, accumulate, rank. */
  function Load(records: seq<Record>): (table: seq<Ranked>)
    ensures |table| == |records|
  {
    Rank(Sort(CanonicalNames(FillMissingPoints(records)), TeamThenRound))
  }

  // ---------------------------------------------------------------------
  // Running totals

  /** `Records.Key` for a loaded row, whose points are no longer optional. */
  function RowKey(r: Row): (TeamId, int) {
    (r.team, r.round)
  }

  lemma {:induction false} PointsThroughAppend(a: seq<Row>, b: seq<Row>, team: TeamId, round: int)
    ensures PointsThrough(a + b, team, round) == PointsThrough(a, team, round) + PointsThrough(b, team, round)
    decreases |b|
  {
    if b != [] {
      assert (a + b)[..|a + b| - 1] == a + b[..|b| - 1];
      PointsThroughAppend(a, b[..|b| - 1], team, round);
    } else {
      assert a + b == a;
    }
  }

  /** When no row of the team lies beyond `round`, the filtered sum is the
      team's whole sum. */
  lemma {:induction false} PointsThroughAll(rows: seq<Row>, team: TeamId, round: int)
    requires forall k :: 0 <= k < |rows| && rows[k].team == team ==> rows[k].round <= round
    ensures PointsThrough(rows, team, round) == PointsOf(rows, team)
  {
    if rows != [] {
      PointsThroughAll(rows[..|rows| - 1], team, round);
    }
  }

  /** When every row of the team lies beyond `round`, the filtered sum is 0. */
  lemma {:induction false} PointsThroughNone(rows: seq<Row>, team: TeamId, round: int)
    requires forall k :: 0 <= k < |rows| && rows[k].team == team ==> rows[k].round > round
    ensures PointsThrough(rows, team, round) == 0.0
  {
    if rows != [] {
      PointsThroughNone(rows[..|rows| - 1], team, round);
    }
  }

  lemma {:induction false} PointsOfAbsent(rows: seq<Row>, team: TeamId)
    requires forall k :: 0 <= k < |rows| ==> rows[k].team != team
    ensures PointsOf(rows, team) == 0.0
  {
    if rows != [] {
      PointsOfAbsent(rows[..|rows| - 1], team);
    }
  }

  lemma SortedPair(rows: seq<Row>, a: nat, b: nat)
    requires SortedBy(rows, TeamThenRound) && a < b < |rows|
    ensures rows[a].team < rows[b].team || (rows[a].team == rows[b].team && rows[a].round <= rows[b].round)
  {
    assert TeamThenRound(rows[a], rows[b]);
  }

  lemma EarlierRowsOfTeam(rows: seq<Row>, i: nat)
    requires SortedBy(rows, TeamThenRound) && i < |rows|
    ensures forall k :: 0 <= k <= i && rows[k].team == rows[i].team ==> rows[k].round <= rows[i].round
  {
    forall k | 0 <= k < i && rows[k].team == rows[i].team ensures rows[k].round <= rows[i].round {
      SortedPair(rows, k, i);
    }
  }

  lemma LaterRowsOfTeam(rows: seq<Row>, i: nat)
    requires SortedBy(rows, TeamThenRound) && KeysDistinct(rows, RowKey) && i < |rows|
    ensures forall k :: i < k < |rows| && rows[k].team == rows[i].team ==> rows[k].round > rows[i].round
  {
    forall k | i < k < |rows| && rows[k].team == rows[i].team ensures rows[k].round > rows[i].round {
      SortedPair(rows, i, k);
      assert RowKey(rows[i]) != RowKey(rows[k]);
    }
  }

  /** In a table ordered by team then round without repeated (team, round)
      pairs, a row's running total is its team's points over the rounds up
      to and including its own. */
  lemma RunningTotalIsSumThroughRound(rows: seq<Row>, i: nat)
    requires SortedBy(rows, TeamThenRound) && KeysDistinct(rows, RowKey)
    requires i < |rows|
    ensures RunningTotal(rows, i) == PointsThrough(rows, rows[i].team, rows[i].round)
  {
    var t, q := rows[i].team, rows[i].round;
    assert rows == rows[..i + 1] + rows[i + 1..];
    PointsThroughAppend(rows[..i + 1], rows[i + 1..], t, q);
    PrefixThroughRound(rows, i);
    SuffixBeyondRound(rows, i);
  }

  /** The rows up to a row hold none of its team beyond its round. */
  lemma PrefixThroughRound(rows: seq<Row>, i: nat)
    requires SortedBy(rows, TeamThenRound) && i < |rows|
    ensures PointsThrough(rows[..i + 1], rows[i].team, rows[i].round) == RunningTotal(rows, i)
  {
    var before := rows[..i + 1];
    EarlierRowsOfTeam(rows, i);
    assert forall k :: 0 <= k < |before| ==> before[k] == rows[k];
    PointsThroughAll(before, rows[i].team, rows[i].round);
  }

  /** The rows after a row hold none of its team up to its round. */
  lemma SuffixBeyondRound(rows: seq<Row>, i: nat)
    requires SortedBy(rows, TeamThenRound) && KeysDistinct(rows, RowKey) && i < |rows|
    ensures PointsThrough(rows[i + 1..], rows[i].team, rows[i].round) == 0.0
  {
    var after := rows[i + 1..];
    LaterRowsOfTeam(rows, i);
    assert forall k :: 0 <= k < |after| ==> after[k] == rows[i + 1 + k];
    PointsThroughNone(after, rows[i].team, rows[i].round);
  }

  /** Each step of a team's running total adds that row's points; a team's
      first row starts from zero. */
  lemma RunningTotalStep(rows: seq<Row>, i: nat)
    requires SortedBy(rows, TeamThenRound)
    requires i < |rows|
    ensures RunningTotal(rows, i) ==
      (if i > 0 && rows[i - 1].team == rows[i].team then RunningTotal(rows, i - 1) else 0.0)
      + rows[i].points
  {
    var t := rows[i].team;
    assert rows[..i + 1][..i] == rows[..i];
    if i > 0 && rows[i - 1].team == t {
      assert rows[..i] == rows[..i - 1 + 1];
    } else {
      forall k | 0 <= k < i ensures rows[..i][k].team != t {
        SortedPair(rows, i - 1, i);
        if k < i - 1 { SortedPair(rows, k, i - 1); }
      }
      PointsOfAbsent(rows[..i], t);
    }
  }

  lemma {:induction false} PointsOfPrefix(rows: seq<Row>, n: nat, team: TeamId)
    requires n <= |rows|
    requires forall k :: 0 <= k < |rows| ==> rows[k].points >= 0.0
    ensures PointsOf(rows[..n], team) <= PointsOf(rows, team)
    decreases |rows|
  {
    if n < |rows| {
      assert rows[..|rows| - 1][..n] == rows[..n];
      PointsOfPrefix(rows[..|rows| - 1], n, team);
    } else {
      assert rows[..n] == rows;
    }
  }

  /** With points that are never negative, a team's running total never
      decreases along the table. */
  lemma RunningTotalNonDecreasing(rows: seq<Row>, i: nat, j: nat)
    requires i <= j < |rows| && rows[i].team == rows[j].team
    requires forall k :: 0 <= k < |rows| ==> rows[k].points >= 0.0
    ensures RunningTotal(rows, i) <= RunningTotal(rows, j)
  {
    assert rows[..j + 1][..i + 1] == rows[..i + 1];
    PointsOfPrefix(rows[..j + 1], i + 1, rows[i].team);
  }

  // ---------------------------------------------------------------------
  // Dense rank

  /** A strictly larger value has a strictly smaller dense rank. */
  lemma DenseRankStrict(values: set<real>, v: real, w: real)
    requires w in values && v < w
    ensures DenseRank(values, w) < DenseRank(values, v)
  {
    assert Above(values, w) <= Above(values, v) - {w};
    assert w in Above(values, v);
    SubsetCard(Above(values, w), Above(values, v) - {w});
  }

  /** Dense ranks of distinct members are distinct, so a subset of the
      values has as many ranks as members. */
  lemma {:induction false} DenseRankImage(values: set<real>, s: set<real>)
    requires s <= values
    ensures |set v | v in s :: DenseRank(values, v)| == |s|
    decreases s
  {
    if s != {} {
      var x := Pick(s);
      var rest := s - {x};
      DenseRankImage(values, rest);
      var image := set v | v in rest :: DenseRank(values, v);
      assert (set v | v in s :: DenseRank(values, v)) == image + {DenseRank(values, x)};
      forall v | v in rest ensures DenseRank(values, v) != DenseRank(values, x) {
        if v < x { DenseRankStrict(values, v, x); } else { DenseRankStrict(values, x, v); }
      }
    }
  }

  /** The dense ranks of a finite set of values are exactly 1 .. its size. */
  lemma DenseRanksAreInterval(values: set<real>)
    ensures (set v | v in values :: DenseRank(values, v)) == Interval(1, |values| + 1)
  {
    var image := set v | v in values :: DenseRank(values, v);
    DenseRankImage(values, values);
    assert image <= Interval(1, |values| + 1);
    SubsetFull(image, Interval(1, |values| + 1));
  }

  /** Totals 100, 100 and 90 get positions 1, 1 and 2, not 1, 1 and 3. */
  lemma DenseRankExample()
    ensures DenseRank({100.0, 90.0}, 100.0) == 1
    ensures DenseRank({100.0, 90.0}, 90.0) == 2
  {
    assert Above({100.0, 90.0}, 100.0) == {};
    assert Above({100.0, 90.0}, 90.0) == {100.0};
  }

  /** Within one round of a densely ranked table: equal totals share a
      position, and a larger total has a smaller position, both ways. */
  lemma PositionOrder(table: seq<Ranked>, i: nat, j: nat)
    requires DenselyRanked(table)
    requires i < |table| && j < |table| && table[i].row.round == table[j].row.round
    ensures table[i].position >= 1
    ensures table[i].cumulative == table[j].cumulative <==> table[i].position == table[j].position
    ensures table[i].cumulative > table[j].cumulative <==> table[i].position < table[j].position
  {
    var values := Totals(table, table[i].row.round);
    assert table[i].cumulative in values && table[j].cumulative in values;
    if table[i].cumulative > table[j].cumulative {
      DenseRankStrict(values, table[j].cumulative, table[i].cumulative);
    } else if table[i].cumulative < table[j].cumulative {
      DenseRankStrict(values, table[i].cumulative, table[j].cumulative);
    }
  }

  /** The positions used in a round are exactly 1 .. k, where k is the
      number of distinct running totals among that round's rows. */
  lemma PositionsOfRound(table: seq<Ranked>, round: int)
    requires DenselyRanked(table)
    ensures (set i | 0 <= i < |table| && table[i].row.round == round :: table[i].position)
         == Interval(1, |Totals(table, round)| + 1)
  {
    var values := Totals(table, round);
    DenseRanksAreInterval(values);
    var used := set i | 0 <= i < |table| && table[i].row.round == round :: table[i].position;
    forall p | p in Interval(1, |values| + 1) ensures p in used {
      assert p in (set v | v in values :: DenseRank(values, v));
      var v :| v in values && DenseRank(values, v) == p;
      var i :| 0 <= i < |table| && table[i].row.round == round && table[i].cumulative == v;
    }
    forall p | p in used ensures p in Interval(1, |values| + 1) {
      var i :| 0 <= i < |table| && table[i].row.round == round && table[i].position == p;
      assert table[i].cumulative in values;
    }
  }

  /** Every round that has a row has a row in position 1. */
  lemma RoundHasLeader(table: seq<Ranked>, i: nat)
    requires DenselyRanked(table) && i < |table|
    ensures exists j :: 0 <= j < |table| && table[j].row.round == table[i].row.round && table[j].position == 1
  {
    var round := table[i].row.round;
    PositionsOfRound(table, round);
    assert table[i].cumulative in Totals(table, round);
    assert 1 in Interval(1, |Totals(table, round)| + 1);
  }

  // ---------------------------------------------------------------------
  // The loaded table

  /** Loading keeps every row (renamed), orders the table by team then
      round and ranks it densely within each round. */
  lemma LoadShape(records: seq<Record>)
    ensures multiset(Rows(Load(records))) == multiset(CanonicalNames(FillMissingPoints(records)))
    ensures SortedBy(Rows(Load(records)), TeamThenRound)
    ensures DenselyRanked(Load(records))
  {
    TeamThenRoundIsPreorder();
    SortCorrect(CanonicalNames(FillMissingPoints(records)), TeamThenRound);
  }

  /** Keys that are unique in the file stay unique once loaded. */
  lemma LoadKeepsKeysDistinct(records: seq<Record>)
    requires KeysDistinct(records, Key)
    ensures KeysDistinct(Rows(Load(records)), RowKey)
  {
    var filled := FillMissingPoints(records);
    var named := CanonicalNames(filled);
    forall a, b | 0 <= a < b < |named| ensures RowKey(named[a]) != RowKey(named[b]) {
      assert named[a].(name := filled[a].name) == filled[a];
      assert named[b].(name := filled[b].name) == filled[b];
    }
    LoadShape(records);
    PermutationKeepsKeysDistinct(named, Rows(Load(records)), RowKey);
  }

  /** Given a file without repeated (team, round) pairs, each loaded row's
      running total is its team's points over rounds up to its own. */
  lemma LoadCumulative(records: seq<Record>, i: nat)
    requires KeysDistinct(records, Key)
    requires i < |records|
    ensures var table := Load(records);
      table[i].cumulative == PointsThrough(Rows(table), table[i].row.team, table[i].row.round)
  {
    LoadShape(records);
    LoadKeepsKeysDistinct(records);
    var sorted := Sort(CanonicalNames(FillMissingPoints(records)), TeamThenRound);
    assert Rows(Load(records)) == sorted;
    RunningTotalIsSumThroughRound(sorted, i);
  }
}
