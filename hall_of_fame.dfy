/** The dashboard's season statistics over the loaded table: the round
    kings (the round's top scorer), the leaders (rows in position 1) and each
    team's three best rounds. Teams are grouped by id. */
module HallOfFame {
  import opened Records
  import opened Sorting
  import opened Ranking

  /** Rows kept by head(3). */
  const TopCount: nat := 3

  function RoundColumn(table: seq<Ranked>): (rounds: seq<int>)
    ensures |rounds| == |table|
    ensures forall i :: 0 <= i < |table| ==> rounds[i] == table[i].row.round
  {
    seq(|table|, i requires 0 <= i < |table| => table[i].row.round)
  }

  function TeamColumn(table: seq<Ranked>): (teams: seq<int>)
    ensures |teams| == |table|
    ensures forall i :: 0 <= i < |table| ==> teams[i] == table[i].row.team
  {
    seq(|table|, i requires 0 <= i < |table| => table[i].row.team)
  }

  function RoundsOf(table: seq<Ranked>): set<int> {
    set i | 0 <= i < |table| :: table[i].row.round
  }

  // ---------------------------------------------------------------------
  // Grouping by team

  /** The rows of team `team`, in table order (one group of groupby('id_time')). */
  function OfTeam(s: seq<Ranked>, team: int): (rows: seq<Ranked>)
    ensures |rows| <= |s|
  {
    if s == [] then []
    else
      var last := s[|s| - 1];
      OfTeam(s[..|s| - 1], team) + (if last.row.team == team then [last] else [])
  }

  /** The group of a team holds exactly the team's rows. */
  lemma {:induction false} OfTeamMember(s: seq<Ranked>, team: int, x: Ranked)
    ensures x in OfTeam(s, team) <==> x in s && x.row.team == team
  {
    if s != [] {
      var init, last := s[..|s| - 1], s[|s| - 1];
      assert s == init + [last];
      OfTeamMember(init, team, x);
    }
  }

  /** The number of times `v` occurs in `teams`. */
  function Occurrences(teams: seq<int>, v: int): nat {
    if teams == [] then 0
    else Occurrences(teams[..|teams| - 1], v) + (if teams[|teams| - 1] == v then 1 else 0)
  }

  /** The group sizes of `s` added up over `teams`. */
  function SumOfGroups(s: seq<Ranked>, teams: seq<int>): nat {
    if teams == [] then 0
    else SumOfGroups(s, teams[..|teams| - 1]) + |OfTeam(s, teams[|teams| - 1])|
  }

  lemma {:induction false} OccursOnce(teams: seq<int>, v: int)
    requires Distinct(teams) && v in teams
    ensures Occurrences(teams, v) == 1
  {
    var init := teams[..|teams| - 1];
    assert teams == init + [teams[|teams| - 1]];
    if teams[|teams| - 1] == v {
      OccursNever(init, v);
    } else {
      assert v in init;
      OccursOnce(init, v);
    }
  }

  lemma {:induction false} OccursNever(teams: seq<int>, v: int)
    requires v !in teams
    ensures Occurrences(teams, v) == 0
  {
    if teams != [] {
      assert teams == teams[..|teams| - 1] + [teams[|teams| - 1]];
      OccursNever(teams[..|teams| - 1], v);
    }
  }

  lemma {:induction false} SumOfGroupsSnoc(s: seq<Ranked>, x: Ranked, teams: seq<int>)
    ensures SumOfGroups(s + [x], teams) == SumOfGroups(s, teams) + Occurrences(teams, x.row.team)
  {
    if teams != [] {
      SumOfGroupsSnoc(s, x, teams[..|teams| - 1]);
      assert (s + [x])[..|s + [x]| - 1] == s;
    }
  }

  /** Grouping by team loses and duplicates nothing: over a list that names
      every team once, the group sizes add up to the number of rows. */
  lemma {:induction false} GroupsPartition(s: seq<Ranked>, teams: seq<int>)
    requires Distinct(teams)
    requires forall i :: 0 <= i < |s| ==> s[i].row.team in teams
    ensures SumOfGroups(s, teams) == |s|
  {
    if s == [] {
      EmptyGroups(teams);
    } else {
      var init, x := s[..|s| - 1], s[|s| - 1];
      assert s == init + [x];
      GroupsPartition(init, teams);
      SumOfGroupsSnoc(init, x, teams);
      OccursOnce(teams, x.row.team);
    }
  }

  lemma {:induction false} EmptyGroups(teams: seq<int>)
    ensures SumOfGroups([], teams) == 0
  {
    if teams != [] {
      EmptyGroups(teams[..|teams| - 1]);
    }
  }

  lemma IncreasingIsDistinct(s: seq<int>)
    requires StrictlyIncreasing(s)
    ensures Distinct(s)
  {
  }

  /** Different rows of `s` can only share a round as often as `s` has rows. */
  lemma {:induction false} RoundsAtMostRows(s: seq<Ranked>)
    ensures |RoundsOf(s)| <= |s|
  {
    if s != [] {
      var init := s[..|s| - 1];
      RoundsAtMostRows(init);
      assert RoundsOf(s) <= RoundsOf(init) + {s[|s| - 1].row.round} by {
        forall q | q in RoundsOf(s) ensures q in RoundsOf(init) + {s[|s| - 1].row.round} {
          var i :| 0 <= i < |s| && s[i].row.round == q;
          if i < |s| - 1 { assert init[i] == s[i]; }
        }
      }
      SubsetCard(RoundsOf(s), RoundsOf(init) + {s[|s| - 1].row.round});
    }
  }

  // ---------------------------------------------------------------------
  // Round kings (Reis da Rodada)

  /** groupby('rodada')['pontos'].idxmax(): the first row of the round, in
      table order, whose points are the round's largest. */
  function FirstMaxIndex(table: seq<Ranked>, round: int): (k: nat)
    requires round in RoundsOf(table)
    ensures k < |table| && table[k].row.round == round
    ensures forall j :: 0 <= j < |table| && table[j].row.round == round ==>
      table[j].row.points <= table[k].row.points
    ensures forall j :: 0 <= j < k && table[j].row.round == round ==>
      table[j].row.points < table[k].row.points
  {
    var last := |table| - 1;
    var init := table[..last];
    assert forall j :: 0 <= j < last ==> init[j] == table[j];
    if round !in RoundsOf(init) then
      assert table[last].row.round == round;
      last
    else
      var k := FirstMaxIndex(init, round);
      if table[last].row.round == round && table[last].row.points > table[k].row.points then last else k
  }

  /** The ascending distinct rounds of the table are its rounds. */
  lemma DistinctRounds(table: seq<Ranked>)
    ensures forall q :: q in SortedDistinct(RoundColumn(table)) <==> q in RoundsOf(table)
  {
    forall q ensures q in SortedDistinct(RoundColumn(table)) <==> q in RoundsOf(table) {
      if q in RoundColumn(table) {
        var i :| 0 <= i < |table| && RoundColumn(table)[i] == q;
      }
      if q in RoundsOf(table) {
        var i :| 0 <= i < |table| && table[i].row.round == q;
        assert RoundColumn(table)[i] == q;
      }
    }
  }

  /** dados.loc[idxmax]: one winning row per round, in ascending round order. */
  function RoundWinners(table: seq<Ranked>): (winners: seq<Ranked>)
    ensures |winners| == |RoundsOf(table)|
    ensures forall k, l :: 0 <= k < l < |winners| ==> winners[k].row.round < winners[l].row.round
  {
    var rounds := SortedDistinct(RoundColumn(table));
    DistinctRounds(table);
    IncreasingCard(rounds);
    assert (set q | q in rounds) == RoundsOf(table);
    seq(|rounds|, k requires 0 <= k < |rounds| => table[FirstMaxIndex(table, rounds[k])])
  }

  /** Unfolds `RoundWinners`; an aid to the proofs below. */
  lemma WinnersShape(table: seq<Ranked>)
    ensures var rounds := SortedDistinct(RoundColumn(table));
      && |RoundWinners(table)| == |rounds|
      && forall k :: 0 <= k < |rounds| ==>
           rounds[k] in RoundsOf(table) && RoundWinners(table)[k] == table[FirstMaxIndex(table, rounds[k])]
  {
    DistinctRounds(table);
  }

  /** A round has a winner exactly when it occurs in the table. */
  lemma RoundHasWinner(table: seq<Ranked>, q: int)
    ensures q in RoundsOf(table) <==>
      exists k :: 0 <= k < |RoundWinners(table)| && RoundWinners(table)[k].row.round == q
  {
    var rounds := SortedDistinct(RoundColumn(table));
    WinnersShape(table);
    DistinctRounds(table);
    if q in RoundsOf(table) {
      var k :| 0 <= k < |rounds| && rounds[k] == q;
      assert RoundWinners(table)[k].row.round == q;
    }
  }

  /** A round has a winner exactly when it occurs in the table. */
  lemma AllRoundsHaveWinners(table: seq<Ranked>)
    ensures var winners := RoundWinners(table);
      forall q :: q in RoundsOf(table) <==> exists k :: 0 <= k < |winners| && winners[k].row.round == q
  {
    var winners := RoundWinners(table);
    forall q ensures q in RoundsOf(table) <==> exists k :: 0 <= k < |winners| && winners[k].row.round == q {
      RoundHasWinner(table, q);
    }
  }

  /** Every winner is the first row of its round with the top score. */
  lemma AllWinnersAreFirstMax(table: seq<Ranked>)
    ensures var winners := RoundWinners(table);
      forall k :: 0 <= k < |winners| ==> exists i ::
        && 0 <= i < |table| && winners[k] == table[i]
        && (forall j :: 0 <= j < |table| && table[j].row.round == table[i].row.round ==>
              table[j].row.points <= table[i].row.points)
        && (forall j :: 0 <= j < i && table[j].row.round == table[i].row.round ==>
              table[j].row.points < table[i].row.points)
  {
    var winners := RoundWinners(table);
    forall k | 0 <= k < |winners|
      ensures exists i ::
        && 0 <= i < |table| && winners[k] == table[i]
        && (forall j :: 0 <= j < |table| && table[j].row.round == table[i].row.round ==>
              table[j].row.points <= table[i].row.points)
        && (forall j :: 0 <= j < i && table[j].row.round == table[i].row.round ==>
              table[j].row.points < table[i].row.points)
    {
      WinnerIsFirstMax(table, k);
    }
  }

  /** Each winner is the first row of its round with the round's top score. */
  lemma WinnerIsFirstMax(table: seq<Ranked>, k: nat)
    requires k < |RoundWinners(table)|
    ensures exists i ::
      && 0 <= i < |table| && RoundWinners(table)[k] == table[i]
      && (forall j :: 0 <= j < |table| && table[j].row.round == table[i].row.round ==>
            table[j].row.points <= table[i].row.points)
      && (forall j :: 0 <= j < i && table[j].row.round == table[i].row.round ==>
            table[j].row.points < table[i].row.points)
  {
    var rounds := SortedDistinct(RoundColumn(table));
    WinnersShape(table);
    var i := FirstMaxIndex(table, rounds[k]);
    assert RoundWinners(table)[k] == table[i];
  }

  /** Every round of the table has exactly one winner, whose points are the
      round's largest and who is the first row of the round to score them. */
  lemma RoundWinnersCorrect(table: seq<Ranked>)
    ensures var winners := RoundWinners(table);
      forall q :: q in RoundsOf(table) <==> exists k :: 0 <= k < |winners| && winners[k].row.round == q
    ensures var winners := RoundWinners(table);
      forall k :: 0 <= k < |winners| ==> exists i ::
        && 0 <= i < |table| && winners[k] == table[i]
        && (forall j :: 0 <= j < |table| && table[j].row.round == table[i].row.round ==>
              table[j].row.points <= table[i].row.points)
        && (forall j :: 0 <= j < i && table[j].row.round == table[i].row.round ==>
              table[j].row.points < table[i].row.points)
  {
    AllRoundsHaveWinners(table);
    AllWinnersAreFirstMax(table);
  }

  /** The rounds a team won, in the order of `winners`. */
  function RoundsWon(winners: seq<Ranked>, team: int): (rounds: seq<int>)
    ensures |rounds| == |OfTeam(winners, team)|
    ensures forall k :: 0 <= k < |rounds| ==> rounds[k] == OfTeam(winners, team)[k].row.round
  {
    var group := OfTeam(winners, team);
    seq(|group|, k requires 0 <= k < |group| => group[k].row.round)
  }

  /** A subsequence taken in order from a list with increasing rounds. */
  lemma {:induction false} OfTeamKeepsOrder(s: seq<Ranked>, team: int)
    requires forall k, l :: 0 <= k < l < |s| ==> s[k].row.round < s[l].row.round
    ensures var g := OfTeam(s, team);
      forall k, l :: 0 <= k < l < |g| ==> g[k].row.round < g[l].row.round
  {
    if s != [] {
      var init, last := s[..|s| - 1], s[|s| - 1];
      OfTeamKeepsOrder(init, team);
      var g := OfTeam(init, team);
      forall k | 0 <= k < |g| ensures g[k].row.round < last.row.round {
        OfTeamMember(init, team, g[k]);
        var i :| 0 <= i < |init| && init[i] == g[k];
        assert s[i] == init[i];
      }
      if last.row.team == team {
        var h := g + [last];
        assert OfTeam(s, team) == h;
        forall k, l | 0 <= k < l < |h| ensures h[k].row.round < h[l].row.round {
          if l == |g| { assert h[k] == g[k]; }
        }
      } else {
        assert OfTeam(s, team) == g;
      }
    }
  }

  /** One line of the Reis da Rodada statistics: a team, its number of
      round wins and the rounds it won. */
  datatype King = King(team: int, wins: nat, rounds: seq<int>)

  /** groupby(team).agg(count, sorted rounds) over the winning rows. */
  function RoundKings(table: seq<Ranked>): (kings: seq<King>)
    ensures forall k :: 0 <= k < |kings| ==> kings[k].wins == |kings[k].rounds|
  {
    var winners := RoundWinners(table);
    var teams := SortedDistinct(TeamColumn(winners));
    seq(|teams|, k requires 0 <= k < |teams| =>
      King(teams[k], |RoundsWon(winners, teams[k])|, RoundsWon(winners, teams[k])))
  }

  /** A team listed in the distinct teams of `s` has at least one row there. */
  lemma ListedTeamHasRows(s: seq<Ranked>, team: int)
    requires team in SortedDistinct(TeamColumn(s))
    ensures |OfTeam(s, team)| >= 1
  {
    assert team in TeamColumn(s);
    var i :| 0 <= i < |s| && TeamColumn(s)[i] == team;
    OfTeamMember(s, team, s[i]);
  }

  /** Every row's team is among the distinct teams of `s`, which are listed once each. */
  lemma DistinctTeamsCover(s: seq<Ranked>)
    ensures Distinct(SortedDistinct(TeamColumn(s)))
    ensures forall i :: 0 <= i < |s| ==> s[i].row.team in SortedDistinct(TeamColumn(s))
  {
    IncreasingIsDistinct(SortedDistinct(TeamColumn(s)));
    forall i | 0 <= i < |s| ensures s[i].row.team in SortedDistinct(TeamColumn(s)) {
      assert TeamColumn(s)[i] == s[i].row.team;
    }
  }

  function TotalWins(kings: seq<King>): nat {
    if kings == [] then 0 else TotalWins(kings[..|kings| - 1]) + kings[|kings| - 1].wins
  }

  lemma {:induction false} TotalWinsIsSumOfGroups(winners: seq<Ranked>, teams: seq<int>, kings: seq<King>)
    requires |kings| == |teams|
    requires forall k :: 0 <= k < |teams| ==> kings[k].wins == |OfTeam(winners, teams[k])|
    ensures TotalWins(kings) == SumOfGroups(winners, teams)
  {
    if teams != [] {
      TotalWinsIsSumOfGroups(winners, teams[..|teams| - 1], kings[..|kings| - 1]);
    }
  }

  /** Unfolds `RoundKings` into its groups; an aid to the proofs below. */
  lemma KingsShape(table: seq<Ranked>)
    ensures var winners := RoundWinners(table);
      var teams := SortedDistinct(TeamColumn(winners));
      && |RoundKings(table)| == |teams|
      && forall k :: 0 <= k < |teams| ==>
           RoundKings(table)[k] == King(teams[k], |RoundsWon(winners, teams[k])|, RoundsWon(winners, teams[k]))
  {
  }

  /** A listed team owns a winning row, so it won at least once, and its
      won rounds are listed in ascending order. */
  lemma KingWonInOrder(table: seq<Ranked>, k: nat)
    requires k < |RoundKings(table)|
    ensures RoundKings(table)[k].wins >= 1 && StrictlyIncreasing(RoundKings(table)[k].rounds)
    ensures exists w :: w in RoundWinners(table) && w.row.team == RoundKings(table)[k].team
  {
    var winners := RoundWinners(table);
    var teams := SortedDistinct(TeamColumn(winners));
    KingsShape(table);
    ListedTeamHasRows(winners, teams[k]);
    OfTeamKeepsOrder(winners, teams[k]);
    var w := OfTeam(winners, teams[k])[0];
    OfTeamMember(winners, teams[k], w);
  }

  /** The rounds listed for a team are exactly the rounds whose winning row
      belongs to that team. */
  lemma KingRounds(table: seq<Ranked>, k: nat, q: int)
    requires k < |RoundKings(table)|
    ensures q in RoundKings(table)[k].rounds <==>
      exists w :: w in RoundWinners(table) && w.row.round == q && w.row.team == RoundKings(table)[k].team
  {
    var winners := RoundWinners(table);
    var teams := SortedDistinct(TeamColumn(winners));
    KingsShape(table);
    var t := teams[k];
    var group := OfTeam(winners, t);
    var rounds := RoundsWon(winners, t);
    assert RoundKings(table)[k].rounds == rounds && RoundKings(table)[k].team == t;
    if q in rounds {
      var m :| 0 <= m < |rounds| && rounds[m] == q;
      OfTeamMember(winners, t, group[m]);
    }
    if w :| w in winners && w.row.round == q && w.row.team == t {
      OfTeamMember(winners, t, w);
      var m :| 0 <= m < |group| && group[m] == w;
      assert rounds[m] == q;
    }
  }

  /** Every winning row's team is listed. */
  lemma WinnerListed(table: seq<Ranked>, w: Ranked)
    requires w in RoundWinners(table)
    ensures exists k :: 0 <= k < |RoundKings(table)| && RoundKings(table)[k].team == w.row.team
  {
    var winners := RoundWinners(table);
    var teams := SortedDistinct(TeamColumn(winners));
    KingsShape(table);
    DistinctTeamsCover(winners);
    var i :| 0 <= i < |winners| && winners[i] == w;
    var k :| 0 <= k < |teams| && teams[k] == w.row.team;
    assert RoundKings(table)[k].team == w.row.team;
  }

  lemma KingsWinsAddUp(table: seq<Ranked>)
    ensures TotalWins(RoundKings(table)) == |RoundsOf(table)|
  {
    var winners := RoundWinners(table);
    var teams := SortedDistinct(TeamColumn(winners));
    KingsShape(table);
    DistinctTeamsCover(winners);
    GroupsPartition(winners, teams);
    TotalWinsIsSumOfGroups(winners, teams, RoundKings(table));
  }

  /** The teams listed are exactly the teams of winning rows, once each in
      ascending id order; each team's rounds are exactly the rounds its rows
      won, in ascending order; and the wins add up to the number of rounds. */
  lemma RoundKingsCorrect(table: seq<Ranked>)
    ensures var kings := RoundKings(table);
      forall k, q :: 0 <= k < |kings| ==>
        (q in kings[k].rounds <==>
           exists w :: w in RoundWinners(table) && w.row.round == q && w.row.team == kings[k].team)
    ensures var kings := RoundKings(table);
      forall k :: 0 <= k < |kings| ==>
        && kings[k].wins >= 1
        && StrictlyIncreasing(kings[k].rounds)
        && exists w :: w in RoundWinners(table) && w.row.team == kings[k].team
    ensures var kings := RoundKings(table);
      forall w :: w in RoundWinners(table) ==> exists k :: 0 <= k < |kings| && kings[k].team == w.row.team
    ensures var kings := RoundKings(table);
      forall k, l :: 0 <= k < l < |kings| ==> kings[k].team < kings[l].team
    ensures TotalWins(RoundKings(table)) == |RoundsOf(table)|
  {
    KingsShape(table);
    forall k, q | 0 <= k < |RoundKings(table)|
      ensures q in RoundKings(table)[k].rounds <==>
        exists w :: w in RoundWinners(table) && w.row.round == q && w.row.team == RoundKings(table)[k].team
    {
      KingRounds(table, k, q);
    }
    forall k | 0 <= k < |RoundKings(table)|
      ensures && RoundKings(table)[k].wins >= 1
              && StrictlyIncreasing(RoundKings(table)[k].rounds)
              && exists w :: w in RoundWinners(table) && w.row.team == RoundKings(table)[k].team
    {
      KingWonInOrder(table, k);
    }
    forall w | w in RoundWinners(table)
      ensures exists k :: 0 <= k < |RoundKings(table)| && RoundKings(table)[k].team == w.row.team
    {
      WinnerListed(table, w);
    }
    KingsWinsAddUp(table);
  }

  // ---------------------------------------------------------------------
  // Leaders (Líderes do Campeonato)

  /** dados[dados['posicao'] == 1], in table order. */
  function Leaders(table: seq<Ranked>): (leaders: seq<Ranked>)
  {
    if table == [] then []
    else
      var last := table[|table| - 1];
      Leaders(table[..|table| - 1]) + (if last.position == 1 then [last] else [])
  }

  /** The leaders are exactly the rows in position 1. */
  lemma {:induction false} LeadersMember(table: seq<Ranked>, x: Ranked)
    ensures x in Leaders(table) <==> x in table && x.position == 1
  {
    if table != [] {
      var init, last := table[..|table| - 1], table[|table| - 1];
      assert table == init + [last];
      LeadersMember(init, x);
    }
  }

  /** One line of value_counts(): a team and its number of rows in position 1. */
  datatype Tally = Tally(team: int, count: nat)

  function LeaderCounts(table: seq<Ranked>): (tallies: seq<Tally>)
  {
    var leaders := Leaders(table);
    var teams := SortedDistinct(TeamColumn(leaders));
    seq(|teams|, k requires 0 <= k < |teams| => Tally(teams[k], |OfTeam(leaders, teams[k])|))
  }

  function TotalCount(tallies: seq<Tally>): nat {
    if tallies == [] then 0 else TotalCount(tallies[..|tallies| - 1]) + tallies[|tallies| - 1].count
  }

  lemma {:induction false} TotalCountIsSumOfGroups(leaders: seq<Ranked>, teams: seq<int>, tallies: seq<Tally>)
    requires |tallies| == |teams|
    requires forall k :: 0 <= k < |teams| ==> tallies[k].count == |OfTeam(leaders, teams[k])|
    ensures TotalCount(tallies) == SumOfGroups(leaders, teams)
  {
    if teams != [] {
      TotalCountIsSumOfGroups(leaders, teams[..|teams| - 1], tallies[..|tallies| - 1]);
    }
  }

  /** In a densely ranked table every round has a row in position 1, so
      there are at least as many such rows as rounds. */
  lemma LeadersCoverRounds(table: seq<Ranked>)
    requires DenselyRanked(table)
    ensures |Leaders(table)| >= |RoundsOf(table)|
  {
    var leaders := Leaders(table);
    assert RoundsOf(table) <= RoundsOf(leaders) by {
      forall q | q in RoundsOf(table) ensures q in RoundsOf(leaders) {
        var i :| 0 <= i < |table| && table[i].row.round == q;
        RoundHasLeader(table, i);
        var j :| 0 <= j < |table| && table[j].row.round == q && table[j].position == 1;
        LeadersMember(table, table[j]);
        var m :| 0 <= m < |leaders| && leaders[m] == table[j];
      }
    }
    SubsetCard(RoundsOf(table), RoundsOf(leaders));
    RoundsAtMostRows(leaders);
  }

  /** Unfolds `LeaderCounts` into its groups; an aid to the proofs below. */
  lemma TalliesShape(table: seq<Ranked>)
    ensures var leaders := Leaders(table);
      var teams := SortedDistinct(TeamColumn(leaders));
      && |LeaderCounts(table)| == |teams|
      && forall k :: 0 <= k < |teams| ==>
           LeaderCounts(table)[k] == Tally(teams[k], |OfTeam(leaders, teams[k])|)
  {
  }

  lemma TalliedTeamLed(table: seq<Ranked>, k: nat)
    requires k < |LeaderCounts(table)|
    ensures var t := LeaderCounts(table)[k];
      && t.count == |OfTeam(Leaders(table), t.team)| >= 1
      && exists i :: 0 <= i < |table| && table[i].row.team == t.team && table[i].position == 1
  {
    var leaders := Leaders(table);
    var teams := SortedDistinct(TeamColumn(leaders));
    TalliesShape(table);
    ListedTeamHasRows(leaders, teams[k]);
    var x := OfTeam(leaders, teams[k])[0];
    OfTeamMember(leaders, teams[k], x);
    LeadersMember(table, x);
    var i :| 0 <= i < |table| && table[i] == x;
  }

  lemma LeaderTallied(table: seq<Ranked>, i: nat)
    requires i < |table| && table[i].position == 1
    ensures exists k :: 0 <= k < |LeaderCounts(table)| && LeaderCounts(table)[k].team == table[i].row.team
  {
    var leaders := Leaders(table);
    var teams := SortedDistinct(TeamColumn(leaders));
    TalliesShape(table);
    DistinctTeamsCover(leaders);
    LeadersMember(table, table[i]);
    var j :| 0 <= j < |leaders| && leaders[j] == table[i];
    var k :| 0 <= k < |teams| && teams[k] == leaders[j].row.team;
    assert LeaderCounts(table)[k].team == table[i].row.team;
  }

  lemma TalliesAddUp(table: seq<Ranked>)
    ensures TotalCount(LeaderCounts(table)) == |Leaders(table)|
  {
    var leaders := Leaders(table);
    var teams := SortedDistinct(TeamColumn(leaders));
    TalliesShape(table);
    DistinctTeamsCover(leaders);
    GroupsPartition(leaders, teams);
    TotalCountIsSumOfGroups(leaders, teams, LeaderCounts(table));
  }

  /** A team is listed exactly when it has a row in position 1, with the
      number of its rows in position 1; in a densely ranked table the
      counts add up to at least the number of rounds. */
  lemma LeaderCountsCorrect(table: seq<Ranked>)
    ensures var tallies := LeaderCounts(table);
      forall k :: 0 <= k < |tallies| ==>
        && tallies[k].count == |OfTeam(Leaders(table), tallies[k].team)| >= 1
        && exists i :: 0 <= i < |table| && table[i].row.team == tallies[k].team && table[i].position == 1
    ensures var tallies := LeaderCounts(table);
      forall i :: 0 <= i < |table| && table[i].position == 1 ==>
        exists k :: 0 <= k < |tallies| && tallies[k].team == table[i].row.team
    ensures TotalCount(LeaderCounts(table)) == |Leaders(table)|
    ensures DenselyRanked(table) ==> TotalCount(LeaderCounts(table)) >= |RoundsOf(table)|
  {
    forall k | 0 <= k < |LeaderCounts(table)|
      ensures var t := LeaderCounts(table)[k];
        && t.count == |OfTeam(Leaders(table), t.team)| >= 1
        && exists i :: 0 <= i < |table| && table[i].row.team == t.team && table[i].position == 1
    {
      TalliedTeamLed(table, k);
    }
    forall i | 0 <= i < |table| && table[i].position == 1
      ensures exists k :: 0 <= k < |LeaderCounts(table)| && LeaderCounts(table)[k].team == table[i].row.team
    {
      LeaderTallied(table, i);
    }
    TalliesAddUp(table);
    if DenselyRanked(table) {
      LeadersCoverRounds(table);
    }
  }

  // ---------------------------------------------------------------------
  // Each team's three best rounds

  predicate MorePoints(a: Ranked, b: Ranked) {
    a.row.points >= b.row.points
  }

  lemma MorePointsIsPreorder()
    ensures TotalPreorder(MorePoints)
  {
  }

  function PointsColumn(s: seq<Ranked>): (points: seq<real>)
    ensures |points| == |s|
    ensures forall i :: 0 <= i < |s| ==> points[i] == s[i].row.points
  {
    seq(|s|, i requires 0 <= i < |s| => s[i].row.points)
  }

  function CountAbove(ps: seq<real>, v: real): nat {
    if ps == [] then 0 else CountAbove(ps[..|ps| - 1], v) + (if ps[|ps| - 1] > v then 1 else 0)
  }

  function CountEqual(ps: seq<real>, v: real): nat {
    if ps == [] then 0 else CountEqual(ps[..|ps| - 1], v) + (if ps[|ps| - 1] == v then 1 else 0)
  }

  /** rank(method='first', ascending=False): one more than the number of
      larger values and of equal values that come earlier. */
  function FirstRank(ps: seq<real>, i: nat): int
    requires i < |ps|
  {
    1 + CountAbove(ps, ps[i]) + CountEqual(ps[..i], ps[i])
  }

  ghost predicate NonIncreasing(ps: seq<real>) {
    forall i, j :: 0 <= i < j < |ps| ==> ps[i] >= ps[j]
  }

  lemma {:induction false} CountAboveAppend(a: seq<real>, b: seq<real>, v: real)
    ensures CountAbove(a + b, v) == CountAbove(a, v) + CountAbove(b, v)
    decreases |b|
  {
    if b == [] {
      assert a + b == a;
    } else {
      assert (a + b)[..|a + b| - 1] == a + b[..|b| - 1];
      CountAboveAppend(a, b[..|b| - 1], v);
    }
  }

  lemma {:induction false} CountAboveNone(ps: seq<real>, v: real)
    requires forall k :: 0 <= k < |ps| ==> ps[k] <= v
    ensures CountAbove(ps, v) == 0
  {
    if ps != [] {
      CountAboveNone(ps[..|ps| - 1], v);
    }
  }

  lemma {:induction false} CountAboveOrEqual(ps: seq<real>, v: real)
    requires forall k :: 0 <= k < |ps| ==> ps[k] >= v
    ensures CountAbove(ps, v) + CountEqual(ps, v) == |ps|
  {
    if ps != [] {
      CountAboveOrEqual(ps[..|ps| - 1], v);
    }
  }

  /** In a list already ordered by decreasing points, the 'first' rank of
      each entry is its place in the list. */
  lemma FirstRankOfOrdered(ps: seq<real>, i: nat)
    requires NonIncreasing(ps) && i < |ps|
    ensures FirstRank(ps, i) == i + 1
  {
    assert ps == ps[..i] + ps[i..];
    CountAboveAppend(ps[..i], ps[i..], ps[i]);
    CountAboveNone(ps[i..], ps[i]);
    CountAboveOrEqual(ps[..i], ps[i]);
  }

  /** One bar of the chart: a row and its place among the team's best. */
  datatype Podium = Podium(entry: Ranked, rank: int)

  function Entries(podium: seq<Podium>): (rows: seq<Ranked>)
    ensures |rows| == |podium|
    ensures forall i :: 0 <= i < |podium| ==> rows[i] == podium[i].entry
  {
    seq(|podium|, i requires 0 <= i < |podium| => podium[i].entry)
  }

  /** The rows the podium keeps: the first min(3, n) of the sorted group. */
  function Kept(table: seq<Ranked>, team: int): (kept: seq<Ranked>)
  {
    var best := Sort(OfTeam(table, team), MorePoints);
    if |best| <= TopCount then best else best[..TopCount]
  }

  /** The team's rows by decreasing points (ties in table order), the first
      three kept, each ranked among the kept ones. */
  function TopThree(table: seq<Ranked>, team: int): (podium: seq<Podium>)
  {
    var kept := Kept(table, team);
    seq(|kept|, i requires 0 <= i < |kept| => Podium(kept[i], FirstRank(PointsColumn(kept), i)))
  }

  /** Unfolds `TopThree` into the kept rows; an aid to the proofs below. */
  lemma TopThreeShape(table: seq<Ranked>, team: int)
    ensures var kept := Kept(table, team);
      && |TopThree(table, team)| == |kept|
      && Entries(TopThree(table, team)) == kept
      && forall i :: 0 <= i < |kept| ==> TopThree(table, team)[i].rank == FirstRank(PointsColumn(kept), i)
  {
  }

  /** The kept rows are the front of the sorted group. */
  lemma KeptIsPrefix(table: seq<Ranked>, team: int)
    ensures var best := Sort(OfTeam(table, team), MorePoints);
      best == Kept(table, team) + best[|Kept(table, team)|..]
  {
    var best := Sort(OfTeam(table, team), MorePoints);
    if |best| > TopCount {
      assert best == best[..TopCount] + best[TopCount..];
    }
  }

  /** The sorted group comes in non-increasing points order. */
  lemma BestOrdered(table: seq<Ranked>, team: int)
    ensures var best := Sort(OfTeam(table, team), MorePoints);
      forall i, j :: 0 <= i < j < |best| ==> best[i].row.points >= best[j].row.points
  {
    var best := Sort(OfTeam(table, team), MorePoints);
    MorePointsIsPreorder();
    SortCorrect(OfTeam(table, team), MorePoints);
    forall i, j | 0 <= i < j < |best| ensures best[i].row.points >= best[j].row.points {
      assert MorePoints(best[i], best[j]);
    }
  }

  lemma KeptRanks(table: seq<Ranked>, team: int, i: nat)
    requires i < |TopThree(table, team)|
    ensures TopThree(table, team)[i].rank == i + 1
    ensures TopThree(table, team)[i].entry.row.team == team
  {
    var kept := Kept(table, team);
    var best := Sort(OfTeam(table, team), MorePoints);
    TopThreeShape(table, team);
    KeptIsPrefix(table, team);
    BestOrdered(table, team);
    assert NonIncreasing(PointsColumn(kept)) by {
      forall a, b | 0 <= a < b < |kept| ensures kept[a].row.points >= kept[b].row.points {
        assert kept[a] == best[a] && kept[b] == best[b];
      }
    }
    FirstRankOfOrdered(PointsColumn(kept), i);
    assert kept[i] in multiset(best);
    assert kept[i] in multiset(OfTeam(table, team));
    OfTeamMember(table, team, kept[i]);
  }

  /** A row of the team is either on the podium or has no more points
      than any row that is. */
  lemma OmittedNotBetter(table: seq<Ranked>, team: int, x: Ranked, i: nat)
    requires x in OfTeam(table, team)
    requires i < |TopThree(table, team)|
    ensures x in Entries(TopThree(table, team)) || x.row.points <= TopThree(table, team)[i].entry.row.points
  {
    var kept := Kept(table, team);
    var best := Sort(OfTeam(table, team), MorePoints);
    TopThreeShape(table, team);
    KeptIsPrefix(table, team);
    BestOrdered(table, team);
    assert x in multiset(best);
    var m :| 0 <= m < |best| && best[m] == x;
    if m < |kept| {
      assert Entries(TopThree(table, team))[m] == x;
    } else {
      assert best[i] == kept[i];
    }
  }

  lemma KeptSize(table: seq<Ranked>, team: int)
    ensures var podium := TopThree(table, team);
      && |podium| == (if |OfTeam(table, team)| <= TopCount then |OfTeam(table, team)| else TopCount)
      && multiset(Entries(podium)) <= multiset(OfTeam(table, team))
  {
    var kept := Kept(table, team);
    var best := Sort(OfTeam(table, team), MorePoints);
    TopThreeShape(table, team);
    KeptIsPrefix(table, team);
    assert multiset(best) == multiset(kept) + multiset(best[|kept|..]);
  }

  lemma KeptPairOrdered(table: seq<Ranked>, team: int, i: nat, j: nat)
    requires i < j < |TopThree(table, team)|
    ensures TopThree(table, team)[i].entry.row.points >= TopThree(table, team)[j].entry.row.points
  {
    var best := Sort(OfTeam(table, team), MorePoints);
    TopThreeShape(table, team);
    KeptIsPrefix(table, team);
    BestOrdered(table, team);
    assert TopThree(table, team)[i].entry == Entries(TopThree(table, team))[i] == best[i];
    assert TopThree(table, team)[j].entry == Entries(TopThree(table, team))[j] == best[j];
  }

  lemma PodiumRanked(table: seq<Ranked>, team: int)
    ensures var podium := TopThree(table, team);
      forall i :: 0 <= i < |podium| ==> podium[i].rank == i + 1 && podium[i].entry.row.team == team
  {
    forall i | 0 <= i < |TopThree(table, team)|
      ensures TopThree(table, team)[i].rank == i + 1 && TopThree(table, team)[i].entry.row.team == team
    {
      KeptRanks(table, team, i);
    }
  }

  lemma PodiumBeatsOmitted(table: seq<Ranked>, team: int)
    ensures var podium := TopThree(table, team);
      forall x, i :: x in OfTeam(table, team) && 0 <= i < |podium| ==>
        x in Entries(podium) || x.row.points <= podium[i].entry.row.points
  {
    forall x, i | x in OfTeam(table, team) && 0 <= i < |TopThree(table, team)|
      ensures x in Entries(TopThree(table, team)) || x.row.points <= TopThree(table, team)[i].entry.row.points
    {
      OmittedNotBetter(table, team, x, i);
    }
  }

  lemma PodiumNonIncreasing(table: seq<Ranked>, team: int)
    ensures var podium := TopThree(table, team);
      forall i, j :: 0 <= i < j < |podium| ==> podium[i].entry.row.points >= podium[j].entry.row.points
  {
    forall i, j | 0 <= i < j < |TopThree(table, team)|
      ensures TopThree(table, team)[i].entry.row.points >= TopThree(table, team)[j].entry.row.points
    {
      KeptPairOrdered(table, team, i, j);
    }
  }

  /** The podium has min(3, n) of the team's n rows, no row of the team
      left off it has more points than a kept one, and the kept rows are
      ranked 1, 2, 3 by non-increasing points. */
  lemma TopThreeCorrect(table: seq<Ranked>, team: int)
    ensures var podium := TopThree(table, team);
      |podium| == if |OfTeam(table, team)| <= TopCount then |OfTeam(table, team)| else TopCount
    ensures var podium := TopThree(table, team);
      multiset(Entries(podium)) <= multiset(OfTeam(table, team))
    ensures var podium := TopThree(table, team);
      forall x, i :: x in OfTeam(table, team) && 0 <= i < |podium| ==>
        x in Entries(podium) || x.row.points <= podium[i].entry.row.points
    ensures var podium := TopThree(table, team);
      forall i :: 0 <= i < |podium| ==> podium[i].rank == i + 1 && podium[i].entry.row.team == team
    ensures var podium := TopThree(table, team);
      forall i, j :: 0 <= i < j < |podium| ==> podium[i].entry.row.points >= podium[j].entry.row.points
  {
    KeptSize(table, team);
    PodiumRanked(table, team);
    PodiumBeatsOmitted(table, team);
    PodiumNonIncreasing(table, team);
  }
}
