# Cartola FC season tracker — verified model

This project models the two computational parts of a small Cartola FC
(Brazilian fantasy football) season tracker:

- **The collector** (`cartola_scraper.py`) walks rounds 1 to 38. It skips
  every round that already has a row in the table. For any other round it
  asks the game's API about each tracked team and appends the rows it gets.
  After each round that produced rows it writes the whole table back to the
  CSV file.
- **The dashboard's loading step and its "Hall da Fama" statistics**
  (`app_cartola.py`). Loading does five things:
  - replaces empty points with 0;
  - relabels every row of a team with the name from its latest round;
  - orders the table by team, then round;
  - adds a per-team running total of points;
  - ranks that total densely, in descending order, within each round.

  The statistics are:
  - the round kings: one winning row per round, and each team's wins and
    won rounds;
  - the leader counts: for each team, the number of its rows in position 1;
  - each team's three best rounds, ranked 1 to 3.

The Dafny modules:

| file | module | contents |
|---|---|---|
| `records.dfy` | `Records` | the persisted row (`Record`), `Option`, the "round present" predicate and the (team, round) key `Key` |
| `sorting.dfy` | `Sorting` | a stable insertion sort under a total preorder (pandas' `sort_values`), the ascending distinct keys of a column (the key order of `groupby`), the distinct-keys predicate `KeysDistinct` (with `Distinct` as its identity-key case) and its preservation under reordering, cardinality facts |
| `ranking.dfy` | `Ranking` | `carregar_dados`: fill, canonical names, order, running total, dense rank |
| `hall_of_fame.dfy` | `HallOfFame` | round kings (`idxmax`), leader counts, top three per team |
| `collector.dfy` | `Collector` | the API outcome oracle, `buscar_dados_rodada` as a method with a loop, the `Collector` class with `table` and `saved` fields and its round loop, and the specification functions `Step`/`Through` with the resumption lemmas |

The dashboard code is made of whole-column expressions, so it is modelled
by functions over sequences, with lemmas about them. The collector updates
a list and a table step by step, so it is modelled by methods with loops:
- `FetchRound` is proved equal to the specification function `RoundRows`;
- `Collector.Run` is proved equal to the specification function `Through`.

Its class also keeps ghost logs of the rounds requested from the API and of
the rounds after which the file was written.

Three behaviours of the code are easy to miss; the model keeps them:
- **No zero-fill in the ranking.** A team with no row in a round does not
  take part in that round's rank (`app_cartola.py:35` ranks only the rows
  present).
- **One winner per round.** When several rows tie for a round's best score,
  `idxmax` credits only the first of them in table order
  (`app_cartola.py:72`). `RoundWinners` yields exactly one row per round.
- **Round-level skip.** A round is skipped as soon as any row of it exists,
  even if some teams are missing (`cartola_scraper.py:63`). Missing teams of
  a partly collected round are never fetched again; `RequestedCorrect`
  states this.

## Model

| member | source | states |
|---|---|---|
| Ranking.FillMissingPoints | app_cartola.py:21 | the row count is kept; each empty points cell becomes 0, a present value is untouched, every other field is unchanged |
| Ranking.LatestIndex | app_cartola.py:25 | the chosen row belongs to the team and has the team's largest round; it is the last such row in table order |
| Ranking.CanonicalNames | app_cartola.py:25-26 | only names change; all rows of one team get the same name; that name is the name on one of the team's rows with the largest round |
| Ranking.DenseRank | app_cartola.py:35 | a dense rank is at least 1; for a value of the round it is at most the number of distinct values |
| Ranking.Rank | app_cartola.py:32-35 | the rows are kept in order; each running total is the team's points over rows up to and including this one; every position is the dense rank of its running total among the totals of the same round |
| Ranking.Load | app_cartola.py:14-37 | loading keeps the number of rows |
| Ranking.LoadShape | app_cartola.py:21-35 | the loaded rows are exactly the filled, renamed rows (as a multiset); they are ordered by team then round; they are densely ranked per round |
| Ranking.LoadKeepsKeysDistinct | app_cartola.py:29 | a file without repeated (team, round) pairs loads into a table without them |
| Ranking.RunningTotalIsSumThroughRound | app_cartola.py:29-32 | in a table ordered by team then round with unique keys, a row's running total is its team's points over its rows with round ≤ the row's round |
| Ranking.LoadCumulative | app_cartola.py:14-32 | for every loaded row, the running total is the team's points over rounds up to its own |
| Ranking.RunningTotalStep | app_cartola.py:32 | each step of a team's running total adds exactly that row's points; a team's first row starts from 0 |
| Ranking.RunningTotalNonDecreasing | app_cartola.py:32 | with non-negative points, a team's running total never decreases along the table |
| Ranking.DenseRankStrict | app_cartola.py:35 | a strictly larger total has a strictly smaller dense rank |
| Ranking.DenseRanksAreInterval | app_cartola.py:35 | the dense ranks of a set of totals are exactly 1 .. the number of distinct totals |
| Ranking.DenseRankExample | app_cartola.py:35 | the distinct totals 100 and 90 (from totals 100, 100, 90) get positions 1 and 2: ties share a position and no position is skipped |
| Ranking.PositionOrder | app_cartola.py:35 | within a round: every position is ≥ 1; equal totals ⟺ equal positions; a larger total ⟺ a smaller position |
| Ranking.PositionsOfRound | app_cartola.py:35 | the positions used in a round are exactly 1 .. k, with k the number of distinct running totals of that round's rows, with no gaps |
| Ranking.RoundHasLeader | app_cartola.py:35 | every round that has a row has a row in position 1 |
| HallOfFame.FirstMaxIndex | app_cartola.py:72 | the chosen row belongs to the round and scores the round's maximum; every earlier row of the round scores strictly less (first maximum) |
| HallOfFame.RoundWinners | app_cartola.py:72-73 | one winner per distinct round, in strictly increasing round order |
| HallOfFame.RoundHasWinner | app_cartola.py:72-73 | a round has a winner ⟺ it occurs in the table |
| HallOfFame.WinnerIsFirstMax | app_cartola.py:72-73 | each winner is a row of the table with its round's largest points, and every earlier row of that round scores strictly less |
| HallOfFame.AllRoundsHaveWinners | app_cartola.py:72-73 | for all rounds at once: a round has a winner ⟺ it occurs in the table |
| HallOfFame.AllWinnersAreFirstMax | app_cartola.py:72-73 | for all winners at once: each is the first row of its round, in table order, to reach the round's largest points |
| HallOfFame.RoundWinnersCorrect | app_cartola.py:72-73 | a round has a winner ⟺ it occurs in the table; each winner is a row of the table with the round's largest points, the first in table order to reach them |
| HallOfFame.RoundKings | app_cartola.py:76-79 | a team's win count is the number of rounds listed for it |
| HallOfFame.KingWonInOrder | app_cartola.py:76-78 | every listed team owns a winning row, so it won at least once; its won rounds are in strictly increasing order |
| HallOfFame.KingRounds | app_cartola.py:72-78 | a round is listed for a team ⟺ that round's winning row belongs to the team |
| HallOfFame.WinnerListed | app_cartola.py:72-77 | the team of every winning row is listed |
| HallOfFame.KingsWinsAddUp | app_cartola.py:72-77 | the win counts over all teams add up to the number of distinct rounds |
| HallOfFame.RoundKingsCorrect | app_cartola.py:72-79 | the listed teams are exactly the teams of winning rows, once each in ascending order; a team's rounds are exactly the rounds its rows won, ascending, and it won at least once; the wins add up to the number of rounds |
| HallOfFame.LeadersMember | app_cartola.py:101 | a row is among the leaders ⟺ it is a row of the table in position 1 |
| HallOfFame.LeadersCoverRounds | app_cartola.py:101 | in a densely ranked table there are at least as many leader rows as rounds |
| HallOfFame.TalliedTeamLed | app_cartola.py:101-104 | each listed team's count is its number of rows in position 1, at least 1, and it has such a row |
| HallOfFame.LeaderTallied | app_cartola.py:101-104 | every team with a row in position 1 is listed |
| HallOfFame.TalliesAddUp | app_cartola.py:101-104 | the counts add up to the number of rows in position 1 |
| HallOfFame.LeaderCountsCorrect | app_cartola.py:101-104 | a team is listed ⟺ it has a row in position 1; its count is the number of such rows; the counts add up to the number of rows in position 1, and in a densely ranked table to at least the number of rounds |
| HallOfFame.FirstRankOfOrdered | app_cartola.py:126 | in a list ordered by decreasing points, `rank(method='first')` of each entry is its place in the list |
| HallOfFame.KeptIsPrefix | app_cartola.py:123 | the kept rows are the front of the team's rows sorted by decreasing points |
| HallOfFame.BestOrdered | app_cartola.py:123 | the team's rows sorted by decreasing points come in non-increasing points order |
| HallOfFame.KeptSize | app_cartola.py:123 | the podium has min(3, n) entries, with n the team's number of rows; all are rows of the team, as a multiset |
| HallOfFame.KeptRanks | app_cartola.py:123-126 | the kept rows are ranked 1, 2, 3 in order and belong to the team |
| HallOfFame.OmittedNotBetter | app_cartola.py:123 | a row of the team is either on the podium or has no more points than a given podium row |
| HallOfFame.KeptPairOrdered | app_cartola.py:123 | the kept rows come in non-increasing points order |
| HallOfFame.PodiumRanked | app_cartola.py:126 | every podium entry is ranked by its place, 1 .. k, and belongs to the team |
| HallOfFame.PodiumBeatsOmitted | app_cartola.py:123 | every row of the team is on the podium or has no more points than any podium entry |
| HallOfFame.PodiumNonIncreasing | app_cartola.py:123 | podium entries come in non-increasing points order |
| HallOfFame.TopThreeCorrect | app_cartola.py:123-126 | all of the above for one team: min(3, n) of its rows (a sub-multiset of them), every other row of the team has no more points than any kept one, ranks 1..k in non-increasing points order |
| Collector.RowFor | cartola_scraper.py:27-41 | a row exists ⟺ the answer is a found one; the row carries the requested team and round; each field is decided on its own: a reported name, points or assets value is copied, and an absent one defaults to "Time Desconhecido", 0 points or 0 assets respectively; both numbers are always present |
| Collector.FetchRound | cartola_scraper.py:16-47 | the loop over the team list returns exactly `RoundRows`: one row per answered team, in list order |
| Collector.RoundRowsCorrect | cartola_scraper.py:21-41 | the rows' teams are the answered teams in list order; there are at most as many rows as teams; each row has the requested round, a team of the list, and is the row that team's answer produces |
| Collector.RoundRowsAppend | cartola_scraper.py:21-47 | requests are independent: the rows for a split team list are the rows of each part, concatenated |
| Collector.SkippedTeam | cartola_scraper.py:27-29 | a team answered with 404 or an error gives no row, and the teams after it are still asked |
| Collector.RoundRowsUnique | cartola_scraper.py:21-41 | a list of distinct teams yields rows with distinct (team, round) pairs |
| Collector.Collector.constructor | cartola_scraper.py:50-56 | the table and the file both start as the existing rows; nothing has been requested or written yet |
| Collector.Collector.Visit | cartola_scraper.py:62-78 | one round: a present round is skipped without a request; otherwise the round is requested, its rows are appended, and the file is written exactly when rows came back |
| Collector.Collector.Run | cartola_scraper.py:60-78 | the final table is `Through(old table, 38)`; the file equals the table at every round boundary and at the end; the request and write logs are `Requested` and `Checkpointed` |
| Collector.ThroughGrows | cartola_scraper.py:72 | existing rows are never changed or removed: the old table is a prefix of the new one; every added row has a round in 1..k and a tracked team |
| Collector.RequestedCorrect | cartola_scraper.py:60-65 | a round is requested ⟺ it lies in 1..k and the initial table has no row for it, however few teams that row covers; requests come in strictly increasing round order |
| Collector.CheckpointedCorrect | cartola_scraper.py:70-76 | the file is written after a round ⟺ that round was requested and produced rows; writes come in increasing round order |
| Collector.EmptyRoundStaysOpen | cartola_scraper.py:70-78 | a requested round that produced no rows is still absent afterwards, so a later run asks for it again |
| Collector.AddedRowRound | cartola_scraper.py:63-72 | every added row belongs to a round missing from the initial table that produced rows |
| Collector.ThroughKeepsKeysUnique | cartola_scraper.py:60-78 | an initial table with unique (team, round) pairs and a distinct team list give a final table with unique pairs |
| Collector.TrackedRunKeepsKeysUnique | cartola_scraper.py:8-12 | the same for the ten tracked teams over rounds 1..38 |
| Collector.EarlierRoundSettled | cartola_scraper.py:63-72 | after rounds 1..k, each round up to k is present unless its requests produced no rows |
| Collector.Resume | cartola_scraper.py:60-78 | resumption: a run that starts from the table a previous run had after round k ends where one uninterrupted run would |
| Collector.Idempotent | cartola_scraper.py:60-78 | running the collector twice gives the table of a single run |
| Collector.NothingNewChangesNothing | cartola_scraper.py:60-78 | a run in which every round missing from the table produces no rows leaves the table unchanged |

## Left out

- File handling is not modelled. This covers reading and writing the CSV file and the file-exists checks (`app_cartola.py:15-18`, `cartola_scraper.py:51-56, 75`). The file is the `saved` field. An absent file is the empty table. A missing dashboard file is outside the model.
- The type change of `id_time` is not modelled. Team ids are numbers throughout. The collector writes them as numeric strings, and reading the file back gives integers.
- HTTP is not modelled: `requests.get`, `raise_for_status` and JSON decoding. An oracle `fetch(team, round)` replaces them and answers `Found`, `NotFound` (404) or `Failure` (any raised error). The oracle is a function, so a repeated request gets the same answer. `Resume` and `Idempotent` rely on that.
- Collector.RowFor: a `Found` field is `None` only when the key is absent. A key present with a JSON `null` value would write an empty cell. It is not modelled, and neither is a `time` entry that is not an object.
- `time.sleep` and all `print` logging are left out: they have no effect on the data.
- The Streamlit page is left out as presentation: caching, charts, columns, slider and tables (`app_cartola.py:9, 13, 41-212`). This includes the `rotulo` labels (float formatting), the `legenda` emoji map and the detail table's filter and sort.
- Points and assets are Dafny `real`. Floating-point rounding in the running sums is not modelled.
- HallOfFame.RoundKings groups the winners by team id, not by team name as `app_cartola.py:76` does. It lists the teams in ascending id order, whereas the source's `groupby('nome_time')` orders them by name. Names are assumed to be distinct per id.
- HallOfFame.LeaderCounts counts by team id, not by name (`app_cartola.py:104`). It lists teams in ascending id order. `value_counts` orders them by decreasing count; that display order is not modelled.
- Ranking.LatestIndex picks the last row in table order among a team's rows with its largest round. pandas' default `sort_values` is not stable, so with repeated (team, round) pairs the source's choice is unspecified. With unique pairs there is only one such row.
- HallOfFame.TopThree sorts each team's rows by decreasing points, keeping equal scores in table order, which is round order. The source first sorts by name, then by points (`app_cartola.py:123`). Within one team this gives the same order, since all of a team's rows carry one name after loading.
- Ranking.RunningTotalNonDecreasing assumes non-negative points. Cartola scores can be negative, and then the total may decrease; the source promises nothing about this.
