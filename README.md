# Fantasy-football agent core, modelled in Dafny

This project models the decision logic of a fantasy-football assistant. That
logic has three parts:

- **Lineup optimizer** (`lineup_optimizer.dfy`). It builds a projection
  lookup from projection rows and scores every owned player. A player with a
  projection gets the projection. Any other player gets a heuristic: an
  injury penalty, a depth-chart bonus, and a bump for being first at the
  depth-chart position. The players are grouped into per-position candidate
  pools, plus a FLEX pool for RB/WR/TE, and each pool is ranked by score with
  a stable sort. The roster slots are filled greedily in slot order. Every
  pooled player that was not chosen goes to the bench, ranked by score.
- **Waiver agent** (`waiver_agent.dfy`). It computes the roster needs: per
  non-FLEX starting position, the number of slots minus the number of
  players whose primary position it is. It then filters trending free
  agents to the positions with a positive need, keeping at most
  `max_per_position` per position.
- **Trade agent** (`trade_agent.dfy`). It counts each team's players per
  primary position. For every position the user needs, it lists the
  best-ranked players of every other team that has at least two players
  there, taking the top `top_n` of each team's roster after a stable
  ranking by depth chart.

Two files are shared by all three parts:

- `players.dfy` holds the player record and the single rule for a player's
  primary position: the first eligible position, else the non-empty
  position field, else none.
- `stable_sort.dfy` holds a stable sort, highest key first. It models
  Python's `sort`/`sorted` with `reverse=True`, which keeps equal keys in
  their original order.

Each operation that the source writes as a loop has two forms here:

- an imperative method with loop invariants;
- a recursive specification function.

The method is proved equal to the function. The function's meaning is
proved in lemmas: contents, order, stability, distinctness, partition of
the roster, caps, and soundness of the suggestions. Python's dictionaries
are `map`s. A dictionary whose insertion order matters (the candidate pools)
is a sequence of key/pool pairs in first-insertion order.

## Model

| member | source | states |
|---|---|---|
| Players.PrimaryPosition | ff_agent/lineup_optimizer.py:60-64 | The primary position is missing exactly when there are no eligible positions and no non-empty position field. It is the first eligible position when there is one, otherwise the position field. |
| Players.CountAtPosition | ff_agent/waiver_agent.py:21-27 | The count of roster players at a position is at most the roster length. It is zero exactly when no player has that primary position. |
| Players.PositionCountsValues | ff_agent/trade_agent.py:6-15 | The counts dictionary has a key exactly for the positions some player holds. Each value is the number of players with that primary position, repeats included. |
| Players.PositionCountsTotal | ff_agent/trade_agent.py:6-15 | The counts add up to the number of players that have a primary position. That is never more than the roster length. |
| StableSort.Sort | ff_agent/lineup_optimizer.py:93 | Sorting is a permutation: the result has the same multiset of elements. |
| StableSort.SortSorted | ff_agent/lineup_optimizer.py:120 | The sorted result is ordered highest key first. |
| StableSort.SortStable | ff_agent/trade_agent.py:41-48 | The sort is stable: for every key, the elements with that key keep their original order. |
| LineupOptimizer.LookupOfKey | ff_agent/lineup_optimizer.py:22-31 | An identifier is in the projection lookup exactly when some row with that identifier has a numeric points field. |
| LineupOptimizer.LookupOfLastRowWins | ff_agent/lineup_optimizer.py:22-31 | For an identifier, the last row that has points decides its value. |
| LineupOptimizer.BuildProjectionLookup | ff_agent/lineup_optimizer.py:18-32 | Missing or empty projections give an empty lookup. Otherwise the row loop builds exactly the specified lookup. |
| LineupOptimizer.IsInjured | ff_agent/lineup_optimizer.py:35-39 | When the injury status is set, it decides. Otherwise the general status decides. A player is injured exactly when the deciding status is a bad one. |
| LineupOptimizer.Choose | ff_agent/lineup_optimizer.py:67-85 | A player with a projection scores exactly the projection, with reason "projection". Otherwise the score is the heuristic, with reason "injury" or "heuristic". A healthy player scores between 0 and 2 plus the depth bonus. An injured player with a non-negative depth order scores at most -88. |
| LineupOptimizer.CandidatePoolsContents | ff_agent/lineup_optimizer.py:59-89 | Each pool built player by player equals the eligible players' choices in roster order. Players of a position go to its pool, and RB/WR/TE also go to FLEX. |
| LineupOptimizer.EligibleChoicesMembers | ff_agent/lineup_optimizer.py:59-89 | A choice is in a position's reference pool exactly when it is eligible for that position and is the choice of some owned player. |
| LineupOptimizer.RankedPool | ff_agent/lineup_optimizer.py:91-93 | A ranked pool is a permutation of the eligible choices. Its scores never increase along the pool. Equal scores stay in roster order. It contains exactly the eligible players' choices. |
| LineupOptimizer.PoolMembership | ff_agent/lineup_optimizer.py:61-63 | A player with no primary position is in no pool. Every other player is in its own position's pool, and in the FLEX pool when it is an RB, WR or TE. |
| LineupOptimizer.FirstFreeIndex | ff_agent/lineup_optimizer.py:104-107 | The scan stops at the first candidate not yet taken. Every candidate before it is taken. |
| LineupOptimizer.AllocationGreedy | ff_agent/lineup_optimizer.py:99-112 | Each slot, in slot order, gets the first candidate of its pool that earlier slots did not take. If every candidate is taken, the slot stays empty. |
| LineupOptimizer.AllocationDistinct | ff_agent/lineup_optimizer.py:104-110 | No player is chosen for two slots. |
| LineupOptimizer.AllocationFromPools | ff_agent/lineup_optimizer.py:100-110 | Every chosen player comes from the candidate pools. |
| LineupOptimizer.StartersDistinct | ff_agent/lineup_optimizer.py:108-112 | Every non-empty starter entry names a chosen player, and no player starts in two slots. |
| LineupOptimizer.UniqueContents | ff_agent/lineup_optimizer.py:115-119 | The bench collection holds exactly the pooled choices whose player is not taken, each once. |
| LineupOptimizer.RankedChoice | ff_agent/lineup_optimizer.py:59-93 | The ranked pools hold exactly the choices of the owned players that have a primary position. |
| LineupOptimizer.BenchMember | ff_agent/lineup_optimizer.py:114-120 | A choice is on the bench exactly when it is in some pool and its player was not taken. |
| LineupOptimizer.BenchRanked | ff_agent/lineup_optimizer.py:120 | The bench is ordered by score, highest first. Equal scores keep their order of collection. |
| LineupOptimizer.BenchDistinct | ff_agent/lineup_optimizer.py:116-119 | No player appears twice on the bench, even one that sits in both its own pool and the FLEX pool. |
| LineupOptimizer.BenchCovers | ff_agent/lineup_optimizer.py:96-120 | The bench players together with the chosen players are exactly the owned players that have a primary position. |
| LineupOptimizer.LineupPartition | ff_agent/lineup_optimizer.py:42-122 | The whole optimizer returns a bench with no starter and no repeated player, ranked by score. Together with the starters, the bench covers every owned player with a primary position. |
| LineupOptimizer.CollectCandidates | ff_agent/lineup_optimizer.py:59-89 | The player loop builds exactly the specified candidate pools. |
| LineupOptimizer.SortEachPool | ff_agent/lineup_optimizer.py:92-93 | Sorting every pool in place gives exactly the specified ranked pools. |
| LineupOptimizer.FirstFree | ff_agent/lineup_optimizer.py:104-107 | The scan loop stops at the first candidate not yet taken. |
| LineupOptimizer.AllocateStarters | ff_agent/lineup_optimizer.py:96-112 | The slot loop produces exactly the specified starters and taken set. |
| LineupOptimizer.CollectBench | ff_agent/lineup_optimizer.py:115-120 | The bench loops and the final sort produce exactly the specified bench. |
| LineupOptimizer.OptimizeLineup | ff_agent/lineup_optimizer.py:42-122 | The optimizer returns the specified lineup, with one starter entry per slot. No player starts twice, no starter is on the bench, and the bench is ordered by score. |
| LineupOptimizer.HealthyQuarterbackStarts | tests/test_lineup_optimizer.py:4-14 | With an injured and a healthy quarterback and one QB slot, the healthy one starts. The injured one is benched with score -100. |
| LineupOptimizer.FlexSlotFilledInOrder | ff_agent/lineup_optimizer.py:99-112 | A FLEX slot listed before an RB slot takes the better running back, and the RB slot gets the other one. |
| WaiverAgent.SlotCountsValues | ff_agent/waiver_agent.py:15-18 | Every non-FLEX slot position is counted, and its value is how often it occurs among the slots. |
| WaiverAgent.RosterNeeds | ff_agent/waiver_agent.py:6-34 | FLEX never appears among the needs. |
| WaiverAgent.NeedsMeaning | ff_agent/waiver_agent.py:29-32 | A position needs players exactly when fewer roster players hold it than it has slots. A need never exceeds the slot count. A need is at least the slot count minus the roster size. |
| WaiverAgent.NeedsFromCounts | ff_agent/waiver_agent.py:29-32 | The needs are the slot counts minus the position counts, with 0 for an absent position. |
| WaiverAgent.ComputeRosterNeeds | ff_agent/waiver_agent.py:6-34 | The three loops compute exactly the specified needs. |
| WaiverAgent.Candidate | ff_agent/waiver_agent.py:50-59 | A trending row is a candidate exactly when its player has a non-empty primary position with a positive need. The candidate carries the row's identifier text, that position, and the row's count (0 when missing). |
| WaiverAgent.AtPositionMembers | ff_agent/waiver_agent.py:60-63 | The suggestions at a position are exactly the suggestions whose position it is. |
| WaiverAgent.TrendingAddsPerPosition | ff_agent/waiver_agent.py:60-63 | At every position, the suggestions are the first `max_per_position` candidates for it, in trending order. |
| WaiverAgent.TrendingAddsFromCandidates | ff_agent/waiver_agent.py:49-63 | Every suggestion comes from a trending row and names a position with a positive need. |
| WaiverAgent.TrendingAddsSubsequence | ff_agent/waiver_agent.py:49-63 | The suggestions are a subsequence of the candidates: trending order is kept and nothing is added. |
| WaiverAgent.TrendingAddsCapped | ff_agent/waiver_agent.py:41 | With a non-negative cap, no position gets more than `max_per_position` suggestions. |
| WaiverAgent.SuggestTrendingAdds | ff_agent/waiver_agent.py:37-65 | The loop with its per-position counter computes exactly the specified suggestions. |
| TradeAgent.TeamPositionCounts | ff_agent/trade_agent.py:6-15 | The counting loop returns a dictionary whose keys are exactly the held positions. Each value is that position's player count. |
| TradeAgent.RankKeyMeaning | ff_agent/trade_agent.py:41-48 | A player ranks at least as high as another exactly when it is a depth-chart starter and the other is not, or both agree on that and its order (missing or 0 read as 99) is not larger. |
| TradeAgent.RankedRoster | ff_agent/trade_agent.py:41-48 | The ranked roster is a permutation of the roster, ordered by rank. Tied players stay in roster order. |
| TradeAgent.PySlice | ff_agent/trade_agent.py:49 | Taking the first n players gives a prefix of length min(n, length). A negative n drops the last -n players. |
| TradeAgent.TeamPicks | ff_agent/trade_agent.py:49 | The picks pair each of the top-ranked players with the team's roster identifier, in ranked order. |
| TradeAgent.TeamPicksFromRoster | ff_agent/trade_agent.py:49 | Every pick belongs to the team's own roster and carries its identifier. With n >= 0 there are min(n, roster size) picks. |
| TradeAgent.TopIdsOutrank | ff_agent/trade_agent.py:41-49 | A picked player ranks at least as high as every player of that roster who was not picked. |
| TradeAgent.PartialStepListed | ff_agent/trade_agent.py:50-51 | Extending a position appends the picks to its list and creates the key only when the picks are non-empty. |
| TradeAgent.SuggestionsPerPosition | ff_agent/trade_agent.py:30-51 | Each position lists the qualifying teams' picks concatenated in team order. A position is a key exactly when it lists something. |
| TradeAgent.ListedForMembers | ff_agent/trade_agent.py:30-51 | A target is in a position's reference list exactly when some team's contribution contains it. |
| TradeAgent.TradeTargetsListed | ff_agent/trade_agent.py:30-51 | A target is listed for a position exactly when some other team picked it. That team must have at least two players there, and the user must need the position. |
| TradeAgent.TradeTargetsSound | ff_agent/trade_agent.py:31-39 | A listed target never belongs to the user's own roster. It is held by a team with a surplus at that position, and the user needs the position. |
| TradeAgent.TradeTargetsKeys | ff_agent/trade_agent.py:50-51 | A position appears in the result only with a non-empty list. |
| TradeAgent.ExtendForTeam | ff_agent/trade_agent.py:34-51 | The position loop for one team extends exactly the needed positions where the team has a surplus. |
| TradeAgent.SuggestTradeTargets | ff_agent/trade_agent.py:18-53 | The team loop computes exactly the specified suggestions. |

## Left out

- The Sleeper client, notifier, configuration and command-line modules are not part of this model. They do network I/O, file I/O and printing, and here their data becomes parameters.
- The inputs are typed records, not free-form JSON dictionaries.
  - A projection points field is modelled as "a number or nothing". The `isinstance(..., (int, float))` check, which also accepts booleans, is not modelled.
  - A depth-chart order is an optional integer, so the `isinstance(depth_order, int)` test is not modelled.
  - A trending count is an optional integer, so `int()` conversion and its errors are not modelled.
- Floating-point scores are modelled as exact reals, so rounding is not captured.
- The optimizer returns starters as a dictionary keyed by `str(idx)`. Here they are a sequence indexed by slot, with "" for an empty slot.
- A real player identifier "" cannot be told apart from an empty slot, as in the source.
- The needs and trade suggestions are maps, so the key order of the returned dictionaries is not modelled. Each per-position list keeps its order.
- The source's team dictionary has unique roster identifiers. The model accepts any sequence of teams, taken in dictionary order.
- The `primary == "DEF"` reassignment is a no-op and is left out.
- The FLEX branch in slot selection is left out because it picks the same pool as the general lookup.
- `players_index.get(pid) or {}` is modelled as a missing entry, with every field empty.
- `ExtendForTeam` computes the team's ranking and picks once, outside the position loop. The source recomputes them for each position. They depend only on the team, so the value is the same.
- WaiverAgent.RosterNeeds: its own contract states only that FLEX is absent. What the needs mean is stated by `NeedsMeaning` and `NeedsFromCounts`.
