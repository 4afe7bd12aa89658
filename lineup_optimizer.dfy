/** The lineup optimizer: scores every owned player, groups the players into
    ranked per-position pools (plus a FLEX pool for RB/WR/TE), fills the roster
    slots greedily in slot order, and ranks the players left over as the bench. */
module LineupOptimizer {
  import opened Players
  import StableSort

  /** Statuses that make a player count as injured. */
  const InjuryBadStatuses: set<string> := {"Out", "Doubtful", "IR", "Suspended", "PUP"}
  /** Primary positions that may also fill a FLEX slot. */
  const FlexPositions: set<string> := {"RB", "WR", "TE"}

  datatype Reason = Projection | Heuristic | Injury

  /** One scored candidate: who, at which primary position, how good, and why. */
  datatype PlayerChoice = PlayerChoice(playerId: string, position: string, score: real, reason: Reason)

  // ---------------------------------------------------------------------------
  // Projection lookup

  /** A projection row. A points field is `None` when it is missing or is not a
      number; `playerId` is `None` when the row has no identifier. */
  datatype ProjectionRow = ProjectionRow(
    playerId: Option<string>,
    ptsPpr: Option<real>,
    ptsHalfPpr: Option<real>,
    ptsStd: Option<real>)

  /** The first numeric field in the order pts_ppr, pts_half_ppr, pts_std. */
  function RowPoints(row: ProjectionRow): Option<real>
  {
    if row.ptsPpr.Some? then row.ptsPpr
    else if row.ptsHalfPpr.Some? then row.ptsHalfPpr
    else row.ptsStd
  }

  /** A row is stored when its identifier text is non-empty and it has points. */
  predicate Recorded(row: ProjectionRow)
  {
    IdText(row.playerId) != "" && RowPoints(row).Some?
  }

  /** The lookup after processing `rows` in order; later rows overwrite. */
  function LookupOf(rows: seq<ProjectionRow>): map<string, real>
  {
    if rows == [] then map[]
    else
      var prev := LookupOf(rows[..|rows| - 1]);
      var row := rows[|rows| - 1];
      if Recorded(row) then prev[IdText(row.playerId) := RowPoints(row).value] else prev
  }

  /** The lookup for an optional list of rows; no list gives the empty lookup. */
  function ProjectionLookup(projections: Option<seq<ProjectionRow>>): map<string, real>
  {
    if projections.None? then map[] else LookupOf(projections.value)
  }

  /** Row `i` is the last stored row for its identifier. */
  ghost predicate LastRecorded(rows: seq<ProjectionRow>, i: int)
    requires 0 <= i < |rows|
  {
    Recorded(rows[i])
    && forall j :: i < j < |rows| && Recorded(rows[j]) ==> IdText(rows[j].playerId) != IdText(rows[i].playerId)
  }

  lemma LookupOfSnoc(rows: seq<ProjectionRow>)
    requires rows != []
    ensures var prev, row := rows[..|rows| - 1], rows[|rows| - 1];
      LookupOf(rows) == if Recorded(row) then LookupOf(prev)[IdText(row.playerId) := RowPoints(row).value]
                        else LookupOf(prev)
  {
  }

  /** An identifier is in the lookup exactly when some stored row has it. */
  lemma {:induction false} LookupOfKey(rows: seq<ProjectionRow>, id: string)
    ensures id in LookupOf(rows) <==>
      exists i :: 0 <= i < |rows| && Recorded(rows[i]) && IdText(rows[i].playerId) == id
  {
    if rows != [] {
      var n := |rows| - 1;
      var prev := rows[..n];
      LookupOfSnoc(rows);
      LookupOfKey(prev, id);
      if id in LookupOf(prev) {
        var i :| 0 <= i < |prev| && Recorded(prev[i]) && IdText(prev[i].playerId) == id;
        assert rows[i] == prev[i];
      }
      if exists i :: 0 <= i < |rows| && Recorded(rows[i]) && IdText(rows[i].playerId) == id {
        var i :| 0 <= i < |rows| && Recorded(rows[i]) && IdText(rows[i].playerId) == id;
        if i < n {
          assert prev[i] == rows[i];
        }
      }
    }
  }

  /** The last stored row for an identifier decides its value. */
  lemma {:induction false} LookupOfLastRowWins(rows: seq<ProjectionRow>, i: int)
    requires 0 <= i < |rows| && LastRecorded(rows, i)
    ensures IdText(rows[i].playerId) in LookupOf(rows)
    ensures LookupOf(rows)[IdText(rows[i].playerId)] == RowPoints(rows[i]).value
  {
    var n := |rows| - 1;
    var prev := rows[..n];
    LookupOfSnoc(rows);
    if i < n {
      assert prev[i] == rows[i];
      forall j | i < j < |prev| && Recorded(prev[j])
        ensures IdText(prev[j].playerId) != IdText(prev[i].playerId)
      {
        assert prev[j] == rows[j];
      }
      LookupOfLastRowWins(prev, i);
      assert !Recorded(rows[n]) || IdText(rows[n].playerId) != IdText(rows[i].playerId);
    }
  }

  /** Builds the projection lookup row by row, as the source's loop does. */
  method BuildProjectionLookup(projections: Option<seq<ProjectionRow>>) returns (result: map<string, real>)
    ensures projections.None? || projections.value == [] ==> result == map[]
    ensures result == ProjectionLookup(projections)
  {
    if projections.None? || projections.value == [] {
      return map[];
    }
    var rows := projections.value;
    result := map[];
    var i := 0;
    while i < |rows|
      invariant 0 <= i <= |rows|
      invariant result == LookupOf(rows[..i])
    {
      var row := rows[i];
      var pid := IdText(row.playerId);
      var pts := RowPoints(row);
      if pid != "" && pts.Some? {
        result := result[pid := pts.value];
      }
      assert rows[..i + 1][..i] == rows[..i];
      i := i + 1;
    }
    assert rows[..i] == rows;
  }

  // ---------------------------------------------------------------------------
  // Scoring

  /** Injured when the injury status, or the status field when the injury
      status is unset, is one of the bad statuses. */
  predicate IsInjured(p: Player)
    ensures Truthy(p.injuryStatus) ==> (IsInjured(p) <==> p.injuryStatus.value in InjuryBadStatuses)
    ensures !Truthy(p.injuryStatus) ==> (IsInjured(p) <==> p.status.Some? && p.status.value in InjuryBadStatuses)
  {
    var status := if Truthy(p.injuryStatus) then p.injuryStatus else p.status;
    Truthy(status) && status.value in InjuryBadStatuses
  }

  /** max(0, 10 - depth order) when the depth order is known, else 0. */
  function DepthBonus(p: Player): real
  {
    if p.depthChartOrder.None? then 0.0
    else
      var b := 10.0 - p.depthChartOrder.value as real;
      if b > 0.0 then b else 0.0
  }

  /** The score of a player without a projection. */
  function HeuristicScore(p: Player): real
  {
    (if IsInjured(p) then -100.0 else 0.0)
      + DepthBonus(p)
      + (if p.depthChartPosition == Some(1) then 2.0 else 0.0)
  }

  /** Scores one player: the projection verbatim when there is one, otherwise
      the heuristic, whose injury penalty outweighs every bonus. */
  function Choose(pid: string, primary: string, p: Player, lookup: map<string, real>): (c: PlayerChoice)
    ensures c.playerId == pid && c.position == primary
    ensures pid in lookup ==> c.score == lookup[pid] && c.reason == Projection
    ensures pid !in lookup ==> c.score == HeuristicScore(p)
    ensures pid !in lookup ==> c.reason == (if IsInjured(p) then Injury else Heuristic)
    ensures pid !in lookup && !IsInjured(p) ==> 0.0 <= c.score <= 2.0 + DepthBonus(p)
    ensures pid !in lookup && IsInjured(p) && (p.depthChartOrder.None? || p.depthChartOrder.value >= 0)
      ==> c.score <= -88.0
  {
    if pid in lookup then PlayerChoice(pid, primary, lookup[pid], Projection)
    else PlayerChoice(pid, primary, HeuristicScore(p), if IsInjured(p) then Injury else Heuristic)
  }

  /** The scored choice for `pid`, or `None` when it has no primary position. */
  function ChoiceFor(index: map<string, Player>, lookup: map<string, real>, pid: string): Option<PlayerChoice>
  {
    match PrimaryOf(index, pid)
    case None => None
    case Some(primary) => Some(Choose(pid, primary, PlayerOf(index, pid), lookup))
  }

  // ---------------------------------------------------------------------------
  // Candidate pools

  /** Pools keyed by position, in the order their keys were first added. */
  type Pools = seq<(string, seq<PlayerChoice>)>

  /** The pool for `k`, or the empty pool when there is none. */
  function PoolFor(pools: Pools, k: string): seq<PlayerChoice>
  {
    if pools == [] then []
    else if pools[0].0 == k then pools[0].1
    else PoolFor(pools[1..], k)
  }

  /** Appends `c` to the pool for `k`, adding that pool at the end if missing. */
  function AppendTo(pools: Pools, k: string, c: PlayerChoice): Pools
  {
    if pools == [] then [(k, [c])]
    else if pools[0].0 == k then [(k, pools[0].1 + [c])] + pools[1..]
    else [pools[0]] + AppendTo(pools[1..], k, c)
  }

  /** Adds a choice to its own position's pool and, for RB/WR/TE, to FLEX. */
  function AddChoice(pools: Pools, c: PlayerChoice): Pools
  {
    var own := AppendTo(pools, c.position, c);
    if c.position in FlexPositions then AppendTo(own, Flex, c) else own
  }

  /** The pools after processing the owned players `ids` in order. */
  function CandidatePools(ids: seq<string>, index: map<string, Player>, lookup: map<string, real>): Pools
  {
    if ids == [] then []
    else
      var prev := CandidatePools(ids[..|ids| - 1], index, lookup);
      match ChoiceFor(index, lookup, ids[|ids| - 1])
      case None => prev
      case Some(c) => AddChoice(prev, c)
  }

  /** `c` belongs in the pool for `k`. */
  predicate Eligible(c: PlayerChoice, k: string)
  {
    c.position == k || (k == Flex && c.position in FlexPositions)
  }

  /** Reference definition of a pool: the choices of the players in `ids` that
      are eligible for `k`, in roster order. */
  function EligibleChoices(ids: seq<string>, index: map<string, Player>, lookup: map<string, real>, k: string)
    : seq<PlayerChoice>
  {
    if ids == [] then []
    else
      var prev := EligibleChoices(ids[..|ids| - 1], index, lookup, k);
      match ChoiceFor(index, lookup, ids[|ids| - 1])
      case None => prev
      case Some(c) => if Eligible(c, k) then prev + [c] else prev
  }

  lemma {:induction false} PoolForAppendTo(pools: Pools, k: string, c: PlayerChoice, j: string)
    ensures PoolFor(AppendTo(pools, k, c), j) == PoolFor(pools, j) + (if j == k then [c] else [])
  {
    if pools != [] && pools[0].0 != k {
      PoolForAppendTo(pools[1..], k, c, j);
      assert ([pools[0]] + AppendTo(pools[1..], k, c))[1..] == AppendTo(pools[1..], k, c);
    } else if pools != [] {
      assert ([(k, pools[0].1 + [c])] + pools[1..])[1..] == pools[1..];
    }
  }

  lemma PoolForAddChoice(pools: Pools, c: PlayerChoice, j: string)
    ensures PoolFor(AddChoice(pools, c), j) == PoolFor(pools, j) + (if Eligible(c, j) then [c] else [])
  {
    PoolForAppendTo(pools, c.position, c, j);
    if c.position in FlexPositions {
      PoolForAppendTo(AppendTo(pools, c.position, c), Flex, c, j);
    }
  }

  /** Each pool lists, in roster order, the choice of every owned player that is
      eligible for it: its own primary position, and FLEX for RB/WR/TE. */
  lemma {:induction false} CandidatePoolsContents(ids: seq<string>, index: map<string, Player>,
                                                   lookup: map<string, real>, k: string)
    ensures PoolFor(CandidatePools(ids, index, lookup), k) == EligibleChoices(ids, index, lookup, k)
  {
    if ids != [] {
      var prev := ids[..|ids| - 1];
      CandidatePoolsContents(prev, index, lookup, k);
      var choice := ChoiceFor(index, lookup, ids[|ids| - 1]);
      if choice.Some? {
        PoolForAddChoice(CandidatePools(prev, index, lookup), choice.value, k);
      }
    }
  }

  lemma {:induction false} EligibleChoicesMembers(ids: seq<string>, index: map<string, Player>,
                                                   lookup: map<string, real>, k: string)
    ensures forall c :: c in EligibleChoices(ids, index, lookup, k) <==>
      Eligible(c, k) && exists i :: 0 <= i < |ids| && ChoiceFor(index, lookup, ids[i]) == Some(c)
  {
    if ids != [] {
      var n := |ids| - 1;
      var prev := ids[..n];
      EligibleChoicesMembers(prev, index, lookup, k);
      assert forall i :: 0 <= i < n ==> prev[i] == ids[i];
      forall c
        ensures c in EligibleChoices(ids, index, lookup, k) <==>
          Eligible(c, k) && exists i :: 0 <= i < |ids| && ChoiceFor(index, lookup, ids[i]) == Some(c)
      {
        if Eligible(c, k) && exists i :: 0 <= i < |ids| && ChoiceFor(index, lookup, ids[i]) == Some(c) {
          var i :| 0 <= i < |ids| && ChoiceFor(index, lookup, ids[i]) == Some(c);
          if i < n {
            assert ChoiceFor(index, lookup, prev[i]) == Some(c);
          }
        }
      }
    }
  }

  // ---------------------------------------------------------------------------
  // Ranking the pools

  /** Pools and the bench are ranked by score, highest first. */
  function ScoreKey(c: PlayerChoice): StableSort.Key
  {
    StableSort.Key(0, c.score)
  }

  /** Every pool sorted by score, highest first, ties in pool order. */
  function SortPools(pools: Pools): (r: Pools)
    ensures |r| == |pools|
    ensures forall i :: 0 <= i < |r| ==> r[i] == (pools[i].0, StableSort.Sort(pools[i].1, ScoreKey))
  {
    if pools == [] then []
    else [(pools[0].0, StableSort.Sort(pools[0].1, ScoreKey))] + SortPools(pools[1..])
  }

  lemma {:induction false} PoolForSortPools(pools: Pools, k: string)
    ensures PoolFor(SortPools(pools), k) == StableSort.Sort(PoolFor(pools, k), ScoreKey)
  {
    if pools != [] {
      PoolForSortPools(pools[1..], k);
      assert SortPools(pools)[1..] == SortPools(pools[1..]);
    }
  }

  /** The ranked pools the allocator reads. */
  function RankedPools(ids: seq<string>, index: map<string, Player>, lookup: map<string, real>): Pools
  {
    SortPools(CandidatePools(ids, index, lookup))
  }

  /** A ranked pool holds exactly the eligible players' choices, scores never
      increase along it, and choices with equal scores stay in roster order. */
  lemma RankedPool(ids: seq<string>, index: map<string, Player>, lookup: map<string, real>, k: string)
    ensures var pool := PoolFor(RankedPools(ids, index, lookup), k);
      && multiset(pool) == multiset(EligibleChoices(ids, index, lookup, k))
      && (forall i, j :: 0 <= i < j < |pool| ==> pool[i].score >= pool[j].score)
      && (forall key :: StableSort.WithKey(pool, ScoreKey, key)
                        == StableSort.WithKey(EligibleChoices(ids, index, lookup, k), ScoreKey, key))
      && (forall c :: c in pool <==>
            Eligible(c, k) && exists i :: 0 <= i < |ids| && ChoiceFor(index, lookup, ids[i]) == Some(c))
  {
    var elig := EligibleChoices(ids, index, lookup, k);
    CandidatePoolsContents(ids, index, lookup, k);
    PoolForSortPools(CandidatePools(ids, index, lookup), k);
    StableSort.SortSorted(elig, ScoreKey);
    forall key {
      StableSort.SortStable(elig, ScoreKey, key);
    }
    EligibleChoicesMembers(ids, index, lookup, k);
    var pool := PoolFor(RankedPools(ids, index, lookup), k);
    forall c ensures c in pool <==> c in elig {
      assert c in pool <==> c in multiset(pool);
      assert c in elig <==> c in multiset(elig);
    }
  }

  /** A player with no primary position is in no pool; an RB, WR or TE is in
      the pool of its own position and in the FLEX pool. */
  lemma PoolMembership(ids: seq<string>, index: map<string, Player>, lookup: map<string, real>,
                       i: int, k: string)
    requires 0 <= i < |ids|
    ensures PrimaryOf(index, ids[i]).None? ==>
      forall c :: c in PoolFor(RankedPools(ids, index, lookup), k) ==> c.playerId != ids[i]
    ensures PrimaryOf(index, ids[i]).Some? ==>
      var c := ChoiceFor(index, lookup, ids[i]).value;
      && c in PoolFor(RankedPools(ids, index, lookup), c.position)
      && (c.position in FlexPositions ==> c in PoolFor(RankedPools(ids, index, lookup), Flex))
  {
    var pid := ids[i];
    var choice := ChoiceFor(index, lookup, pid);
    RankedPool(ids, index, lookup, k);
    if choice.Some? {
      RankedPool(ids, index, lookup, choice.value.position);
      RankedPool(ids, index, lookup, Flex);
    } else {
      forall c | c in PoolFor(RankedPools(ids, index, lookup), k)
        ensures c.playerId != pid
      {
        var m :| 0 <= m < |ids| && ChoiceFor(index, lookup, ids[m]) == Some(c);
        assert c.playerId == ids[m];
      }
    }
  }

  // ---------------------------------------------------------------------------
  // Every choice in the pools, in pool order

  function Flatten(pools: Pools): seq<PlayerChoice>
  {
    if pools == [] then [] else pools[0].1 + Flatten(pools[1..])
  }

  lemma {:induction false} FlattenConcat(a: Pools, b: Pools)
    ensures Flatten(a + b) == Flatten(a) + Flatten(b)
  {
    if a != [] {
      FlattenConcat(a[1..], b);
      assert (a + b)[1..] == a[1..] + b;
    } else {
      assert a + b == b;
    }
  }

  lemma FlattenSnoc(pools: Pools, i: int)
    requires 0 <= i < |pools|
    ensures Flatten(pools[..i + 1]) == Flatten(pools[..i]) + pools[i].1
  {
    assert pools[..i + 1] == pools[..i] + [pools[i]];
    FlattenConcat(pools[..i], [pools[i]]);
    assert Flatten([pools[i]]) == pools[i].1 + Flatten([]);
  }

  lemma {:induction false} FlattenAppendTo(pools: Pools, k: string, c: PlayerChoice)
    ensures multiset(Flatten(AppendTo(pools, k, c))) == multiset(Flatten(pools)) + multiset{c}
  {
    if pools == [] {
      assert Flatten([(k, [c])]) == [c] + Flatten([]);
    } else if pools[0].0 == k {
      var r := [(k, pools[0].1 + [c])] + pools[1..];
      assert r[1..] == pools[1..];
      assert Flatten(r) == pools[0].1 + [c] + Flatten(pools[1..]);
    } else {
      FlattenAppendTo(pools[1..], k, c);
      var r := [pools[0]] + AppendTo(pools[1..], k, c);
      assert r[1..] == AppendTo(pools[1..], k, c);
    }
  }

  lemma {:induction false} FlattenSortPools(pools: Pools)
    ensures multiset(Flatten(SortPools(pools))) == multiset(Flatten(pools))
  {
    if pools != [] {
      FlattenSortPools(pools[1..]);
      assert SortPools(pools)[1..] == SortPools(pools[1..]);
    }
  }

  lemma {:induction false} PoolForInFlatten(pools: Pools, k: string, c: PlayerChoice)
    requires c in PoolFor(pools, k)
    ensures c in Flatten(pools)
  {
    if pools[0].0 != k {
      PoolForInFlatten(pools[1..], k, c);
    }
  }

  lemma FlattenAddChoice(pools: Pools, c: PlayerChoice, x: PlayerChoice)
    ensures x in Flatten(AddChoice(pools, c)) <==> x in Flatten(pools) || x == c
  {
    var own := AppendTo(pools, c.position, c);
    FlattenAppendTo(pools, c.position, c);
    FlattenAppendTo(own, Flex, c);
    assert x in Flatten(own) <==> x in multiset(Flatten(own));
    assert x in Flatten(pools) <==> x in multiset(Flatten(pools));
    assert x in Flatten(AddChoice(pools, c)) <==> x in multiset(Flatten(AddChoice(pools, c)));
  }

  /** The pools hold exactly the choices of the owned players that have a
      primary position. */
  lemma {:induction false} FlattenCandidatePools(ids: seq<string>, index: map<string, Player>,
                                                  lookup: map<string, real>, c: PlayerChoice)
    ensures c in Flatten(CandidatePools(ids, index, lookup)) <==>
      exists i :: 0 <= i < |ids| && ChoiceFor(index, lookup, ids[i]) == Some(c)
  {
    if ids != [] {
      var n := |ids| - 1;
      var prev := ids[..n];
      FlattenCandidatePools(prev, index, lookup, c);
      var choice := ChoiceFor(index, lookup, ids[n]);
      if choice.Some? {
        FlattenAddChoice(CandidatePools(prev, index, lookup), choice.value, c);
      }
      if c in Flatten(CandidatePools(prev, index, lookup)) {
        var i :| 0 <= i < |prev| && ChoiceFor(index, lookup, prev[i]) == Some(c);
        assert ids[i] == prev[i];
      }
      if exists i :: 0 <= i < |ids| && ChoiceFor(index, lookup, ids[i]) == Some(c) {
        var i :| 0 <= i < |ids| && ChoiceFor(index, lookup, ids[i]) == Some(c);
        if i < n {
          assert ChoiceFor(index, lookup, prev[i]) == Some(c);
        }
      }
    }
  }

  // ---------------------------------------------------------------------------
  // Greedy slot allocation

  /** The position of the first candidate not yet taken, or |pool| if none. */
  function FirstFreeIndex(pool: seq<PlayerChoice>, taken: set<string>): (j: nat)
    ensures j <= |pool|
    ensures forall m :: 0 <= m < j ==> pool[m].playerId in taken
    ensures j < |pool| ==> pool[j].playerId !in taken
  {
    if pool == [] then 0
    else if pool[0].playerId !in taken then 0
    else 1 + FirstFreeIndex(pool[1..], taken)
  }

  /** The first candidate not yet taken, if any. */
  function Pick(pool: seq<PlayerChoice>, taken: set<string>): Option<PlayerChoice>
  {
    var j := FirstFreeIndex(pool, taken);
    if j < |pool| then Some(pool[j]) else None
  }

  /** The identifiers of the players chosen so far. */
  function TakenIds(chosen: seq<Option<PlayerChoice>>): set<string>
  {
    if chosen == [] then {}
    else
      var last := chosen[|chosen| - 1];
      TakenIds(chosen[..|chosen| - 1]) + (if last.Some? then {last.value.playerId} else {})
  }

  /** The choice made for each slot, filling the slots in order. */
  function Allocation(slots: seq<string>, pools: Pools): (chosen: seq<Option<PlayerChoice>>)
    ensures |chosen| == |slots|
  {
    if slots == [] then []
    else
      var prev := Allocation(slots[..|slots| - 1], pools);
      prev + [Pick(PoolFor(pools, slots[|slots| - 1]), TakenIds(prev))]
  }

  /** The starters as the source reports them: an identifier per slot, with
      "" for a slot left empty. */
  function Starters(chosen: seq<Option<PlayerChoice>>): (s: seq<string>)
    ensures |s| == |chosen|
  {
    seq(|chosen|, i requires 0 <= i < |chosen| =>
      if chosen[i].Some? then chosen[i].value.playerId else "")
  }

  lemma {:induction false} TakenIdsMembers(chosen: seq<Option<PlayerChoice>>)
    ensures forall id :: id in TakenIds(chosen) <==>
      exists i :: 0 <= i < |chosen| && chosen[i].Some? && chosen[i].value.playerId == id
  {
    if chosen != [] {
      var n := |chosen| - 1;
      var prev := chosen[..n];
      TakenIdsMembers(prev);
      assert forall i :: 0 <= i < n ==> prev[i] == chosen[i];
      forall id
        ensures id in TakenIds(chosen) <==>
          exists i :: 0 <= i < |chosen| && chosen[i].Some? && chosen[i].value.playerId == id
      {
        if exists i :: 0 <= i < |chosen| && chosen[i].Some? && chosen[i].value.playerId == id {
          var i :| 0 <= i < |chosen| && chosen[i].Some? && chosen[i].value.playerId == id;
          if i < n {
            assert prev[i] == chosen[i];
          }
        }
      }
    }
  }

  lemma {:induction false} AllocationPrefix(slots: seq<string>, pools: Pools, m: int)
    requires 0 <= m <= |slots|
    ensures Allocation(slots[..m], pools) == Allocation(slots, pools)[..m]
    decreases |slots|
  {
    if m < |slots| {
      var n := |slots| - 1;
      AllocationPrefix(slots[..n], pools, m);
      assert slots[..n][..m] == slots[..m];
    } else {
      assert slots[..m] == slots;
    }
  }

  lemma AllocationStep(slots: seq<string>, pools: Pools, i: int)
    requires 0 <= i < |slots|
    ensures Allocation(slots[..i + 1], pools)
         == Allocation(slots[..i], pools)
            + [Pick(PoolFor(pools, slots[i]), TakenIds(Allocation(slots[..i], pools)))]
  {
    assert slots[..i + 1][..i] == slots[..i];
  }

  /** Slot `i` gets the pick from its pool given the players earlier slots took. */
  lemma AllocationAt(slots: seq<string>, pools: Pools, i: int)
    requires 0 <= i < |slots|
    ensures var a := Allocation(slots, pools);
      a[i] == Pick(PoolFor(pools, slots[i]), TakenIds(a[..i]))
  {
    var a := Allocation(slots, pools);
    AllocationPrefix(slots, pools, i + 1);
    AllocationPrefix(slots, pools, i);
    AllocationStep(slots, pools, i);
    assert a[..i + 1][i] == a[i];
  }

  /** Each slot, in slot order, gets the first candidate of its pool whose
      player no earlier slot took, or stays empty when every candidate of its
      pool is taken. */
  lemma AllocationGreedy(slots: seq<string>, pools: Pools, i: int)
    requires 0 <= i < |slots|
    ensures var a := Allocation(slots, pools);
      var pool := PoolFor(pools, slots[i]);
      var before := TakenIds(a[..i]);
      && (a[i].None? ==> forall c :: c in pool ==> c.playerId in before)
      && (a[i].Some? ==>
            && a[i].value.playerId !in before
            && exists j :: 0 <= j < |pool| && pool[j] == a[i].value
                           && forall m :: 0 <= m < j ==> pool[m].playerId in before)
  {
    var a := Allocation(slots, pools);
    AllocationAt(slots, pools, i);
    var pool := PoolFor(pools, slots[i]);
    var before := TakenIds(a[..i]);
    var j := FirstFreeIndex(pool, before);
    if j == |pool| {
      forall c | c in pool
        ensures c.playerId in before
      {
        var m :| 0 <= m < |pool| && pool[m] == c;
      }
    } else {
      assert pool[j] == a[i].value;
    }
  }

  /** No player fills two slots. */
  lemma AllocationDistinct(slots: seq<string>, pools: Pools)
    ensures forall i, j :: 0 <= i < j < |slots| && Allocation(slots, pools)[i].Some?
                           && Allocation(slots, pools)[j].Some? ==>
      Allocation(slots, pools)[i].value.playerId != Allocation(slots, pools)[j].value.playerId
  {
    var a := Allocation(slots, pools);
    forall i, j | 0 <= i < j < |a| && a[i].Some? && a[j].Some?
      ensures a[i].value.playerId != a[j].value.playerId
    {
      AllocationGreedy(slots, pools, j);
      TakenIdsMembers(a[..j]);
      assert a[..j][i] == a[i];
    }
  }

  /** Every chosen player comes from the pools. */
  lemma AllocationFromPools(slots: seq<string>, pools: Pools)
    ensures forall id :: id in TakenIds(Allocation(slots, pools)) ==>
      exists c :: c in Flatten(pools) && c.playerId == id
  {
    var a := Allocation(slots, pools);
    TakenIdsMembers(a);
    forall id | id in TakenIds(a)
      ensures exists c :: c in Flatten(pools) && c.playerId == id
    {
      var i :| 0 <= i < |a| && a[i].Some? && a[i].value.playerId == id;
      AllocationGreedy(slots, pools, i);
      var pool := PoolFor(pools, slots[i]);
      var j :| 0 <= j < |pool| && pool[j] == a[i].value;
      PoolForInFlatten(pools, slots[i], a[i].value);
    }
  }

  /** A non-empty starter entry names a chosen player, and no player starts
      in two slots. */
  lemma StartersDistinct(slots: seq<string>, pools: Pools)
    ensures var a := Allocation(slots, pools);
      var s := Starters(a);
      && (forall i :: 0 <= i < |s| && s[i] != "" ==> s[i] in TakenIds(a))
      && (forall i, j :: 0 <= i < j < |s| && s[i] != "" ==> s[i] != s[j])
  {
    var a := Allocation(slots, pools);
    AllocationDistinct(slots, pools);
    TakenIdsMembers(a);
    var s := Starters(a);
    forall i | 0 <= i < |s| && s[i] != ""
      ensures s[i] in TakenIds(a)
    {
      assert a[i].Some?;
    }
    forall i, j | 0 <= i < j < |s| && s[i] != ""
      ensures s[i] != s[j]
    {
      assert a[i].Some? && s[i] == a[i].value.playerId;
      assert s[j] == if a[j].Some? then a[j].value.playerId else "";
      if a[j].Some? {
        assert a[i].value.playerId != a[j].value.playerId;
      }
    }
  }

  // ---------------------------------------------------------------------------
  // The bench

  /** The choices of `s` whose player is not taken, each kept once, in order. */
  function Unique(s: seq<PlayerChoice>, taken: set<string>): seq<PlayerChoice>
  {
    if s == [] then []
    else
      var prev := Unique(s[..|s| - 1], taken);
      var x := s[|s| - 1];
      if x.playerId !in taken && x !in prev then prev + [x] else prev
  }

  /** No element occurs twice. */
  ghost predicate NoRepeats(s: seq<PlayerChoice>)
  {
    forall x :: multiset(s)[x] <= 1
  }

  lemma {:induction false} UniqueContents(s: seq<PlayerChoice>, taken: set<string>)
    ensures forall x :: x in Unique(s, taken) <==> x in s && x.playerId !in taken
    ensures NoRepeats(Unique(s, taken))
  {
    if s != [] {
      var n := |s| - 1;
      var prev := s[..n];
      UniqueContents(prev, taken);
      assert s == prev + [s[n]];
      var u := Unique(prev, taken);
      if s[n].playerId !in taken && s[n] !in u {
        assert multiset(u)[s[n]] == 0;
        assert multiset(u + [s[n]]) == multiset(u) + multiset{s[n]};
      }
    }
  }

  /** The bench: every pooled choice whose player is not taken, once, ranked by
      score with ties in pool order. */
  function BenchOf(pools: Pools, taken: set<string>): seq<PlayerChoice>
  {
    StableSort.Sort(Unique(Flatten(pools), taken), ScoreKey)
  }

  /** In a sequence without repeats, different positions hold different elements. */
  lemma DistinctIndices(s: seq<PlayerChoice>, i: int, j: int)
    requires NoRepeats(s) && 0 <= i < j < |s|
    ensures s[i] != s[j]
  {
    assert s == s[..j] + [s[j]] + s[j + 1..];
    assert s[i] in s[..j];
    assert multiset(s)[s[j]] == multiset(s[..j])[s[j]] + 1 + multiset(s[j + 1..])[s[j]];
  }

  // ---------------------------------------------------------------------------
  // The whole optimizer

  /** The owned players that have a primary position. */
  ghost function PooledIds(ids: seq<string>, index: map<string, Player>): set<string>
  {
    set pid | pid in ids && PrimaryOf(index, pid).Some?
  }

  /** Starters and bench for the given roster, slots, index and projections. */
  function Lineup(ids: seq<string>, slots: seq<string>, index: map<string, Player>,
                  projections: Option<seq<ProjectionRow>>): (seq<string>, seq<PlayerChoice>)
  {
    var pools := RankedPools(ids, index, ProjectionLookup(projections));
    var chosen := Allocation(slots, pools);
    (Starters(chosen), BenchOf(pools, TakenIds(chosen)))
  }

  /** The ranked pools hold the same choices as the unranked ones: the choices
      of the owned players that have a primary position. */
  lemma RankedChoice(ids: seq<string>, index: map<string, Player>, lookup: map<string, real>,
                     c: PlayerChoice)
    ensures c in Flatten(RankedPools(ids, index, lookup)) <==>
      exists i :: 0 <= i < |ids| && ChoiceFor(index, lookup, ids[i]) == Some(c)
  {
    var raw := CandidatePools(ids, index, lookup);
    FlattenSortPools(raw);
    FlattenCandidatePools(ids, index, lookup, c);
    assert c in Flatten(SortPools(raw)) <==> c in multiset(Flatten(SortPools(raw)));
    assert c in Flatten(raw) <==> c in multiset(Flatten(raw));
  }

  /** A bench entry is a pooled choice whose player is untaken, and every such
      choice is on the bench. */
  lemma BenchMember(pools: Pools, taken: set<string>, c: PlayerChoice)
    ensures c in BenchOf(pools, taken) <==> c in Flatten(pools) && c.playerId !in taken
  {
    var u := Unique(Flatten(pools), taken);
    UniqueContents(Flatten(pools), taken);
    assert c in BenchOf(pools, taken) <==> c in multiset(BenchOf(pools, taken));
    assert c in u <==> c in multiset(u);
  }

  /** The bench is ranked by score, highest first, ties in pool order. */
  lemma BenchRanked(pools: Pools, taken: set<string>)
    ensures var bench := BenchOf(pools, taken);
      forall i, j :: 0 <= i < j < |bench| ==> bench[i].score >= bench[j].score
    ensures forall key :: StableSort.WithKey(BenchOf(pools, taken), ScoreKey, key)
                       == StableSort.WithKey(Unique(Flatten(pools), taken), ScoreKey, key)
  {
    StableSort.SortSorted(Unique(Flatten(pools), taken), ScoreKey);
    forall key
      ensures StableSort.WithKey(BenchOf(pools, taken), ScoreKey, key)
           == StableSort.WithKey(Unique(Flatten(pools), taken), ScoreKey, key)
    {
      StableSort.SortStable(Unique(Flatten(pools), taken), ScoreKey, key);
    }
  }

  /** No player is on the bench twice: the pools never hold two different
      choices for one player, and the bench keeps each choice once. */
  lemma BenchDistinct(ids: seq<string>, index: map<string, Player>, lookup: map<string, real>,
                      taken: set<string>)
    ensures var bench := BenchOf(RankedPools(ids, index, lookup), taken);
      forall i, j :: 0 <= i < j < |bench| ==> bench[i].playerId != bench[j].playerId
  {
    var pools := RankedPools(ids, index, lookup);
    var u := Unique(Flatten(pools), taken);
    var bench := BenchOf(pools, taken);
    UniqueContents(Flatten(pools), taken);
    assert multiset(bench) == multiset(u);
    assert NoRepeats(bench);
    forall i, j | 0 <= i < j < |bench|
      ensures bench[i].playerId != bench[j].playerId
    {
      DistinctIndices(bench, i, j);
      BenchMember(pools, taken, bench[i]);
      BenchMember(pools, taken, bench[j]);
      RankedChoice(ids, index, lookup, bench[i]);
      RankedChoice(ids, index, lookup, bench[j]);
      var m :| 0 <= m < |ids| && ChoiceFor(index, lookup, ids[m]) == Some(bench[i]);
      var n :| 0 <= n < |ids| && ChoiceFor(index, lookup, ids[n]) == Some(bench[j]);
      assert bench[i].playerId == ids[m] && bench[j].playerId == ids[n];
    }
  }

  /** Every bench player and every chosen player is an owned player with a
      primary position, when every chosen player comes from the pools. */
  lemma BenchCoversWithin(ids: seq<string>, index: map<string, Player>, lookup: map<string, real>,
                          taken: set<string>, pid: string)
    requires forall id :: id in taken ==>
      exists c :: c in Flatten(RankedPools(ids, index, lookup)) && c.playerId == id
    requires pid in (set c | c in BenchOf(RankedPools(ids, index, lookup), taken) :: c.playerId) + taken
    ensures pid in PooledIds(ids, index)
  {
    var pools := RankedPools(ids, index, lookup);
    var c: PlayerChoice;
    if pid in taken {
      c :| c in Flatten(pools) && c.playerId == pid;
    } else {
      c :| c in BenchOf(pools, taken) && c.playerId == pid;
      BenchMember(pools, taken, c);
    }
    RankedChoice(ids, index, lookup, c);
    var m :| 0 <= m < |ids| && ChoiceFor(index, lookup, ids[m]) == Some(c);
    assert ids[m] == pid;
  }

  /** Every owned player with a primary position is chosen or on the bench. */
  lemma BenchCoversAll(ids: seq<string>, index: map<string, Player>, lookup: map<string, real>,
                       taken: set<string>, pid: string)
    requires pid in PooledIds(ids, index)
    ensures pid in (set c | c in BenchOf(RankedPools(ids, index, lookup), taken) :: c.playerId) + taken
  {
    var pools := RankedPools(ids, index, lookup);
    var m :| 0 <= m < |ids| && ids[m] == pid;
    var c := ChoiceFor(index, lookup, pid).value;
    RankedChoice(ids, index, lookup, c);
    if pid !in taken {
      BenchMember(pools, taken, c);
      assert c in BenchOf(pools, taken);
    }
  }

  /** The bench and the chosen players together are exactly the owned players
      that have a primary position, when every chosen player comes from the pools. */
  lemma BenchCovers(ids: seq<string>, index: map<string, Player>, lookup: map<string, real>,
                    taken: set<string>)
    requires forall id :: id in taken ==>
      exists c :: c in Flatten(RankedPools(ids, index, lookup)) && c.playerId == id
    ensures (set c | c in BenchOf(RankedPools(ids, index, lookup), taken) :: c.playerId) + taken
            == PooledIds(ids, index)
  {
    var covered := (set c | c in BenchOf(RankedPools(ids, index, lookup), taken) :: c.playerId) + taken;
    forall pid | pid in covered
      ensures pid in PooledIds(ids, index)
    {
      BenchCoversWithin(ids, index, lookup, taken, pid);
    }
    forall pid | pid in PooledIds(ids, index)
      ensures pid in covered
    {
      BenchCoversAll(ids, index, lookup, taken, pid);
    }
  }

  /** The bench holds no chosen player and no player twice, is ranked by
      score highest first, and together with the chosen players covers
      exactly the owned players that have a primary position. */
  lemma LineupPartition(ids: seq<string>, slots: seq<string>, index: map<string, Player>,
                        projections: Option<seq<ProjectionRow>>)
    ensures var pools := RankedPools(ids, index, ProjectionLookup(projections));
      var taken := TakenIds(Allocation(slots, pools));
      var bench := Lineup(ids, slots, index, projections).1;
      && (forall c :: c in bench ==> c.playerId !in taken)
      && (forall i, j :: 0 <= i < j < |bench| ==> bench[i].playerId != bench[j].playerId)
      && (forall i, j :: 0 <= i < j < |bench| ==> bench[i].score >= bench[j].score)
      && (set c | c in bench :: c.playerId) + taken == PooledIds(ids, index)
  {
    var lookup := ProjectionLookup(projections);
    var pools := RankedPools(ids, index, lookup);
    var taken := TakenIds(Allocation(slots, pools));
    BenchRanked(pools, taken);
    BenchDistinct(ids, index, lookup, taken);
    AllocationFromPools(slots, pools);
    BenchCovers(ids, index, lookup, taken);
    forall c | c in BenchOf(pools, taken)
      ensures c.playerId !in taken
    {
      BenchMember(pools, taken, c);
    }
  }

  // ---------------------------------------------------------------------------
  // The imperative optimizer

  /** Scores the owned players in order and fills the pools. */
  method CollectCandidates(ids: seq<string>, index: map<string, Player>, lookup: map<string, real>)
    returns (pools: Pools)
    ensures pools == CandidatePools(ids, index, lookup)
  {
    pools := [];
    var i := 0;
    while i < |ids|
      invariant 0 <= i <= |ids|
      invariant pools == CandidatePools(ids[..i], index, lookup)
    {
      var pid := ids[i];
      var pdata := PlayerOf(index, pid);
      var primary := PrimaryPosition(pdata);
      if primary.Some? {
        var pc := Choose(pid, primary.value, pdata, lookup);
        pools := AppendTo(pools, primary.value, pc);
        if primary.value in FlexPositions {
          pools := AppendTo(pools, Flex, pc);
        }
      }
      assert ids[..i + 1][..i] == ids[..i];
      i := i + 1;
    }
    assert ids[..i] == ids;
  }

  /** Sorts every pool by score, highest first, one pool at a time. */
  method SortEachPool(pools: Pools) returns (ranked: Pools)
    ensures ranked == SortPools(pools)
  {
    ranked := pools;
    var j := 0;
    while j < |ranked|
      invariant 0 <= j <= |ranked| == |pools|
      invariant forall m :: 0 <= m < j ==> ranked[m] == (pools[m].0, StableSort.Sort(pools[m].1, ScoreKey))
      invariant forall m :: j <= m < |ranked| ==> ranked[m] == pools[m]
    {
      ranked := ranked[j := (ranked[j].0, StableSort.Sort(ranked[j].1, ScoreKey))];
      j := j + 1;
    }
  }

  /** Scans a pool for its first candidate whose player is not taken. */
  method FirstFree(pool: seq<PlayerChoice>, taken: set<string>) returns (j: nat)
    ensures j == FirstFreeIndex(pool, taken)
  {
    j := 0;
    while j < |pool| && pool[j].playerId in taken
      invariant 0 <= j <= |pool|
      invariant forall m :: 0 <= m < j ==> pool[m].playerId in taken
    {
      j := j + 1;
    }
  }

  lemma StartersSnoc(chosen: seq<Option<PlayerChoice>>, x: Option<PlayerChoice>)
    ensures Starters(chosen + [x]) == Starters(chosen) + [if x.Some? then x.value.playerId else ""]
  {
  }

  lemma TakenIdsSnoc(chosen: seq<Option<PlayerChoice>>, x: Option<PlayerChoice>)
    ensures TakenIds(chosen + [x]) == TakenIds(chosen) + (if x.Some? then {x.value.playerId} else {})
  {
    assert (chosen + [x])[..|chosen|] == chosen;
  }

  /** Fills the slots in order with the first untaken candidate of each slot's
      pool, growing the set of taken players. */
  method AllocateStarters(slots: seq<string>, pools: Pools) returns (starters: seq<string>, taken: set<string>)
    ensures starters == Starters(Allocation(slots, pools))
    ensures taken == TakenIds(Allocation(slots, pools))
  {
    starters, taken := [], {};
    ghost var chosen: seq<Option<PlayerChoice>> := [];
    var idx := 0;
    while idx < |slots|
      invariant 0 <= idx <= |slots|
      invariant chosen == Allocation(slots[..idx], pools)
      invariant starters == Starters(chosen)
      invariant taken == TakenIds(chosen)
    {
      var pool := PoolFor(pools, slots[idx]);
      var j := FirstFree(pool, taken);
      ghost var choice := Pick(pool, taken);
      if j < |pool| {
        starters := starters + [pool[j].playerId];
        taken := taken + {pool[j].playerId};
      } else {
        starters := starters + [""];
      }
      AllocationStep(slots, pools, idx);
      StartersSnoc(chosen, choice);
      TakenIdsSnoc(chosen, choice);
      chosen := chosen + [choice];
      idx := idx + 1;
    }
    assert slots[..idx] == slots;
  }

  /** Collects every untaken choice once, pool by pool, then ranks them. */
  method CollectBench(pools: Pools, taken: set<string>) returns (bench: seq<PlayerChoice>)
    ensures bench == BenchOf(pools, taken)
  {
    bench := [];
    var i := 0;
    while i < |pools|
      invariant 0 <= i <= |pools|
      invariant bench == Unique(Flatten(pools[..i]), taken)
    {
      var plist := pools[i].1;
      var j := 0;
      assert Flatten(pools[..i]) + plist[..0] == Flatten(pools[..i]);
      while j < |plist|
        invariant 0 <= j <= |plist|
        invariant bench == Unique(Flatten(pools[..i]) + plist[..j], taken)
      {
        var pc := plist[j];
        if pc.playerId !in taken && pc !in bench {
          bench := bench + [pc];
        }
        var s := Flatten(pools[..i]) + plist[..j + 1];
        assert s[..|s| - 1] == Flatten(pools[..i]) + plist[..j];
        j := j + 1;
      }
      FlattenSnoc(pools, i);
      assert plist[..j] == plist;
      i := i + 1;
    }
    assert pools[..i] == pools;
    bench := StableSort.Sort(bench, ScoreKey);
  }

  /** The optimizer: builds the projection lookup, the ranked pools, the
      starters and the bench. */
  method OptimizeLineup(ids: seq<string>, slots: seq<string>, index: map<string, Player>,
                        projections: Option<seq<ProjectionRow>>)
    returns (starters: seq<string>, bench: seq<PlayerChoice>)
    ensures (starters, bench) == Lineup(ids, slots, index, projections)
    ensures |starters| == |slots|
    ensures forall i, j :: 0 <= i < j < |starters| && starters[i] != "" ==> starters[i] != starters[j]
    ensures forall c, i :: c in bench && 0 <= i < |starters| && starters[i] != "" ==> c.playerId != starters[i]
    ensures forall i, j :: 0 <= i < j < |bench| ==> bench[i].score >= bench[j].score
  {
    var lookup := BuildProjectionLookup(projections);
    var pools := CollectCandidates(ids, index, lookup);
    pools := SortEachPool(pools);
    var taken;
    starters, taken := AllocateStarters(slots, pools);
    bench := CollectBench(pools, taken);
    StartersDistinct(slots, pools);
    LineupPartition(ids, slots, index, projections);
  }

  // ---------------------------------------------------------------------------
  // Worked examples

  /** Two quarterbacks without projections and one QB slot: the healthy one
      starts and the one ruled out sits on the bench with the injury penalty. */
  lemma HealthyQuarterbackStarts()
    ensures var index := map[
        "1" := Player(["QB"], Some("QB"), Some("Out"), None, None, None),
        "2" := Player(["QB"], Some("QB"), None, None, None, None)];
      Lineup(["1", "2"], ["QB"], index, None)
        == (["2"], [PlayerChoice("1", "QB", -100.0, Injury)])
  {
    var index := map[
        "1" := Player(["QB"], Some("QB"), Some("Out"), None, None, None),
        "2" := Player(["QB"], Some("QB"), None, None, None, None)];
    var c1 := PlayerChoice("1", "QB", -100.0, Injury);
    var c2 := PlayerChoice("2", "QB", 0.0, Heuristic);
    var ids := ["1", "2"];
    assert ids[..1] == ["1"];
    assert ChoiceFor(index, map[], "1") == Some(c1);
    assert ChoiceFor(index, map[], "2") == Some(c2);
    assert CandidatePools(["1"], index, map[]) == [("QB", [c1])];
    assert [c1] + [c2] == [c1, c2];
    assert AppendTo([("QB", [c1])], "QB", c2) == [("QB", [c1, c2])];
    var raw := CandidatePools(ids, index, map[]);
    assert raw == [("QB", [c1, c2])];
    var sorted := StableSort.Sort([c1, c2], ScoreKey);
    assert [c1, c2][1..] == [c2];
    assert StableSort.Sort([c2], ScoreKey) == [c2];
    assert sorted == [c2, c1];
    var pools := RankedPools(ids, index, map[]);
    assert pools == [("QB", [c2, c1])];
    var a := Allocation(["QB"], pools);
    assert a == [Some(c2)];
    assert TakenIds(a) == {"2"};
    assert Flatten(pools) == [c2, c1];
    assert [c2, c1][..1] == [c2];
    assert Unique([c2], {"2"}) == [];
    assert Unique([c2, c1], {"2"}) == [] + [c1];
    assert BenchOf(pools, {"2"}) == [c1];
    assert Starters(a) == ["2"];
    assert ProjectionLookup(None) == map[];
  }

  /** A FLEX slot listed before the RB slot takes the best running back, and
      the RB slot then takes the next one. */
  lemma FlexSlotFilledInOrder()
    ensures var index := map[
        "a" := Player(["RB"], None, None, None, Some(2), None),
        "b" := Player(["RB"], None, None, None, Some(1), None)];
      Lineup(["a", "b"], ["FLEX", "RB"], index, None).0 == ["b", "a"]
  {
    var index := map[
        "a" := Player(["RB"], None, None, None, Some(2), None),
        "b" := Player(["RB"], None, None, None, Some(1), None)];
    var ca := PlayerChoice("a", "RB", 8.0, Heuristic);
    var cb := PlayerChoice("b", "RB", 9.0, Heuristic);
    var ids := ["a", "b"];
    assert ids[..1] == ["a"];
    assert ChoiceFor(index, map[], "a") == Some(ca);
    assert ChoiceFor(index, map[], "b") == Some(cb);
    assert CandidatePools(["a"], index, map[]) == [("RB", [ca]), (Flex, [ca])];
    var p1: Pools := [("RB", [ca]), (Flex, [ca])];
    var p2: Pools := [("RB", [ca, cb]), (Flex, [ca])];
    assert p1[1..] == [(Flex, [ca])];
    assert [ca] + [cb] == [ca, cb];
    assert AppendTo(p1, "RB", cb) == p2;
    assert p2[1..] == [(Flex, [ca])];
    assert AppendTo([(Flex, [ca])], Flex, cb) == [(Flex, [ca, cb])];
    assert AppendTo(p2, Flex, cb) == [("RB", [ca, cb]), (Flex, [ca, cb])];
    var raw := CandidatePools(ids, index, map[]);
    assert raw == [("RB", [ca, cb]), (Flex, [ca, cb])];
    assert [ca, cb][1..] == [cb];
    assert StableSort.Sort([cb], ScoreKey) == [cb];
    assert StableSort.Sort([ca, cb], ScoreKey) == [cb, ca];
    var pools := RankedPools(ids, index, map[]);
    assert pools == [("RB", [cb, ca]), (Flex, [cb, ca])];
    var slots := ["FLEX", "RB"];
    assert slots[..1] == ["FLEX"];
    assert Allocation(["FLEX"], pools) == [Some(cb)];
    assert TakenIds([Some(cb)]) == {"b"};
    var a := Allocation(slots, pools);
    assert a == [Some(cb), Some(ca)];
    assert Starters(a) == ["b", "a"];
  }
}
