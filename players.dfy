/** Player records as the league-data provider hands them to the engine, and the
    single rule every component uses to resolve a player's primary position. */
module Players {

  datatype Option<+T> = None | Some(value: T)

  /** One entry of the player metadata index. Every field may be missing in the
      provider's data; a missing or empty list of eligible positions is `[]`. */
  datatype Player = Player(
    fantasyPositions: seq<string>,
    position: Option<string>,
    injuryStatus: Option<string>,
    status: Option<string>,
    depthChartOrder: Option<int>,
    depthChartPosition: Option<int>)

  /** The roster slot any running back, wide receiver or tight end may fill. */
  const Flex: string := "FLEX"

  /** The empty record used for an identifier the index does not know. */
  const NoData := Player([], None, None, None, None, None)

  /** The record for `pid`, or the empty record when the index has none. */
  function PlayerOf(index: map<string, Player>, pid: string): Player
  {
    if pid in index then index[pid] else NoData
  }

  /** An optional string counts as set only when present and non-empty. */
  predicate Truthy(s: Option<string>)
  {
    s.Some? && s.value != ""
  }

  /** The text of a row's player identifier; a missing identifier reads "None". */
  function IdText(id: Option<string>): string
  {
    if id.Some? then id.value else "None"
  }

  /** The primary position: the first eligible position, else the non-empty
      position field, else none (the player is skipped). */
  function PrimaryPosition(p: Player): (r: Option<string>)
    ensures r.None? <==> p.fantasyPositions == [] && !Truthy(p.position)
    ensures p.fantasyPositions != [] ==> r == Some(p.fantasyPositions[0])
    ensures p.fantasyPositions == [] && r.Some? ==> r == p.position && r.value != ""
  {
    if p.fantasyPositions != [] then Some(p.fantasyPositions[0])
    else if Truthy(p.position) then p.position
    else None
  }

  /** The primary position of the player `pid` names in `index`. */
  function PrimaryOf(index: map<string, Player>, pid: string): Option<string>
  {
    PrimaryPosition(PlayerOf(index, pid))
  }

  /** How many of `ids` have primary position `pos` (ids may repeat). */
  function CountAtPosition(ids: seq<string>, index: map<string, Player>, pos: string): (n: nat)
    ensures n <= |ids|
    ensures n == 0 <==> forall i :: 0 <= i < |ids| ==> PrimaryOf(index, ids[i]) != Some(pos)
  {
    if ids == [] then 0
    else
      var prev := ids[..|ids| - 1];
      assert forall i :: 0 <= i < |prev| ==> prev[i] == ids[i];
      CountAtPosition(prev, index, pos)
        + (if PrimaryOf(index, ids[|ids| - 1]) == Some(pos) then 1 else 0)
  }

  /** How many of `ids` resolve to some primary position at all. */
  function ResolvedCount(ids: seq<string>, index: map<string, Player>): (n: nat)
    ensures n <= |ids|
  {
    if ids == [] then 0
    else
      ResolvedCount(ids[..|ids| - 1], index)
        + (if PrimaryOf(index, ids[|ids| - 1]).Some? then 1 else 0)
  }

  /** A count kept in a dictionary, 0 when the key is absent. */
  function CountIn(counts: map<string, int>, k: string): int
  {
    if k in counts then counts[k] else 0
  }

  /** Roster players per primary position, counted one player at a time. */
  function PositionCounts(ids: seq<string>, index: map<string, Player>): map<string, int>
  {
    if ids == [] then map[]
    else
      var prev := PositionCounts(ids[..|ids| - 1], index);
      match PrimaryOf(index, ids[|ids| - 1])
      case None => prev
      case Some(p) => prev[p := CountIn(prev, p) + 1]
  }

  /** The position counts are exactly the per-position counts: a position is a
      key when at least one roster player has it as primary position, and its
      value is the number of such players (repeats counted). */
  lemma {:induction false} PositionCountsValues(ids: seq<string>, index: map<string, Player>, p: string)
    ensures p in PositionCounts(ids, index) <==> CountAtPosition(ids, index, p) > 0
    ensures CountIn(PositionCounts(ids, index), p) == CountAtPosition(ids, index, p)
  {
    if ids != [] {
      PositionCountsValues(ids[..|ids| - 1], index, p);
    }
  }

  /** The sum of a dictionary's values. */
  ghost function SumValues(m: map<string, int>): int
    decreases |m.Keys|
  {
    if m == map[] then 0
    else
      var k :| k in m;
      assert |(m - {k}).Keys| < |m.Keys| by {
        assert (m - {k}).Keys == m.Keys - {k};
      }
      m[k] + SumValues(m - {k})
  }

  /** The sum does not depend on which key is taken out first. */
  lemma {:induction false} SumValuesRemove(m: map<string, int>, k: string)
    requires k in m
    ensures SumValues(m) == m[k] + SumValues(m - {k})
    decreases |m.Keys|
  {
    var j :| j in m && SumValues(m) == m[j] + SumValues(m - {j});
    if j != k {
      assert (m - {j}).Keys == m.Keys - {j};
      assert (m - {k}).Keys == m.Keys - {k};
      SumValuesRemove(m - {j}, k);
      SumValuesRemove(m - {k}, j);
      assert m - {j} - {k} == m - {k} - {j};
    }
  }

  /** Setting one value changes the sum by the difference. */
  lemma SumValuesUpdate(m: map<string, int>, k: string, v: int)
    ensures SumValues(m[k := v]) == SumValues(m) - CountIn(m, k) + v
  {
    SumValuesRemove(m[k := v], k);
    if k in m {
      SumValuesRemove(m, k);
      assert m[k := v] - {k} == m - {k};
    } else {
      assert m[k := v] - {k} == m;
    }
  }

  /** The position counts add up to the number of players with a primary
      position, so never to more than the roster size. */
  lemma {:induction false} PositionCountsTotal(ids: seq<string>, index: map<string, Player>)
    ensures SumValues(PositionCounts(ids, index)) == ResolvedCount(ids, index) <= |ids|
  {
    if ids == [] {
      assert PositionCounts(ids, index) == map[];
    } else {
      var prev := ids[..|ids| - 1];
      PositionCountsTotal(prev, index);
      var primary := PrimaryOf(index, ids[|ids| - 1]);
      if primary.Some? {
        var m := PositionCounts(prev, index);
        SumValuesUpdate(m, primary.value, CountIn(m, primary.value) + 1);
      }
    }
  }
}
