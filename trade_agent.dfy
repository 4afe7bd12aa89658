/** The trade agent: for every position the user needs, the best-ranked
    players of each other team that has at least two players at it. */
module TradeAgent {
  import opened Players
  import StableSort

  /** The default number of players taken from each team. */
  const DefaultTopNPerPosition: int := 3

  /** One team of the league: its roster identifier and its player identifiers. */
  datatype TeamRoster = TeamRoster(rosterId: int, playerIds: seq<string>)

  /** A suggested trade target: a player and the roster that holds it. */
  datatype Target = Target(playerId: string, rosterId: int)

  // ---------------------------------------------------------------------------
  // Position counts of one team

  /** Counts a team's players per primary position, one player at a time. */
  method TeamPositionCounts(ids: seq<string>, index: map<string, Player>) returns (counts: map<string, int>)
    ensures counts == PositionCounts(ids, index)
    ensures forall p :: CountIn(counts, p) == CountAtPosition(ids, index, p)
    ensures forall p :: p in counts <==> CountAtPosition(ids, index, p) > 0
  {
    counts := map[];
    var i := 0;
    while i < |ids|
      invariant 0 <= i <= |ids|
      invariant counts == PositionCounts(ids[..i], index)
    {
      var primary := PrimaryOf(index, ids[i]);
      if primary.Some? {
        counts := counts[primary.value := CountIn(counts, primary.value) + 1];
      }
      assert ids[..i + 1][..i] == ids[..i];
      i := i + 1;
    }
    assert ids[..i] == ids;
    forall p
      ensures CountIn(counts, p) == CountAtPosition(ids, index, p)
      ensures p in counts <==> CountAtPosition(ids, index, p) > 0
    {
      PositionCountsValues(ids, index, p);
    }
  }

  // ---------------------------------------------------------------------------
  // Ranking a team's roster

  /** The player is listed first at its depth-chart position. */
  predicate IsStarter(index: map<string, Player>, pid: string)
  {
    PlayerOf(index, pid).depthChartPosition == Some(1)
  }

  /** The depth-chart order used for ranking; a missing or zero order reads 99. */
  function RankOrder(index: map<string, Player>, pid: string): int
  {
    var order := PlayerOf(index, pid).depthChartOrder;
    if order.None? || order.value == 0 then 99 else order.value
  }

  /** The ranking key: starters first, then the lower depth-chart order. */
  function RankKey(index: map<string, Player>, pid: string): StableSort.Key
  {
    StableSort.Key(if IsStarter(index, pid) then 1 else 0, -(RankOrder(index, pid) as real))
  }

  /** A player ranks at least as high as another exactly when it is a starter
      and the other is not, or both agree on that and its order is not larger. */
  lemma RankKeyMeaning(index: map<string, Player>, a: string, b: string)
    ensures StableSort.AtLeast(RankKey(index, a), RankKey(index, b)) <==>
      (IsStarter(index, a) && !IsStarter(index, b))
      || (IsStarter(index, a) == IsStarter(index, b) && RankOrder(index, a) <= RankOrder(index, b))
  {
  }

  /** The ranking key of every player under `index`. */
  function RankKeys(index: map<string, Player>): string -> StableSort.Key
  {
    pid => RankKey(index, pid)
  }

  /** The team's roster, best-ranked first; players that tie keep roster order. */
  function Ranked(ids: seq<string>, index: map<string, Player>): seq<string>
  {
    StableSort.Sort(ids, RankKeys(index))
  }

  /** The ranking reorders the roster, puts higher keys first, and keeps tied
      players in roster order. */
  lemma RankedRoster(ids: seq<string>, index: map<string, Player>)
    ensures var r := Ranked(ids, index);
      && multiset(r) == multiset(ids)
      && (forall i, j :: 0 <= i < j < |r| ==> StableSort.AtLeast(RankKey(index, r[i]), RankKey(index, r[j])))
      && (forall k :: StableSort.WithKey(r, RankKeys(index), k) == StableSort.WithKey(ids, RankKeys(index), k))
  {
    var key := RankKeys(index);
    StableSort.SortSorted(ids, key);
    forall k {
      StableSort.SortStable(ids, key, k);
    }
  }

  /** Python's `s[:n]`: the first `n` elements, or all but the last `-n` when
      `n` is negative. */
  function PySlice(s: seq<string>, n: int): (r: seq<string>)
    ensures |r| <= |s| && r == s[..|r|]
    ensures n >= 0 ==> |r| == if n < |s| then n else |s|
    ensures n < 0 ==> |r| == if |s| + n > 0 then |s| + n else 0
  {
    if n >= 0 then (if n < |s| then s[..n] else s)
    else if |s| + n > 0 then s[..|s| + n] else []
  }

  /** The identifiers of the `n` best-ranked players of the team. */
  function TopIds(team: TeamRoster, index: map<string, Player>, n: int): seq<string>
  {
    PySlice(Ranked(team.playerIds, index), n)
  }

  /** The team's top players paired with its roster identifier. */
  function TeamPicks(team: TeamRoster, index: map<string, Player>, n: int): (picks: seq<Target>)
    ensures |picks| == |TopIds(team, index, n)|
    ensures forall i :: 0 <= i < |picks| ==> picks[i] == Target(TopIds(team, index, n)[i], team.rosterId)
  {
    var top := TopIds(team, index, n);
    seq(|top|, i requires 0 <= i < |top| => Target(top[i], team.rosterId))
  }

  /** Each pick is a player of that team and carries its roster identifier;
      with `n >= 0` there are min(n, roster size) picks. */
  lemma TeamPicksFromRoster(team: TeamRoster, index: map<string, Player>, n: int, x: Target)
    ensures x in TeamPicks(team, index, n) ==> x.rosterId == team.rosterId && x.playerId in team.playerIds
    ensures n >= 0 ==> |TeamPicks(team, index, n)| == if n < |team.playerIds| then n else |team.playerIds|
  {
    var r := Ranked(team.playerIds, index);
    RankedRoster(team.playerIds, index);
    var top := TopIds(team, index, n);
    if x in TeamPicks(team, index, n) {
      var i :| 0 <= i < |top| && TeamPicks(team, index, n)[i] == x;
      assert x.playerId == r[i];
      assert r[i] in multiset(r);
    }
  }

  /** A picked player ranks at least as high as any player of the team that
      was not picked. */
  lemma TopIdsOutrank(team: TeamRoster, index: map<string, Player>, n: int, x: string, y: string)
    requires x in TopIds(team, index, n) && y in team.playerIds && y !in TopIds(team, index, n)
    ensures StableSort.AtLeast(RankKey(index, x), RankKey(index, y))
  {
    var r := Ranked(team.playerIds, index);
    var top := TopIds(team, index, n);
    RankedRoster(team.playerIds, index);
    assert y in multiset(r);
    var j :| 0 <= j < |r| && r[j] == y;
    var i :| 0 <= i < |top| && top[i] == x;
    assert r[i] == x;
    assert forall m :: 0 <= m < |top| ==> r[m] == top[m] != y;
  }

  // ---------------------------------------------------------------------------
  // Suggestions

  /** The targets listed for `pos`, none when `pos` is not a key. */
  function Listed(suggestions: map<string, seq<Target>>, pos: string): seq<Target>
  {
    if pos in suggestions then suggestions[pos] else []
  }

  /** The user needs `pos` and the team has at least two players at it. */
  predicate Wants(needs: map<string, int>, counts: map<string, int>, pos: string)
  {
    pos in needs && needs[pos] > 0 && CountIn(counts, pos) > 1
  }

  /** The suggestions after extending them with `picks` for every position of
      `done` the team qualifies for; no position is added for empty picks. */
  function PartialStep(acc: map<string, seq<Target>>, needs: map<string, int>, counts: map<string, int>,
                       picks: seq<Target>, done: set<string>): map<string, seq<Target>>
  {
    var added := if picks == [] then {} else set p | p in done && Wants(needs, counts, p);
    map pos | pos in acc.Keys + added :: Listed(acc, pos) + (if pos in added then picks else [])
  }

  lemma PartialStepListed(acc: map<string, seq<Target>>, needs: map<string, int>, counts: map<string, int>,
                          picks: seq<Target>, done: set<string>, pos: string)
    ensures var added := picks != [] && pos in done && Wants(needs, counts, pos);
      && (pos in PartialStep(acc, needs, counts, picks, done) <==> pos in acc || added)
      && Listed(PartialStep(acc, needs, counts, picks, done), pos)
         == Listed(acc, pos) + (if added then picks else [])
  {
  }

  /** Handling no position changes nothing. */
  lemma PartialStepNone(acc: map<string, seq<Target>>, needs: map<string, int>, counts: map<string, int>,
                        picks: seq<Target>)
    ensures PartialStep(acc, needs, counts, picks, {}) == acc
  {
    var r := PartialStep(acc, needs, counts, picks, {});
    forall q | q in r
      ensures r[q] == acc[q]
    {
      PartialStepListed(acc, needs, counts, picks, {}, q);
    }
    assert r.Keys == acc.Keys;
  }

  /** Handling one more position of the team extends at most that position. */
  lemma PartialStepAdd(acc: map<string, seq<Target>>, needs: map<string, int>, counts: map<string, int>,
                       picks: seq<Target>, done: set<string>, pos: string)
    requires pos !in done
    ensures var before := PartialStep(acc, needs, counts, picks, done);
      PartialStep(acc, needs, counts, picks, done + {pos})
      == if picks != [] && Wants(needs, counts, pos) then before[pos := Listed(before, pos) + picks] else before
  {
    var before := PartialStep(acc, needs, counts, picks, done);
    var after := PartialStep(acc, needs, counts, picks, done + {pos});
    var expected := if picks != [] && Wants(needs, counts, pos) then before[pos := Listed(before, pos) + picks]
                    else before;
    forall q
      ensures q in after <==> q in expected
      ensures q in after ==> after[q] == expected[q]
    {
      PartialStepListed(acc, needs, counts, picks, done, q);
      PartialStepListed(acc, needs, counts, picks, done + {pos}, q);
    }
    assert after.Keys == expected.Keys;
  }

  /** A team's position counts and its picks, as functions of the team. */
  type CountsOf = TeamRoster -> map<string, int>
  type PicksOf = TeamRoster -> seq<Target>

  /** The suggestions after processing `teams` in order, skipping the user's
      own team: each other team extends every needed position at which it has
      at least two players with its picks. */
  function Suggestions(needs: map<string, int>, teams: seq<TeamRoster>, myId: int,
                       countsOf: CountsOf, picksOf: PicksOf): map<string, seq<Target>>
  {
    if teams == [] then map[]
    else
      var prev := Suggestions(needs, teams[..|teams| - 1], myId, countsOf, picksOf);
      var team := teams[|teams| - 1];
      if team.rosterId == myId then prev
      else PartialStep(prev, needs, countsOf(team), picksOf(team), needs.Keys)
  }

  /** The position counts of a team under `index`. */
  function TeamCounts(index: map<string, Player>): CountsOf
  {
    (team: TeamRoster) => PositionCounts(team.playerIds, index)
  }

  /** The picks of a team under `index`, `n` players per team. */
  function TeamPicksOf(index: map<string, Player>, n: int): PicksOf
  {
    (team: TeamRoster) => TeamPicks(team, index, n)
  }

  /** The trade suggestions for the league's teams. */
  function TradeTargets(needs: map<string, int>, teams: seq<TeamRoster>, myId: int,
                        index: map<string, Player>, n: int): map<string, seq<Target>>
  {
    Suggestions(needs, teams, myId, TeamCounts(index), TeamPicksOf(index, n))
  }

  /** What team `team` adds to position `pos`: its picks when it is another
      team with at least two players at a position the user needs. */
  function Contribution(needs: map<string, int>, team: TeamRoster, myId: int,
                        countsOf: CountsOf, picksOf: PicksOf, pos: string): seq<Target>
  {
    if team.rosterId != myId && Wants(needs, countsOf(team), pos) then picksOf(team) else []
  }

  /** Reference definition of one position's targets: the contributions of
      the teams, concatenated in team order. */
  function ListedFor(needs: map<string, int>, teams: seq<TeamRoster>, myId: int,
                     countsOf: CountsOf, picksOf: PicksOf, pos: string): seq<Target>
  {
    if teams == [] then []
    else ListedFor(needs, teams[..|teams| - 1], myId, countsOf, picksOf, pos)
         + Contribution(needs, teams[|teams| - 1], myId, countsOf, picksOf, pos)
  }

  /** Each position lists the teams' contributions in team order, and a
      position is a key exactly when it lists some target. */
  lemma {:induction false} SuggestionsPerPosition(needs: map<string, int>, teams: seq<TeamRoster>, myId: int,
                                                  countsOf: CountsOf, picksOf: PicksOf, pos: string)
    ensures var result := Suggestions(needs, teams, myId, countsOf, picksOf);
      && Listed(result, pos) == ListedFor(needs, teams, myId, countsOf, picksOf, pos)
      && (pos in result <==> Listed(result, pos) != [])
  {
    if teams != [] {
      var m := |teams| - 1;
      var prev := Suggestions(needs, teams[..m], myId, countsOf, picksOf);
      var team := teams[m];
      SuggestionsPerPosition(needs, teams[..m], myId, countsOf, picksOf, pos);
      if team.rosterId != myId {
        PartialStepListed(prev, needs, countsOf(team), picksOf(team), needs.Keys, pos);
      }
    }
  }

  /** A target is in the reference list exactly when some team contributes it. */
  lemma {:induction false} ListedForMembers(needs: map<string, int>, teams: seq<TeamRoster>, myId: int,
                                            countsOf: CountsOf, picksOf: PicksOf, pos: string, x: Target)
    ensures x in ListedFor(needs, teams, myId, countsOf, picksOf, pos) <==>
      exists k :: 0 <= k < |teams| && x in Contribution(needs, teams[k], myId, countsOf, picksOf, pos)
  {
    if teams != [] {
      var m := |teams| - 1;
      var prevTeams := teams[..m];
      ListedForMembers(needs, prevTeams, myId, countsOf, picksOf, pos, x);
      if exists k :: 0 <= k < |teams| && x in Contribution(needs, teams[k], myId, countsOf, picksOf, pos) {
        var k :| 0 <= k < |teams| && x in Contribution(needs, teams[k], myId, countsOf, picksOf, pos);
        if k < m {
          assert prevTeams[k] == teams[k];
        }
      }
      if exists k :: 0 <= k < m && x in Contribution(needs, prevTeams[k], myId, countsOf, picksOf, pos) {
        var k :| 0 <= k < m && x in Contribution(needs, prevTeams[k], myId, countsOf, picksOf, pos);
        assert prevTeams[k] == teams[k];
      }
    }
  }

  /** A target is listed for `pos` exactly when some other team that has at
      least two players at `pos`, a position the user needs, picked it. */
  lemma TradeTargetsListed(needs: map<string, int>, teams: seq<TeamRoster>, myId: int,
                           index: map<string, Player>, n: int, pos: string, x: Target)
    ensures x in Listed(TradeTargets(needs, teams, myId, index, n), pos) <==>
      exists k :: 0 <= k < |teams| && teams[k].rosterId != myId && pos in needs && needs[pos] > 0
                  && CountAtPosition(teams[k].playerIds, index, pos) >= 2
                  && x in TeamPicks(teams[k], index, n)
  {
    var countsOf, picksOf := TeamCounts(index), TeamPicksOf(index, n);
    SuggestionsPerPosition(needs, teams, myId, countsOf, picksOf, pos);
    ListedForMembers(needs, teams, myId, countsOf, picksOf, pos, x);
    forall k | 0 <= k < |teams|
      ensures x in Contribution(needs, teams[k], myId, countsOf, picksOf, pos) <==>
        teams[k].rosterId != myId && pos in needs && needs[pos] > 0
        && CountAtPosition(teams[k].playerIds, index, pos) >= 2
        && x in TeamPicks(teams[k], index, n)
    {
      PositionCountsValues(teams[k].playerIds, index, pos);
    }
  }

  /** Never suggests a player of the user's own roster: every listed target
      belongs to another team that holds it, has at least two players at the
      position, and the user needs that position. */
  lemma TradeTargetsSound(needs: map<string, int>, teams: seq<TeamRoster>, myId: int,
                          index: map<string, Player>, n: int, pos: string, x: Target)
    requires x in Listed(TradeTargets(needs, teams, myId, index, n), pos)
    ensures x.rosterId != myId
    ensures pos in needs && needs[pos] > 0
    ensures exists k :: 0 <= k < |teams| && teams[k].rosterId == x.rosterId && x.playerId in teams[k].playerIds
                        && CountAtPosition(teams[k].playerIds, index, pos) >= 2
  {
    TradeTargetsListed(needs, teams, myId, index, n, pos, x);
    var k :| 0 <= k < |teams| && teams[k].rosterId != myId && pos in needs && needs[pos] > 0
             && CountAtPosition(teams[k].playerIds, index, pos) >= 2
             && x in TeamPicks(teams[k], index, n);
    TeamPicksFromRoster(teams[k], index, n, x);
  }

  /** A position is a key exactly when it lists a target; keys never list nothing. */
  lemma TradeTargetsKeys(needs: map<string, int>, teams: seq<TeamRoster>, myId: int,
                         index: map<string, Player>, n: int, pos: string)
    ensures var result := TradeTargets(needs, teams, myId, index, n);
      pos in result <==> Listed(result, pos) != []
  {
    SuggestionsPerPosition(needs, teams, myId, TeamCounts(index), TeamPicksOf(index, n), pos);
  }

  lemma SuggestionsStep(needs: map<string, int>, teams: seq<TeamRoster>, myId: int,
                        countsOf: CountsOf, picksOf: PicksOf, t: int)
    requires 0 <= t < |teams|
    ensures var prev := Suggestions(needs, teams[..t], myId, countsOf, picksOf);
      Suggestions(needs, teams[..t + 1], myId, countsOf, picksOf)
      == if teams[t].rosterId == myId then prev
         else PartialStep(prev, needs, countsOf(teams[t]), picksOf(teams[t]), needs.Keys)
  {
    assert teams[..t + 1][..t] == teams[..t];
  }

  /** Extends the suggestions with one team's picks for every needed position
      at which the team has at least two players, one position at a time. */
  method ExtendForTeam(suggestions0: map<string, seq<Target>>, needs: map<string, int>,
                       counts: map<string, int>, picks: seq<Target>)
    returns (suggestions: map<string, seq<Target>>)
    ensures suggestions == PartialStep(suggestions0, needs, counts, picks, needs.Keys)
  {
    suggestions := suggestions0;
    var pending := needs.Keys;
    PartialStepNone(suggestions0, needs, counts, picks);
    assert needs.Keys - pending == {};
    while pending != {}
      invariant pending <= needs.Keys
      invariant suggestions == PartialStep(suggestions0, needs, counts, picks, needs.Keys - pending)
      decreases pending
    {
      var pos :| pos in pending;
      PartialStepAdd(suggestions0, needs, counts, picks, needs.Keys - pending, pos);
      assert needs.Keys - (pending - {pos}) == (needs.Keys - pending) + {pos};
      pending := pending - {pos};
      if needs[pos] <= 0 {
        continue;
      }
      var surplus := CountIn(counts, pos);
      if surplus <= 1 {
        continue;
      }
      if picks != [] {
        suggestions := suggestions[pos := Listed(suggestions, pos) + picks];
      }
    }
    assert needs.Keys - pending == needs.Keys;
  }

  /** Walks the other teams in order and, for each needed position the team
      has a surplus at, appends the team's top players to that position. */
  method SuggestTradeTargets(needs: map<string, int>, teams: seq<TeamRoster>, myId: int,
                             index: map<string, Player>, topN: int)
    returns (suggestions: map<string, seq<Target>>)
    ensures suggestions == TradeTargets(needs, teams, myId, index, topN)
  {
    ghost var countsOf, picksOf := TeamCounts(index), TeamPicksOf(index, topN);
    suggestions := map[];
    var t := 0;
    while t < |teams|
      invariant 0 <= t <= |teams|
      invariant suggestions == Suggestions(needs, teams[..t], myId, countsOf, picksOf)
    {
      var team := teams[t];
      SuggestionsStep(needs, teams, myId, countsOf, picksOf, t);
      t := t + 1;
      if team.rosterId == myId {
        continue;
      }
      var counts := TeamPositionCounts(team.playerIds, index);
      var picks := TeamPicks(team, index, topN);
      suggestions := ExtendForTeam(suggestions, needs, counts, picks);
    }
    assert teams[..t] == teams;
  }
}
