/** The waiver agent: how many players the roster still needs per starting
    position, and which trending free agents fill those needs. */
module WaiverAgent {
  import opened Players

  // ---------------------------------------------------------------------------
  // Roster needs

  /** Starting slots per position, counted slot by slot; FLEX slots are skipped. */
  function SlotCounts(slots: seq<string>): map<string, int>
  {
    if slots == [] then map[]
    else
      var prev := SlotCounts(slots[..|slots| - 1]);
      var pos := slots[|slots| - 1];
      if pos == Flex then prev else prev[pos := CountIn(prev, pos) + 1]
  }

  /** Every non-FLEX slot position is a key, and its value is how often the
      position occurs among the slots. */
  lemma {:induction false} SlotCountsValues(slots: seq<string>, p: string)
    ensures p in SlotCounts(slots) <==> p in slots && p != Flex
    ensures p in SlotCounts(slots) ==> SlotCounts(slots)[p] == multiset(slots)[p]
  {
    if slots != [] {
      var n := |slots| - 1;
      var prev := slots[..n];
      SlotCountsValues(prev, p);
      assert slots == prev + [slots[n]];
    }
  }

  /** Reference definition of the needs: for each non-FLEX slot position, the
      number of its slots minus the roster players whose primary position it
      is. A negative need is a surplus. */
  function RosterNeeds(slots: seq<string>, ids: seq<string>, index: map<string, Player>): (needs: map<string, int>)
    ensures Flex !in needs
  {
    map p | p in slots && p != Flex :: multiset(slots)[p] - CountAtPosition(ids, index, p)
  }

  /** A position needs players exactly when the roster has fewer players at it
      than it has slots, and it never needs more than its slot count. */
  lemma NeedsMeaning(slots: seq<string>, ids: seq<string>, index: map<string, Player>, p: string)
    requires p in RosterNeeds(slots, ids, index)
    ensures RosterNeeds(slots, ids, index)[p] > 0 <==> CountAtPosition(ids, index, p) < multiset(slots)[p]
    ensures RosterNeeds(slots, ids, index)[p] <= multiset(slots)[p]
    ensures RosterNeeds(slots, ids, index)[p] >= multiset(slots)[p] - |ids|
  {
  }

  /** The needs are the slot counts less the position counts. */
  lemma NeedsFromCounts(slots: seq<string>, ids: seq<string>, index: map<string, Player>)
    ensures RosterNeeds(slots, ids, index)
         == map p | p in SlotCounts(slots) :: SlotCounts(slots)[p] - CountIn(PositionCounts(ids, index), p)
  {
    var r := RosterNeeds(slots, ids, index);
    var m := map p | p in SlotCounts(slots) :: SlotCounts(slots)[p] - CountIn(PositionCounts(ids, index), p);
    forall p
      ensures p in r <==> p in m
      ensures p in r ==> r[p] == m[p]
    {
      SlotCountsValues(slots, p);
      PositionCountsValues(ids, index, p);
    }
    assert r.Keys == m.Keys;
  }

  /** Counts slots, counts roster players per primary position, then rewrites
      each slot count into a need. */
  method ComputeRosterNeeds(slots: seq<string>, ids: seq<string>, index: map<string, Player>)
    returns (needed: map<string, int>)
    ensures needed == RosterNeeds(slots, ids, index)
  {
    needed := map[];
    var i := 0;
    while i < |slots|
      invariant 0 <= i <= |slots|
      invariant needed == SlotCounts(slots[..i])
    {
      var pos := slots[i];
      if pos != Flex {
        needed := needed[pos := CountIn(needed, pos) + 1];
      }
      assert slots[..i + 1][..i] == slots[..i];
      i := i + 1;
    }
    assert slots[..i] == slots;

    var counts: map<string, int> := map[];
    i := 0;
    while i < |ids|
      invariant 0 <= i <= |ids|
      invariant counts == PositionCounts(ids[..i], index)
    {
      var primary := PrimaryOf(index, ids[i]);
      if primary.Some? {
        counts := counts[primary.value := CountIn(counts, primary.value) + 1];
      }
      assert ids[..i + 1][..i] == ids[..i];
      i := i + 1;
    }
    assert ids[..i] == ids;

    ghost var slotCounts := needed;
    var pending := needed.Keys;
    while pending != {}
      invariant pending <= needed.Keys == slotCounts.Keys
      invariant forall p :: p in pending ==> needed[p] == slotCounts[p]
      invariant forall p :: p in needed && p !in pending ==> needed[p] == slotCounts[p] - CountIn(counts, p)
      decreases pending
    {
      var pos :| pos in pending;
      needed := needed[pos := needed[pos] - CountIn(counts, pos)];
      pending := pending - {pos};
    }
    assert needed == map p | p in slotCounts :: slotCounts[p] - CountIn(counts, p);
    NeedsFromCounts(slots, ids, index);
  }

  // ---------------------------------------------------------------------------
  // Trending adds

  /** The default cap on suggestions per position. */
  const DefaultMaxPerPosition: int := 5

  /** A trending row: the player identifier (missing is `None`) and how many
      leagues added the player (missing counts as 0). */
  datatype TrendingRow = TrendingRow(playerId: Option<string>, count: Option<int>)

  /** One suggested add: player, primary position, trending count. */
  datatype Suggestion = Suggestion(playerId: string, position: string, count: int)

  /** The suggestion a row makes when the need of its player's position is
      positive, ignoring the per-position cap; `None` when the player has no
      non-empty primary position or its position is not needed. */
  function Candidate(row: TrendingRow, index: map<string, Player>, needs: map<string, int>): (r: Option<Suggestion>)
    ensures var primary := PrimaryOf(index, IdText(row.playerId));
      r.Some? <==> primary.Some? && primary.value != "" && CountIn(needs, primary.value) > 0
    ensures r.Some? ==> r.value.playerId == IdText(row.playerId)
                        && PrimaryOf(index, r.value.playerId) == Some(r.value.position)
                        && r.value.count == (if row.count.Some? then row.count.value else 0)
  {
    var pid := IdText(row.playerId);
    var count := if row.count.Some? then row.count.value else 0;
    match PrimaryOf(index, pid)
    case None => None
    case Some(primary) =>
      if primary == "" || CountIn(needs, primary) <= 0 then None
      else Some(Suggestion(pid, primary, count))
  }

  /** The suggestions for position `p`, in order. */
  function AtPosition(s: seq<Suggestion>, p: string): (r: seq<Suggestion>)
    ensures |r| <= |s|
  {
    if s == [] then []
    else AtPosition(s[..|s| - 1], p) + (if s[|s| - 1].position == p then [s[|s| - 1]] else [])
  }

  /** The suggestions for `p` are exactly the members of `s` at position `p`. */
  lemma {:induction false} AtPositionMembers(s: seq<Suggestion>, p: string, x: Suggestion)
    ensures x in AtPosition(s, p) <==> x in s && x.position == p
  {
    if s != [] {
      var n := |s| - 1;
      AtPositionMembers(s[..n], p, x);
      assert s == s[..n] + [s[n]];
    }
  }

  /** The first `n` elements of `s`, none when `n` is not positive. */
  function FirstAtMost(s: seq<Suggestion>, n: int): (r: seq<Suggestion>)
    ensures |r| <= |s| && (n >= 0 ==> |r| <= n)
  {
    if n <= 0 then [] else if n >= |s| then s else s[..n]
  }

  /** Reference definition: every row's uncapped suggestion, in row order. */
  function Candidates(rows: seq<TrendingRow>, index: map<string, Player>, needs: map<string, int>): seq<Suggestion>
  {
    if rows == [] then []
    else
      var prev := Candidates(rows[..|rows| - 1], index, needs);
      match Candidate(rows[|rows| - 1], index, needs)
      case None => prev
      case Some(x) => prev + [x]
  }

  /** The suggestions after processing `rows` in order: a row's candidate is
      kept while fewer than `cap` suggestions share its position. */
  function TrendingAdds(rows: seq<TrendingRow>, index: map<string, Player>, needs: map<string, int>, cap: int)
    : seq<Suggestion>
  {
    if rows == [] then []
    else
      var prev := TrendingAdds(rows[..|rows| - 1], index, needs, cap);
      match Candidate(rows[|rows| - 1], index, needs)
      case None => prev
      case Some(x) => if |AtPosition(prev, x.position)| >= cap then prev else prev + [x]
  }

  lemma AtPositionSnoc(s: seq<Suggestion>, x: Suggestion, p: string)
    ensures AtPosition(s + [x], p) == AtPosition(s, p) + (if x.position == p then [x] else [])
  {
    assert (s + [x])[..|s|] == s;
  }

  /** One row's step of the folds. */
  lemma TrendingStep(rows: seq<TrendingRow>, index: map<string, Player>, needs: map<string, int>, cap: int)
    requires rows != []
    ensures var prevRows, c := rows[..|rows| - 1], Candidate(rows[|rows| - 1], index, needs);
      var prev := TrendingAdds(prevRows, index, needs, cap);
      && Candidates(rows, index, needs)
         == Candidates(prevRows, index, needs) + (if c.Some? then [c.value] else [])
      && TrendingAdds(rows, index, needs, cap)
         == if c.None? || |AtPosition(prev, c.value.position)| >= cap then prev else prev + [c.value]
  {
  }

  /** Appending to a position's candidates extends its capped prefix exactly
      when the prefix has not reached the cap. */
  lemma FirstAtMostSnoc(ca: seq<Suggestion>, x: Suggestion, cap: int)
    ensures |FirstAtMost(ca, cap)| < cap ==> FirstAtMost(ca + [x], cap) == FirstAtMost(ca, cap) + [x]
    ensures |FirstAtMost(ca, cap)| >= cap ==> FirstAtMost(ca + [x], cap) == FirstAtMost(ca, cap)
  {
    if cap > 0 && cap <= |ca| {
      assert (ca + [x])[..cap] == ca[..cap];
    }
  }

  /** For every position, the suggestions are its first `cap` candidates in row
      order: at most `cap` per position, none left out below the cap, and
      none when the cap is not positive. */
  lemma {:induction false} TrendingAddsPerPosition(rows: seq<TrendingRow>, index: map<string, Player>,
                                                   needs: map<string, int>, cap: int, p: string)
    ensures AtPosition(TrendingAdds(rows, index, needs, cap), p)
         == FirstAtMost(AtPosition(Candidates(rows, index, needs), p), cap)
  {
    if rows != [] {
      var prevRows := rows[..|rows| - 1];
      var prev := TrendingAdds(prevRows, index, needs, cap);
      var cands := Candidates(prevRows, index, needs);
      var out := TrendingAdds(rows, index, needs, cap);
      var all := Candidates(rows, index, needs);
      TrendingAddsPerPosition(prevRows, index, needs, cap, p);
      TrendingStep(rows, index, needs, cap);
      var c := Candidate(rows[|rows| - 1], index, needs);
      if c.None? {
        assert out == prev && all == cands;
      } else {
        var x := c.value;
        assert all == cands + [x];
        AtPositionSnoc(cands, x, p);
        AtPositionSnoc(prev, x, p);
        if x.position != p {
          assert AtPosition(all, p) == AtPosition(cands, p);
          assert AtPosition(out, p) == AtPosition(prev, p);
        } else {
          var ca := AtPosition(cands, p);
          assert AtPosition(all, p) == ca + [x];
          FirstAtMostSnoc(ca, x, cap);
          if |AtPosition(prev, p)| >= cap {
            assert out == prev;
          } else {
            assert out == prev + [x];
          }
        }
      }
    }
  }

  /** Every suggestion is some row's candidate: its position is non-empty, the
      player's primary position, and a position with positive need. */
  lemma {:induction false} TrendingAddsFromCandidates(rows: seq<TrendingRow>, index: map<string, Player>,
                                                      needs: map<string, int>, cap: int, x: Suggestion)
    requires x in TrendingAdds(rows, index, needs, cap)
    ensures exists i :: 0 <= i < |rows| && Candidate(rows[i], index, needs) == Some(x)
    ensures x.position != "" && CountIn(needs, x.position) > 0
  {
    var n := |rows| - 1;
    var prevRows := rows[..n];
    if x in TrendingAdds(prevRows, index, needs, cap) {
      TrendingAddsFromCandidates(prevRows, index, needs, cap, x);
      var i :| 0 <= i < |prevRows| && Candidate(prevRows[i], index, needs) == Some(x);
      assert rows[i] == prevRows[i];
    } else {
      assert Candidate(rows[n], index, needs) == Some(x);
    }
  }

  /** The elements of `s` whose flag in `keep` is set, in their order in `s`. */
  function Select(s: seq<Suggestion>, keep: seq<bool>): seq<Suggestion>
    requires |keep| == |s|
  {
    if s == [] then []
    else Select(s[..|s| - 1], keep[..|s| - 1]) + (if keep[|s| - 1] then [s[|s| - 1]] else [])
  }

  lemma SelectSnoc(s: seq<Suggestion>, keep: seq<bool>, x: Suggestion, b: bool)
    requires |keep| == |s|
    ensures Select(s + [x], keep + [b]) == Select(s, keep) + (if b then [x] else [])
  {
    assert (s + [x])[..|s|] == s && (keep + [b])[..|s|] == keep;
  }

  /** The suggestions are a selection of the candidates that keeps their row
      order: a subsequence of what the rows propose. */
  lemma {:induction false} TrendingAddsSubsequence(rows: seq<TrendingRow>, index: map<string, Player>,
                                                   needs: map<string, int>, cap: int)
    ensures exists keep ::
      && |keep| == |Candidates(rows, index, needs)|
      && TrendingAdds(rows, index, needs, cap) == Select(Candidates(rows, index, needs), keep)
  {
    if rows == [] {
      assert TrendingAdds(rows, index, needs, cap) == Select([], []);
    } else {
      var prevRows := rows[..|rows| - 1];
      TrendingAddsSubsequence(prevRows, index, needs, cap);
      var cands := Candidates(prevRows, index, needs);
      var keep :| |keep| == |cands| && TrendingAdds(prevRows, index, needs, cap) == Select(cands, keep);
      TrendingStep(rows, index, needs, cap);
      var c := Candidate(rows[|rows| - 1], index, needs);
      if c.None? {
        assert TrendingAdds(rows, index, needs, cap) == Select(Candidates(rows, index, needs), keep);
      } else {
        var prev := TrendingAdds(prevRows, index, needs, cap);
        var kept := |AtPosition(prev, c.value.position)| < cap;
        SelectSnoc(cands, keep, c.value, kept);
        assert TrendingAdds(rows, index, needs, cap) == Select(cands + [c.value], keep + [kept]);
      }
    }
  }

  /** At most `cap` suggestions share a position. */
  lemma TrendingAddsCapped(rows: seq<TrendingRow>, index: map<string, Player>,
                           needs: map<string, int>, cap: int, p: string)
    requires cap >= 0
    ensures |AtPosition(TrendingAdds(rows, index, needs, cap), p)| <= cap
  {
    TrendingAddsPerPosition(rows, index, needs, cap, p);
  }

  /** Walks the trending rows in order, keeping a running count per position. */
  method SuggestTrendingAdds(trending: seq<TrendingRow>, index: map<string, Player>,
                             needs: map<string, int>, maxPerPosition: int)
    returns (suggestions: seq<Suggestion>)
    ensures suggestions == TrendingAdds(trending, index, needs, maxPerPosition)
  {
    suggestions := [];
    var perPosCount: map<string, int> := map[];
    var i := 0;
    while i < |trending|
      invariant 0 <= i <= |trending|
      invariant suggestions == TrendingAdds(trending[..i], index, needs, maxPerPosition)
      invariant forall p :: CountIn(perPosCount, p) == |AtPosition(suggestions, p)|
    {
      var row := trending[i];
      assert trending[..i + 1][..i] == trending[..i];
      i := i + 1;
      var pid := IdText(row.playerId);
      var count := if row.count.Some? then row.count.value else 0;
      var primary := PrimaryOf(index, pid);
      if primary.None? || primary.value == "" {
        continue;
      }
      var need := CountIn(needs, primary.value);
      if need <= 0 {
        continue;
      }
      if CountIn(perPosCount, primary.value) >= maxPerPosition {
        continue;
      }
      var x := Suggestion(pid, primary.value, count);
      forall p
        ensures CountIn(perPosCount[x.position := CountIn(perPosCount, x.position) + 1], p)
             == |AtPosition(suggestions + [x], p)|
      {
        AtPositionSnoc(suggestions, x, p);
      }
      suggestions := suggestions + [x];
      perPosCount := perPosCount[primary.value := CountIn(perPosCount, primary.value) + 1];
    }
    assert trending[..i] == trending;
  }
}
