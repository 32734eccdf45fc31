/** The candidate plan: duplicate suppression while it is built, then in-place selection group by group. */
module CandidatePlan {
  import opened Sets
  import opened Candidate
  import opened SelectionOrder
  import opened SelectionSort
  import Selection

  /** What the formatted group key identifies: one movie, or one season of an Entry. */
  datatype GroupKey = Movie(entryKey: string) | Season(entryKey: string, season: int, special: bool)

  function KeyOf(f: Facts): GroupKey {
    if f.mediaType == MEDIA_MOVIE then Movie(f.entryKey)
    else Season(f.entryKey, f.episode.season, f.episode.special)
  }

  function FactsOf(c: seq<Candidate>): (f: seq<Facts>)
    ensures |f| == |c| && forall i :: 0 <= i < |c| ==> f[i] == c[i].facts
  {
    seq(|c|, i requires 0 <= i < |c| => c[i].facts)
  }

  predicate InGroup(c: seq<Candidate>, key: GroupKey, i: nat) {
    i < |c| && c[i].decision == Selected && KeyOf(c[i].facts) == key
  }

  ghost function Group(c: seq<Candidate>, key: GroupKey): set<nat> {
    set i: nat | i < |c| && InGroup(c, key, i)
  }

  ghost predicate Increasing(s: seq<nat>) {
    forall a, b :: 0 <= a < b < |s| ==> s[a] < s[b]
  }

  /** `s` lists the group of `key` among the first n candidates, in plan order. */
  ghost predicate Lists(c: seq<Candidate>, key: GroupKey, n: nat, s: seq<nat>) {
    Increasing(s) && forall i: nat :: i in s <==> i < n && InGroup(c, key, i)
  }

  /** Selected candidates are ready and carry their Entry's key. */
  ghost predicate Selectable(c: seq<Candidate>) {
    forall i :: 0 <= i < |c| && c[i].decision == Selected ==>
      Ready(c[i].facts) && c[i].facts.entryKey == c[i].facts.episode.entryKey
  }

  const MOVIE_REASON := "best release for movie"
  const SEASON_REASON := "best non-overlapping release set for season"
  const SUPERSEDED_BY := "superseded by "
  const OVERLAP_SUPERSEDED_BY := "overlapping episode range superseded by "

  function Supersede(c: Candidate, reason: string): Candidate {
    c.(decision := Superseded, reason := reason)
  }

  ghost predicate Frame(before: seq<Candidate>, after: seq<Candidate>, g: set<nat>) {
    |after| == |before| && forall i: nat :: i < |before| && i !in g ==> after[i] == before[i]
  }

  ghost predicate MovieSettled(r: Ranking, before: seq<Candidate>, after: seq<Candidate>, g: set<nat>, w: nat)
    requires |after| == |before| && InRange(FactsOf(before), g)
  {
    && w in g
    && (forall i :: i in g && i != w ==> Before(r, FactsOf(before), w, i))
    && after[w] == before[w].(reason := MOVIE_REASON)
    && forall i :: i in g && i != w ==> after[i] == Supersede(before[i], SUPERSEDED_BY + before[w].facts.acquisitionID)
  }

  /** w is the best-ranked chosen release that overlaps i. */
  ghost predicate BestConflict(r: Ranking, f: seq<Facts>, s: set<nat>, i: nat, w: nat)
    requires InRange(f, s) && i < |f|
  {
    && w in s && f[i].episode.Overlaps(f[w].episode)
    && forall v :: v in s && f[i].episode.Overlaps(f[v].episode) ==> !Better(r, f[v], f[w])
  }

  ghost predicate SupersededOne(r: Ranking, before: seq<Candidate>, after: seq<Candidate>, s: set<nat>, i: nat)
    requires |after| == |before| && InRange(FactsOf(before), s) && i < |before|
  {
    exists w: nat :: BestConflict(r, FactsOf(before), s, i, w)
                && after[i] == Supersede(before[i], OVERLAP_SUPERSEDED_BY + before[w].facts.acquisitionID)
  }

  ghost predicate SeasonSettled(r: Ranking, before: seq<Candidate>, after: seq<Candidate>, g: set<nat>, s: set<nat>)
    requires |after| == |before| && InRange(FactsOf(before), g)
  {
    && Optimum(r, FactsOf(before), g, s)
    && (forall i :: i in s ==> after[i] == before[i].(reason := SEASON_REASON))
    && (forall i :: i in g && i !in s ==> SupersededOne(r, before, after, s, i))
  }

  /** The outcome selection promises for one group. */
  ghost predicate GroupSettled(r: Ranking, before: seq<Candidate>, after: seq<Candidate>, key: GroupKey)
    requires |after| == |before|
  {
    var g := Group(before, key);
    if |g| < 2 then forall i :: i in g ==> after[i] == before[i]
    else if key.Movie? then exists w :: MovieSettled(r, before, after, g, w)
    else exists s :: SeasonSettled(r, before, after, g, s)
  }

  /** The outcome selection promises for the whole plan. */
  ghost predicate Settled(r: Ranking, before: seq<Candidate>, after: seq<Candidate>) {
    && |after| == |before|
    && (forall i :: 0 <= i < |before| && before[i].decision != Selected ==> after[i] == before[i])
    && forall key :: GroupSettled(r, before, after, key)
  }

  lemma ListsExtend(c: seq<Candidate>, key: GroupKey, n: nat, s: seq<nat>)
    requires Lists(c, key, n, s) && InGroup(c, key, n)
    ensures Lists(c, key, n + 1, s + [n])
  {
    forall a | 0 <= a < |s| ensures s[a] < n {
      assert s[a] in s;
    }
    forall i: nat ensures i in s + [n] <==> i < n + 1 && InGroup(c, key, i) {
      assert i in s + [n] <==> i in s || i == n;
    }
  }

  lemma ListsGroup(c: seq<Candidate>, key: GroupKey, s: seq<nat>)
    requires Lists(c, key, |c|, s)
    ensures SetOf(s) == Group(c, key) && NoRepeats(s) && Positions(FactsOf(c), s) && |Group(c, key)| == |s|
  {
    assert forall a :: 0 <= a < |s| ==> s[a] in s;
    SetSize(s);
  }

  lemma {:induction false} SetSize(s: seq<nat>)
    requires NoRepeats(s)
    ensures |SetOf(s)| == |s|
  {
    if s == [] {
      assert SetOf(s) == {};
    } else {
      var n := |s| - 1;
      SetSize(s[..n]);
      assert s == s[..n] + [s[n]];
      assert SetOf(s) == SetOf(s[..n]) + {s[n]};
      assert s[n] !in s[..n];
    }
  }

  class Plan {
    var candidates: seq<Candidate>

    constructor ()
      ensures candidates == []
    {
      candidates := [];
    }

    method SupersedeAll(list: seq<nat>, reason: string)
      requires NoRepeats(list) && forall a :: 0 <= a < |list| ==> list[a] < |candidates|
      modifies this
      ensures |candidates| == |old(candidates)|
      ensures forall i: nat :: i < |candidates| ==>
        candidates[i] == if i in list then Supersede(old(candidates)[i], reason) else old(candidates)[i]
    {
      ghost var before := candidates;
      for k := 0 to |list|
        invariant |candidates| == |before|
        invariant forall i: nat :: i < |before| ==>
          candidates[i] == if i in list[..k] then Supersede(before[i], reason) else before[i]
      {
        assert list[..k + 1] == list[..k] + [list[k]];
        assert list[k] !in list[..k];
        candidates := candidates[list[k] := Supersede(candidates[list[k]], reason)];
      }
      assert list[..|list|] == list;
    }

    method SettleMovie(r: Ranking, key: GroupKey, idx: seq<nat>)
      requires key.Movie? && Lists(candidates, key, |candidates|, idx) && |idx| >= 2
      modifies this
      ensures Frame(old(candidates), candidates, Group(old(candidates), key))
      ensures exists w :: MovieSettled(r, old(candidates), candidates, Group(old(candidates), key), w)
    {
      ghost var before := candidates;
      var f := FactsOf(candidates);
      ListsGroup(candidates, key, idx);
      var sorted := StableSort(Quality, r, f, idx);
      QualitySortIsRankSort(r, f, idx);
      RankedStrictly(r, f, idx);
      var winner := sorted[0];
      HeadIsBest(r, f, sorted);
      candidates := candidates[winner := candidates[winner].(reason := MOVIE_REASON)];
      SupersedeAll(sorted[1..], SUPERSEDED_BY + candidates[winner].facts.acquisitionID);
      assert MovieSettled(r, before, candidates, Group(before, key), winner);
    }

    /** The best-ranked chosen release overlapping candidate i; the chosen set is visited in arbitrary order. */
    static method Conflicting(r: Ranking, f: seq<Facts>, chosen: set<nat>, i: nat) returns (w: nat)
      requires InRange(f, chosen) && i < |f|
      requires exists v :: v in chosen && f[i].episode.Overlaps(f[v].episode)
      ensures BestConflict(r, f, chosen, i, w)
    {
      var conflicts: seq<nat> := [];
      var left := chosen;
      while left != {}
        invariant left <= chosen && Positions(f, conflicts)
        invariant forall v :: v in conflicts <==> v in chosen - left && f[i].episode.Overlaps(f[v].episode)
        decreases left
      {
        ghost var some := Member(left);
        var v :| v in left;
        left := left - {v};
        if f[i].episode.Overlaps(f[v].episode) {
          conflicts := conflicts + [v];
        }
      }
      SortInOrder(Quality, r, f, conflicts);
      SortKeepsElements(Quality, r, f, conflicts);
      var sorted := StableSort(Quality, r, f, conflicts);
      assert conflicts != [];
      w := sorted[0];
      assert w in SetOf(sorted);
      forall v | v in chosen && f[i].episode.Overlaps(f[v].episode) ensures !Better(r, f[v], f[w]) {
        assert v in SetOf(conflicts);
        var a :| 0 <= a < |sorted| && sorted[a] == v;
        BetterTrichotomy(r, f[w], f[w]);
        assert a > 0 ==> !Less(Quality, r, f, sorted[a], sorted[0]);
      }
    }

    method MarkChosen(best: seq<nat>) returns (chosen: set<nat>)
      requires NoRepeats(best) && forall a :: 0 <= a < |best| ==> best[a] < |candidates|
      modifies this
      ensures chosen == SetOf(best) && |candidates| == |old(candidates)|
      ensures forall i: nat :: i < |candidates| ==>
        candidates[i] == if i in chosen then old(candidates)[i].(reason := SEASON_REASON) else old(candidates)[i]
    {
      ghost var before := candidates;
      chosen := {};
      for k := 0 to |best|
        invariant chosen == SetOf(best[..k])
        invariant |candidates| == |before|
        invariant forall i: nat :: i < |before| ==>
          candidates[i] == if i in chosen then before[i].(reason := SEASON_REASON) else before[i]
      {
        assert best[..k + 1] == best[..k] + [best[k]];
        assert best[k] !in best[..k];
        chosen := chosen + {best[k]};
        candidates := candidates[best[k] := candidates[best[k]].(reason := SEASON_REASON)];
      }
      assert best[..|best|] == best;
    }

    /** Supersedes every group member that was not chosen, naming its best-ranked conflict. */
    method SupersedeRest(r: Ranking, f: seq<Facts>, idx: seq<nat>, chosen: set<nat>)
      requires f == FactsOf(candidates) && NoRepeats(idx) && Positions(f, idx) && InRange(f, chosen)
      requires forall i :: i in idx && i !in chosen ==> exists v :: v in chosen && f[i].episode.Overlaps(f[v].episode)
      modifies this
      ensures |candidates| == |old(candidates)|
      ensures forall i: nat :: i < |candidates| && (i !in idx || i in chosen) ==> candidates[i] == old(candidates)[i]
      ensures forall i: nat :: i in idx && i !in chosen ==>
        i < |f| && SupersededOne(r, old(candidates), candidates, chosen, i)
    {
      ghost var before := candidates;
      for k := 0 to |idx|
        invariant |candidates| == |before|
        invariant forall i: nat :: i < |before| && (i !in idx[..k] || i in chosen) ==> candidates[i] == before[i]
        invariant forall a :: 0 <= a < k && idx[a] !in chosen ==> SupersededOne(r, before, candidates, chosen, idx[a])
      {
        var i := idx[k];
        assert idx[..k + 1] == idx[..k] + [i];
        assert i !in idx[..k];
        if i !in chosen {
          assert i in idx;
          var w := Conflicting(r, f, chosen, i);
          candidates :=
            candidates[i := Supersede(candidates[i], OVERLAP_SUPERSEDED_BY + candidates[w].facts.acquisitionID)];
          assert SupersededOne(r, before, candidates, chosen, i);
        }
      }
      assert idx[..|idx|] == idx;
    }

    method SettleSeason(r: Ranking, key: GroupKey, idx: seq<nat>)
      requires key.Season? && Lists(candidates, key, |candidates|, idx) && Selectable(candidates)
      modifies this
      ensures Frame(old(candidates), candidates, Group(old(candidates), key))
      ensures exists s :: SeasonSettled(r, old(candidates), candidates, Group(old(candidates), key), s)
    {
      ghost var before := candidates;
      var f := FactsOf(candidates);
      ListsGroup(candidates, key, idx);
      var best := Selection.Schedule(r, f, idx);
      ghost var g, s := Group(before, key), SetOf(best);
      forall i | i in idx && i !in s ensures exists v :: v in s && f[i].episode.Overlaps(f[v].episode) {
        assert i in g;
        OmittedOverlaps(r, f, g, s, i);
      }
      var chosen := MarkChosen(best);
      ghost var marked := candidates;
      assert FactsOf(marked) == f;
      SupersedeRest(r, f, idx, chosen);
      SettledAfterMarking(r, before, marked, candidates, g, s);
    }

    method SettleGroup(r: Ranking, key: GroupKey, idx: seq<nat>)
      requires Lists(candidates, key, |candidates|, idx) && Selectable(candidates)
      modifies this
      ensures Frame(old(candidates), candidates, Group(old(candidates), key))
      ensures GroupSettled(r, old(candidates), candidates, key)
    {
      ListsGroup(candidates, key, idx);
      if |idx| < 2 {
        return;
      }
      if key.Movie? {
        SettleMovie(r, key, idx);
      } else {
        SettleSeason(r, key, idx);
      }
    }

    method CollectGroups() returns (groups: map<GroupKey, seq<nat>>)
      ensures forall key :: key in groups ==> Lists(candidates, key, |candidates|, groups[key])
      ensures forall key :: key !in groups ==> Group(candidates, key) == {}
    {
      groups := map[];
      for i := 0 to |candidates|
        invariant forall key :: key in groups ==> Lists(candidates, key, i, groups[key])
        invariant forall key, j: nat :: key !in groups && j < i ==> !InGroup(candidates, key, j)
      {
        var c := candidates[i];
        if c.decision == Selected {
          var key := KeyOf(c.facts);
          var list := if key in groups then groups[key] else [];
          assert Lists(candidates, key, i, list);
          ListsExtend(candidates, key, i, list);
          groups := groups[key := list + [i]];
        }
      }
    }

    /** Selection over the whole plan. Groups are visited in arbitrary order. */
    method SelectBestByScore(r: Ranking)
      requires Selectable(candidates)
      modifies this
      ensures Settled(r, old(candidates), candidates)
    {
      ghost var before := candidates;
      var groups := CollectGroups();
      var left := groups.Keys;
      while left != {}
        invariant left <= groups.Keys
        invariant |candidates| == |before| && FactsOf(candidates) == FactsOf(before)
        invariant forall i :: 0 <= i < |before| && before[i].decision != Selected ==> candidates[i] == before[i]
        invariant forall i :: 0 <= i < |before| && candidates[i].decision == Selected ==> before[i].decision == Selected
        invariant forall i :: 0 <= i < |before| && before[i].decision == Selected && KeyOf(before[i].facts) in left ==>
          candidates[i] == before[i]
        invariant forall key :: key !in left ==> GroupSettled(r, before, candidates, key)
        decreases left
      {
        var key :| key in left;
        left := left - {key};
        ghost var mid := candidates;
        SettleGroup(r, key, groups[key]);
        GroupDone(r, before, mid, candidates, key, left);
      }
    }
  }

  lemma GroupDone(r: Ranking, before: seq<Candidate>, mid: seq<Candidate>, after: seq<Candidate>, key: GroupKey,
                  left: set<GroupKey>)
    requires |mid| == |before| == |after| && FactsOf(mid) == FactsOf(before) && Group(mid, key) == Group(before, key)
    requires forall i :: i in Group(before, key) ==> mid[i] == before[i]
    requires Frame(mid, after, Group(mid, key)) && GroupSettled(r, mid, after, key)
    requires forall k :: k !in left && k != key ==> GroupSettled(r, before, mid, k)
    ensures FactsOf(after) == FactsOf(before)
    ensures forall i :: 0 <= i < |before| ==> after[i] == mid[i] || i in Group(before, key)
    ensures forall k :: k !in left ==> GroupSettled(r, before, after, k)
  {
    forall i | 0 <= i < |before| ensures after[i].facts == before[i].facts {
      assert FactsOf(mid)[i] == FactsOf(before)[i];
      if i in Group(mid, key) {
      }
    }
    forall k | k !in left ensures GroupSettled(r, before, after, k) {
      if k == key {
        SettlementIsLocal(r, mid, before, after, after, key);
      } else {
        SettlementIsLocal(r, before, before, mid, after, k);
      }
    }
  }

  /** Settlement of one group only looks at the group's own candidates and at the facts. */
  lemma SettlementIsLocal(r: Ranking, b1: seq<Candidate>, b2: seq<Candidate>, a1: seq<Candidate>, a2: seq<Candidate>,
                          key: GroupKey)
    requires |b1| == |b2| == |a1| == |a2| && FactsOf(b1) == FactsOf(b2) && Group(b1, key) == Group(b2, key)
    requires forall i :: i in Group(b1, key) ==> b1[i] == b2[i] && a1[i] == a2[i]
    requires GroupSettled(r, b1, a1, key)
    ensures GroupSettled(r, b2, a2, key)
  {
    var g, f := Group(b1, key), FactsOf(b1);
    if |g| < 2 {
    } else if key.Movie? {
      var w: nat :| MovieSettled(r, b1, a1, g, w);
      assert MovieSettled(r, b2, a2, g, w);
    } else {
      var s :| SeasonSettled(r, b1, a1, g, s);
      forall i | i in g && i !in s ensures SupersededOne(r, b2, a2, s, i) {
        var w: nat :| BestConflict(r, f, s, i, w)
                      && a1[i] == Supersede(b1[i], OVERLAP_SUPERSEDED_BY + b1[w].facts.acquisitionID);
        assert b1[w].facts == f[w] == b2[w].facts;
        assert BestConflict(r, FactsOf(b2), s, i, w);
      }
      assert SeasonSettled(r, b2, a2, g, s);
    }
  }

  lemma HeadIsBest(r: Ranking, f: seq<Facts>, sorted: seq<nat>)
    requires Positions(f, sorted) && sorted != []
    requires forall a, b :: 0 <= a < b < |sorted| ==> Before(r, f, sorted[a], sorted[b])
    ensures sorted[0] in SetOf(sorted) && sorted[0] !in sorted[1..]
    ensures forall i :: i in SetOf(sorted) && i != sorted[0] ==>
      i in sorted[1..] && i < |f| && Before(r, f, sorted[0], i)
  {
    BeforeTotal(r, f, sorted[0], sorted[0]);
    assert sorted == [sorted[0]] + sorted[1..];
  }

  lemma SettledAfterMarking(r: Ranking, before: seq<Candidate>, marked: seq<Candidate>, after: seq<Candidate>,
                            g: set<nat>, s: set<nat>)
    requires |after| == |marked| == |before| && FactsOf(marked) == FactsOf(before) && InRange(FactsOf(before), g)
    requires Optimum(r, FactsOf(before), g, s)
    requires forall i: nat :: i < |before| ==>
      marked[i] == if i in s then before[i].(reason := SEASON_REASON) else before[i]
    requires forall i: nat :: i < |before| && (i !in g || i in s) ==> after[i] == marked[i]
    requires forall i: nat :: i in g && i !in s ==> SupersededOne(r, marked, after, s, i)
    ensures SeasonSettled(r, before, after, g, s)
  {
  }
}
