/** What selection guarantees about whole plans. */
module PlanProperties {
  import Sets
  import Text
  import Episode
  import opened Candidate
  import opened SelectionOrder
  import opened CandidatePlan

  // ---- no two selected releases compete -----------------------------------------------

  lemma SelectedInGroup(r: Ranking, before: seq<Candidate>, after: seq<Candidate>, i: nat)
    requires Settled(r, before, after) && i < |before| && after[i].decision == Selected
    ensures before[i].decision == Selected && after[i].facts == before[i].facts
    ensures i in Group(before, KeyOf(before[i].facts))
  {
    if before[i].decision == Selected {
      assert GroupSettled(r, before, after, KeyOf(before[i].facts));
    }
  }

  lemma TwoInGroup(g: set<nat>, i: nat, j: nat)
    requires i in g && j in g && i != j
    ensures |g| >= 2
  {
    assert |g - {i}| > 0 by {
      assert j in g - {i};
    }
  }

  /**
   * No two candidates left selected anywhere in the plan overlap, and at most one release per movie stays
   * selected.
   */
  lemma SelectedAreDisjoint(r: Ranking, before: seq<Candidate>, after: seq<Candidate>, i: nat, j: nat)
    requires Settled(r, before, after) && Selectable(before)
    requires i < |after| && j < |after| && i != j && after[i].decision == after[j].decision == Selected
    ensures !after[i].facts.episode.Overlaps(after[j].facts.episode)
    ensures !(KeyOf(after[i].facts).Movie? && KeyOf(after[i].facts) == KeyOf(after[j].facts))
  {
    SelectedInGroup(r, before, after, i);
    SelectedInGroup(r, before, after, j);
    var key := KeyOf(before[i].facts);
    if KeyOf(before[j].facts) == key {
      var g := Group(before, key);
      TwoInGroup(g, i, j);
      assert GroupSettled(r, before, after, key);
    }
  }

  /** Whatever series release is superseded overlaps one that is selected, and names the best such one. */
  lemma SupersededNamesWinner(r: Ranking, before: seq<Candidate>, after: seq<Candidate>, i: nat) returns (w: nat)
    requires Settled(r, before, after) && Selectable(before)
    requires i < |before| && before[i].decision == Selected && after[i].decision != Selected &&
      KeyOf(before[i].facts).Season?
    ensures w < |after| && after[w].decision == Selected
    ensures before[i].facts.episode.Overlaps(before[w].facts.episode)
    ensures after[i] == Supersede(before[i],
      "overlapping episode range superseded by " + before[w].facts.acquisitionID)
  {
    var key := KeyOf(before[i].facts);
    var g := Group(before, key);
    assert i in g;
    assert GroupSettled(r, before, after, key);
    var s :| SeasonSettled(r, before, after, g, s);
    assert SupersededOne(r, before, after, s, i);
    w :| BestConflict(r, FactsOf(before), s, i, w)
         && after[i] == Supersede(before[i], OVERLAP_SUPERSEDED_BY + before[w].facts.acquisitionID);
    assert w in s && w in g;
  }

  // ---- which releases win ---------------------------------------------------------------

  /** Of the releases of one movie exactly one stays, and the others are superseded by it. */
  lemma MovieKeepsOne(r: Ranking, before: seq<Candidate>, after: seq<Candidate>, i: nat) returns (w: nat)
    requires Settled(r, before, after) && i < |before| && before[i].decision == Selected &&
      before[i].facts.mediaType == MEDIA_MOVIE
    ensures w < |after| && after[w].decision == Selected && after[w].facts == before[w].facts
    ensures before[w].facts.mediaType == MEDIA_MOVIE && before[w].facts.entryKey == before[i].facts.entryKey
    ensures i != w ==> after[i] == Supersede(before[i], "superseded by " + before[w].facts.acquisitionID)
  {
    var key := KeyOf(before[i].facts);
    var g := Group(before, key);
    assert GroupSettled(r, before, after, key) && i in g;
    if |g| < 2 {
      w := i;
    } else {
      w :| MovieSettled(r, before, after, g, w);
    }
  }

  /**
   * A movie release gives way to another of the movie that scores higher; at one score to a higher revision, then to a
   * source of lower priority number, then to a later publication, then to a lesser acquisition ID.
   */
  lemma MovieRanking(r: Ranking, before: seq<Candidate>, after: seq<Candidate>, i: nat, w: nat)
    requires Settled(r, before, after) && i < |before| && w < |before|
    requires before[i].decision == before[w].decision == Selected
    requires before[i].facts.mediaType == before[w].facts.mediaType == MEDIA_MOVIE
    requires before[i].facts.entryKey == before[w].facts.entryKey
    ensures var a, b, out := before[w].facts, before[i].facts, after[i].decision == Superseded;
            && (r.score(a) > r.score(b) ==> out)
            && (r.score(a) == r.score(b) ==>
                 && (a.episode.revision > b.episode.revision ==> out)
                 && (a.episode.revision == b.episode.revision ==>
                      && (r.priority(a.sourceID) < r.priority(b.sourceID) ==> out)
                      && (r.priority(a.sourceID) == r.priority(b.sourceID) ==>
                           && (a.release.publishedAt > b.release.publishedAt ==> out)
                           && (a.release.publishedAt == b.release.publishedAt ==>
                                (Text.Less(a.acquisitionID, b.acquisitionID) ==> out)))))
  {
    var key := KeyOf(before[i].facts);
    var g := Group(before, key);
    assert GroupSettled(r, before, after, key) && i in g && w in g;
    if i != w && after[i].decision == Selected {
      TwoInGroup(g, i, w);
      assert MovieSettled(r, before, after, g, i);
      assert Before(r, FactsOf(before), i, w);
    }
    Text.Trichotomy(before[i].facts.acquisitionID, before[w].facts.acquisitionID);
  }

  /** Putting a better release of the same range in the place of another beats the old set. */
  lemma ReplacementBeats(r: Ranking, f: seq<Facts>, s: set<nat>, i: nat, w: nat)
    requires InRange(f, s) && i in s && w !in s && w < |f| && Before(r, f, w, i)
    requires f[i].episode.Width() == f[w].episode.Width()
    ensures Beats(r, f, s - {i} + {w}, s)
  {
    hide Before;
    var t := s - {i} + {w};
    CoverageRemove(f, s, i);
    CoverageAdd(f, s - {i}, w);
    BeforeTotal(r, f, w, w);
    BeforeTotal(r, f, i, w);
    assert AgreeAbove(r, f, t, s, w);
    assert w in t && w !in s;
  }

  lemma ReplacementFits(f: seq<Facts>, s: set<nat>, i: nat, w: nat)
    requires InRange(f, s) && Compatible(f, s) && i in s && w < |f| && w != i
    requires Episode.SameSeason(f[i].episode, f[w].episode) && f[i].episode.episodeStart > 0
    requires f[i].episode.episodeStart == f[w].episode.episodeStart && f[i].episode.End() == f[w].episode.End()
    ensures w !in s && Compatible(f, s - {i} + {w})
  {
    assert f[i].episode.Overlaps(f[w].episode);
    forall v | v in s - {i} ensures !f[w].episode.Overlaps(f[v].episode) {
      assert !f[i].episode.Overlaps(f[v].episode);
    }
    CompatibleInsert(f, s - {i}, w);
  }

  /** An optimum keeps no release that a better one of its group could stand in for, range by range. */
  lemma InterchangeableYields(r: Ranking, f: seq<Facts>, g: set<nat>, s: set<nat>, i: nat, w: nat)
    requires SeasonGroup(f, g) && Optimum(r, f, g, s) && i in g && w in g && Better(r, f[w], f[i])
    requires f[i].episode.episodeStart == f[w].episode.episodeStart && f[i].episode.End() == f[w].episode.End()
    ensures i !in s
  {
    BetterTrichotomy(r, f[w], f[i]);
    hide Better;
    hide Compatible;
    hide Beats;
    if i in s {
      ReplacementFits(f, s, i, w);
      ReplacementBeats(r, f, s, i, w);
      BeatsAsymmetric(r, f, s, s - {i} + {w});
    }
  }

  lemma SeasonYields(r: Ranking, before: seq<Candidate>, after: seq<Candidate>, i: nat, w: nat)
    requires Settled(r, before, after) && Selectable(before) && i < |before| && w < |before|
    requires before[i].decision == before[w].decision == Selected && KeyOf(before[i].facts).Season?
    requires KeyOf(before[i].facts) == KeyOf(before[w].facts)
    requires before[i].facts.episode.episodeStart == before[w].facts.episode.episodeStart &&
      before[i].facts.episode.End() == before[w].facts.episode.End()
    ensures Better(r, before[w].facts, before[i].facts) ==> after[i].decision == Superseded
  {
    hide Better;
    hide Optimum;
    if Better(r, before[w].facts, before[i].facts) {
      var key := KeyOf(before[i].facts);
      var g, f := Group(before, key), FactsOf(before);
      assert GroupSettled(r, before, after, key) && i in g && w in g;
      BetterTrichotomy(r, before[w].facts, before[i].facts);
      TwoInGroup(g, i, w);
      var s :| SeasonSettled(r, before, after, g, s);
      InterchangeableYields(r, f, g, s, i, w);
      OmittedIsSuperseded(r, before, after, g, s, i);
    }
  }

  lemma OmittedIsSuperseded(r: Ranking, before: seq<Candidate>, after: seq<Candidate>, g: set<nat>, s: set<nat>, i: nat)
    requires |after| == |before| && InRange(FactsOf(before), g) && SeasonSettled(r, before, after, g, s)
    requires i in g && i !in s
    ensures after[i].decision == Superseded
  {
    assert SupersededOne(r, before, after, s, i);
  }

  /**
   * Of two releases of one season with the same range, the one gives way that scores lower; at one score, the one of
   * lower revision, then of higher priority number, then published earlier, then of greater acquisition ID.
   */
  lemma SeasonRanking(r: Ranking, before: seq<Candidate>, after: seq<Candidate>, i: nat, w: nat)
    requires Settled(r, before, after) && Selectable(before) && i < |before| && w < |before|
    requires before[i].decision == before[w].decision == Selected
    requires before[i].facts.mediaType != MEDIA_MOVIE && before[w].facts.mediaType != MEDIA_MOVIE
    requires Episode.SameSeason(before[i].facts.episode, before[w].facts.episode)
    requires before[i].facts.episode.episodeStart == before[w].facts.episode.episodeStart &&
      before[i].facts.episode.End() == before[w].facts.episode.End()
    ensures var a, b, out := before[w].facts, before[i].facts, after[i].decision == Superseded;
            && (r.score(a) > r.score(b) ==> out)
            && (r.score(a) == r.score(b) ==>
                 && (a.episode.revision > b.episode.revision ==> out)
                 && (a.episode.revision == b.episode.revision ==>
                      && (r.priority(a.sourceID) < r.priority(b.sourceID) ==> out)
                      && (r.priority(a.sourceID) == r.priority(b.sourceID) ==>
                           && (a.release.publishedAt > b.release.publishedAt ==> out)
                           && (a.release.publishedAt == b.release.publishedAt ==>
                                (Text.Less(a.acquisitionID, b.acquisitionID) ==> out)))))
  {
    hide Settled;
    SeasonYields(r, before, after, i, w);
  }

  /** The candidates of the season left selected. */
  ghost function Kept(before: seq<Candidate>, after: seq<Candidate>, key: GroupKey): set<nat>
    requires |after| == |before|
  {
    set j | j in Group(before, key) && after[j].decision == Selected
  }

  lemma KeptIsOptimum(r: Ranking, before: seq<Candidate>, after: seq<Candidate>, key: GroupKey, s: set<nat>)
    requires |after| == |before| && InRange(FactsOf(before), Group(before, key))
    requires SeasonSettled(r, before, after, Group(before, key), s)
    ensures Kept(before, after, key) == s
  {
    forall j | j in Group(before, key) ensures j in s <==> after[j].decision == Selected {
      assert j !in s ==> SupersededOne(r, before, after, s, j);
    }
  }

  lemma OptimumCoversMost(r: Ranking, f: seq<Facts>, g: set<nat>, s: set<nat>, t: set<nat>)
    requires SeasonGroup(f, g) && Optimum(r, f, g, s) && t <= g && Compatible(f, t)
    ensures |CoveredEpisodes(f, s)| >= |CoveredEpisodes(f, t)|
  {
    CoverageCountsEpisodes(f, t);
    CoverageCountsEpisodes(f, s);
    assert t != s ==> Beats(r, f, s, t);
  }

  lemma MoreCoverMore(f: seq<Facts>, t: set<nat>, g: set<nat>)
    requires InRange(f, g) && t <= g
    ensures |CoveredEpisodes(f, t)| <= |CoveredEpisodes(f, g)|
  {
    Sets.SubsetSize(CoveredEpisodes(f, t), CoveredEpisodes(f, g));
  }

  /** What stays selected of a season covers at least as many episodes as any of its non-overlapping sets. */
  lemma SeasonCoversMost(r: Ranking, before: seq<Candidate>, after: seq<Candidate>, key: GroupKey, t: set<nat>)
    requires Settled(r, before, after) && Selectable(before) && key.Season?
    requires t <= Group(before, key) && Compatible(FactsOf(before), t)
    ensures |CoveredEpisodes(FactsOf(before), Kept(before, after, key))| >= |CoveredEpisodes(FactsOf(before), t)|
  {
    var g, f := Group(before, key), FactsOf(before);
    assert GroupSettled(r, before, after, key);
    hide Compatible;
    hide CoveredEpisodes;
    hide Beats;
    if |g| < 2 {
      assert Kept(before, after, key) == g;
      MoreCoverMore(f, t, g);
    } else {
      var s :| SeasonSettled(r, before, after, g, s);
      KeptIsOptimum(r, before, after, key, s);
      OptimumCoversMost(r, f, g, s, t);
    }
  }

  // ---- the outcome does not depend on the order of the input -----------------------------

  /** `b` lists the candidates of `a` in another order. */
  ghost predicate SamePlan(a: seq<Candidate>, b: seq<Candidate>, p: seq<nat>, q: seq<nat>) {
    && Permutation(p, q) && |a| == |b| == |p|
    && forall i :: 0 <= i < |b| ==> b[i] == a[p[i]]
  }

  ghost predicate DistinctSelected(c: seq<Candidate>) {
    forall i, j :: (0 <= i < |c| && 0 <= j < |c| && c[i].decision == c[j].decision == Selected
                    && c[i].facts.acquisitionID == c[j].facts.acquisitionID) ==> i == j
  }

  lemma GroupRearranged(a: seq<Candidate>, b: seq<Candidate>, p: seq<nat>, q: seq<nat>, key: GroupKey)
    requires SamePlan(a, b, p, q)
    ensures Rearranged(FactsOf(a), FactsOf(b), p)
    ensures Image(p, Group(b, key)) == Group(a, key)
  {
    forall i, j | 0 <= i < |b| && 0 <= j < |b| && p[i] == p[j] ensures i == j {
      assert q[p[i]] == i && q[p[j]] == j;
    }
    forall y | y in Group(a, key) ensures y in Image(p, Group(b, key)) {
      assert p[q[y]] == y && q[y] in Group(b, key);
    }
  }

  lemma {:induction false} ImageSize(p: seq<nat>, s: set<nat>)
    requires forall i :: i in s ==> i < |p|
    requires forall i, j :: 0 <= i < |p| && 0 <= j < |p| && p[i] == p[j] ==> i == j
    ensures |Image(p, s)| == |s|
  {
    if s == {} {
      assert Image(p, s) == {};
    } else {
      var x := Sets.Member(s);
      ImageSize(p, s - {x});
      assert Image(p, s) == Image(p, s - {x}) + {p[x]};
      assert p[x] !in Image(p, s - {x});
    }
  }

  lemma MovieIgnoresOrder(r: Ranking, a: seq<Candidate>, b: seq<Candidate>, p: seq<nat>, q: seq<nat>,
                          a': seq<Candidate>, b': seq<Candidate>, key: GroupKey, i: nat, w: nat, v: nat)
    requires SamePlan(a, b, p, q) && DistinctSelected(b) && |a'| == |a| && |b'| == |b|
    requires MovieSettled(r, a, a', Group(a, key), w) && MovieSettled(r, b, b', Group(b, key), v)
    requires i in Group(b, key)
    ensures b'[i] == a'[p[i]]
  {
    GroupRearranged(a, b, p, q, key);
    assert p[v] in Group(a, key) && p[i] in Group(a, key);
    if p[v] != w {
      assert q[w] in Group(b, key);
      assert p[q[w]] == w && q[w] != v;
      BetterTrichotomy(r, a[w].facts, a[p[v]].facts);
    }
    assert p[i] == w ==> q[p[i]] == q[p[v]];
  }

  lemma ConflictIgnoresOrder(r: Ranking, a: seq<Candidate>, b: seq<Candidate>, p: seq<nat>, q: seq<nat>, s: set<nat>,
                             i: nat, w: nat, v: nat)
    requires SamePlan(a, b, p, q) && InRange(FactsOf(b), s) && i < |b|
    requires BestConflict(r, FactsOf(b), s, i, v) && BestConflict(r, FactsOf(a), Image(p, s), p[i], w)
    ensures a[w].facts.acquisitionID == b[v].facts.acquisitionID
  {
    var u :| u in s && p[u] == w;
    assert b[u] == a[w] && b[v] == a[p[v]] && b[i] == a[p[i]];
    assert p[v] in Image(p, s);
    BetterTrichotomy(r, a[w].facts, b[v].facts);
  }

  lemma SeasonIgnoresOrder(r: Ranking, a: seq<Candidate>, b: seq<Candidate>, p: seq<nat>, q: seq<nat>,
                           a': seq<Candidate>, b': seq<Candidate>, key: GroupKey, i: nat, s: set<nat>, t: set<nat>)
    requires SamePlan(a, b, p, q) && DistinctSelected(b) && |a'| == |a| && |b'| == |b|
    requires SeasonSettled(r, b, b', Group(b, key), s) && SeasonSettled(r, a, a', Group(a, key), t)
    requires i in Group(b, key)
    ensures b'[i] == a'[p[i]]
  {
    GroupRearranged(a, b, p, q, key);
    OptimumIgnoresOrder(r, FactsOf(a), FactsOf(b), p, Group(b, key), s, t);
    if i in s {
      assert p[i] in t;
    } else {
      forall j | j in s ensures p[j] != p[i] {
        assert q[p[j]] == j;
      }
      assert SupersededOne(r, b, b', s, i) && SupersededOne(r, a, a', t, p[i]);
      var v: nat :| BestConflict(r, FactsOf(b), s, i, v) &&
        b'[i] == Supersede(b[i], OVERLAP_SUPERSEDED_BY + b[v].facts.acquisitionID);
      var w: nat :| BestConflict(r, FactsOf(a), t, p[i], w) &&
        a'[p[i]] == Supersede(a[p[i]], OVERLAP_SUPERSEDED_BY + a[w].facts.acquisitionID);
      ConflictIgnoresOrder(r, a, b, p, q, s, i, w, v);
    }
  }

  /**
   * With distinct acquisition IDs, selection commutes with reordering the plan: every candidate gets the same
   * decision and the same reason.
   */
  lemma SelectionIgnoresOrder(r: Ranking, a: seq<Candidate>, b: seq<Candidate>, p: seq<nat>, q: seq<nat>,
                              a': seq<Candidate>, b': seq<Candidate>, i: nat)
    requires SamePlan(a, b, p, q) && DistinctSelected(b) && Settled(r, a, a') && Settled(r, b, b') && i < |b|
    ensures b'[i] == a'[p[i]]
  {
    if b[i].decision == Selected {
      var key := KeyOf(b[i].facts);
      assert GroupSettled(r, a, a', key) && GroupSettled(r, b, b', key);
      GroupRearranged(a, b, p, q, key);
      ImageSize(p, Group(b, key));
      assert i in Group(b, key) && p[i] in Group(a, key);
      if |Group(b, key)| < 2 {
      } else if key.Movie? {
        var w: nat :| MovieSettled(r, a, a', Group(a, key), w);
        var v: nat :| MovieSettled(r, b, b', Group(b, key), v);
        MovieIgnoresOrder(r, a, b, p, q, a', b', key, i, w, v);
      } else {
        var s :| SeasonSettled(r, b, b', Group(b, key), s);
        var t :| SeasonSettled(r, a, a', Group(a, key), t);
        SeasonIgnoresOrder(r, a, b, p, q, a', b', key, i, s, t);
      }
    }
  }
}
