/**
 * Choosing releases: per movie the best one, per season a non-overlapping set with the widest coverage, found by
 * weighted interval scheduling.
 */
module Selection {
  import Episode
  import opened Sets
  import opened SelectionOrder
  import opened SelectionSort

  datatype Chosen = Chosen(indexes: seq<nat>, coverage: nat)

  /** A selection under construction: distinct, positive-width members whose widths add up. */
  ghost predicate Sound(f: seq<Facts>, a: Chosen) {
    && Positions(f, a.indexes) && NoRepeats(a.indexes)
    && a.coverage == Coverage(f, SetOf(a.indexes))
    && forall i :: i in SetOf(a.indexes) ==> f[i].episode.episodeStart > 0
  }

  lemma {:induction false} SmallerCoversLess(f: seq<Facts>, a: set<nat>, b: set<nat>)
    requires InRange(f, b) && a < b && forall i :: i in b ==> f[i].episode.episodeStart > 0
    ensures Coverage(f, a) < Coverage(f, b)
  {
    var x := Missing(a, b);
    CoverageRemove(f, b, x);
    if a != b - {x} {
      SmallerCoversLess(f, a, b - {x});
    }
  }

  ghost predicate Ranked(r: Ranking, f: seq<Facts>, s: seq<nat>) {
    && Positions(f, s)
    && forall m, n :: 0 <= m < n < |s| ==> Before(r, f, s[m], s[n])
  }

  /** What a ranked list holds above x stands before any position whose element is x or ranked below it. */
  lemma StandsEarlier(r: Ranking, f: seq<Facts>, s: seq<nat>, i: nat, x: nat, y: nat) returns (m: nat)
    requires Ranked(r, f, s) && i < |s| && x < |f| && y < |f| && (x == s[i] || Before(r, f, x, s[i]))
    requires y in s && Before(r, f, y, x)
    ensures m < i && s[m] == y
  {
    m :| 0 <= m < |s| && s[m] == y;
    BeforeTotal(r, f, y, x);
    if i < m && x != s[i] {
      BeforeTransitive(r, f, x, s[i], s[m]);
    }
  }

  /** The first difference of two ranked lists decides which set is preferred. */
  lemma FirstDifference(r: Ranking, f: seq<Facts>, a: seq<nat>, b: seq<nat>, i: nat)
    requires Ranked(r, f, a) && Ranked(r, f, b)
    requires i < |a| && i < |b| && a[..i] == b[..i] && Before(r, f, a[i], b[i])
    ensures Preferred(r, f, SetOf(a), SetOf(b))
  {
    var x := a[i];
    BeforeTotal(r, f, x, x);
    forall n | 0 <= n < |b| ensures b[n] != x {
      if n < i {
        assert b[n] == b[..i][n] == a[..i][n] == a[n];
      } else if n > i {
        BeforeTransitive(r, f, x, b[i], b[n]);
      }
    }
    forall y | y in SetOf(a) && Before(r, f, y, x) ensures y in SetOf(b) {
      var m := StandsEarlier(r, f, a, i, x, y);
      assert y == a[..i][m] == b[..i][m] == b[m];
    }
    forall y | y in SetOf(b) && Before(r, f, y, x) ensures y in SetOf(a) {
      var n := StandsEarlier(r, f, b, i, x, y);
      assert y == b[..i][n] == a[..i][n] == a[n];
    }
    assert x in SetOf(a) && x !in SetOf(b) && AgreeAbove(r, f, SetOf(a), SetOf(b), x);
  }

  lemma PrefixCoversLess(f: seq<Facts>, a: seq<nat>, b: seq<nat>)
    requires Positions(f, b) && NoRepeats(b) && forall i :: i in SetOf(b) ==> f[i].episode.episodeStart > 0
    requires |a| < |b| && a == b[..|a|]
    ensures Positions(f, a) && Coverage(f, SetOf(a)) < Coverage(f, SetOf(b))
  {
    var x := b[|a|];
    assert x in SetOf(b);
    assert x !in SetOf(a);
    assert SetOf(a) <= SetOf(b);
    SmallerCoversLess(f, SetOf(a), SetOf(b));
  }

  lemma DecidedAt(r: Ranking, f: seq<Facts>, a: seq<nat>, b: seq<nat>, i: nat)
    requires Ranked(r, f, a) && Ranked(r, f, b) && Coverage(f, SetOf(a)) == Coverage(f, SetOf(b))
    requires i < |a| && i < |b| && a[..i] == b[..i] && a[i] != b[i]
    ensures Before(r, f, a[i], b[i]) <==> Beats(r, f, SetOf(a), SetOf(b))
  {
    BeforeTotal(r, f, a[i], b[i]);
    BeatsAsymmetric(r, f, SetOf(a), SetOf(b));
    if Before(r, f, a[i], b[i]) {
      FirstDifference(r, f, a, b, i);
    } else {
      FirstDifference(r, f, b, a, i);
    }
  }

  lemma DecidedByNothing(r: Ranking, f: seq<Facts>, a: seq<nat>, b: seq<nat>, i: nat)
    requires Positions(f, a) && NoRepeats(a) && (forall i :: i in SetOf(a) ==> f[i].episode.episodeStart > 0)
    requires Positions(f, b) && NoRepeats(b) && (forall i :: i in SetOf(b) ==> f[i].episode.episodeStart > 0)
    requires Coverage(f, SetOf(a)) == Coverage(f, SetOf(b))
    requires i <= |a| && i <= |b| && (i == |a| || i == |b|) && a[..i] == b[..i]
    ensures a == b && !Beats(r, f, SetOf(a), SetOf(b))
  {
    if |a| < |b| {
      PrefixCoversLess(f, a, b);
    } else if |b| < |a| {
      PrefixCoversLess(f, b, a);
    }
    BeatsAsymmetric(r, f, SetOf(a), SetOf(b));
  }

  method QualitySorted(r: Ranking, f: seq<Facts>, a: Chosen) returns (s: seq<nat>)
    requires Sound(f, a)
    ensures Ranked(r, f, s) && NoRepeats(s) && SetOf(s) == SetOf(a.indexes) && |s| == |a.indexes|
  {
    RankedStrictly(r, f, a.indexes);
    s := StableSort(Rank, r, f, a.indexes);
  }

  /** The comparison of two selections: coverage, then the first differing release in quality order. */
  method BetterSelection(r: Ranking, f: seq<Facts>, a: Chosen, b: Chosen) returns (better: bool)
    requires Sound(f, a) && Sound(f, b)
    ensures better <==> Beats(r, f, SetOf(a.indexes), SetOf(b.indexes))
  {
    if a.coverage != b.coverage {
      return a.coverage > b.coverage;
    }
    var aRanked := QualitySorted(r, f, a);
    var bRanked := QualitySorted(r, f, b);
    var i := 0;
    while i < |aRanked| && i < |bRanked|
      invariant 0 <= i <= |aRanked| && i <= |bRanked|
      invariant aRanked[..i] == bRanked[..i]
    {
      if aRanked[i] != bRanked[i] {
        DecidedAt(r, f, aRanked, bRanked, i);
        return Before(r, f, aRanked[i], bRanked[i]);
      }
      i := i + 1;
    }
    DecidedByNothing(r, f, aRanked, bRanked, i);
    return |a.indexes| < |b.indexes|;
  }

  // ---- the scheduling step ------------------------------------------------------------

  /**
   * One step of the recurrence. `p` is optimal among the releases `low` that end before `c` starts, `e` among all
   * releases `u` before `c`, and everything in `u` outside `low` overlaps `c`.
   */
  lemma ScheduleStep(r: Ranking, f: seq<Facts>, low: set<nat>, u: set<nat>, c: nat, p: set<nat>, e: set<nat>)
    requires c < |f| && c !in u && SeasonGroup(f, u + {c}) && low <= u
    requires forall j :: j in low ==> !f[c].episode.Overlaps(f[j].episode)
    requires forall j :: j in u - low ==> f[c].episode.Overlaps(f[j].episode)
    requires Optimum(r, f, low, p) && Optimum(r, f, u, e)
    ensures Beats(r, f, p + {c}, e) ==> Optimum(r, f, u + {c}, p + {c})
    ensures !Beats(r, f, p + {c}, e) ==> Optimum(r, f, u + {c}, e)
  {
    var i := p + {c};
    CompatibleInsert(f, p, c);
    assert c in i && c !in e;
    BeatsTotal(r, f, i, e);
    forall t | t <= u + {c} && Compatible(f, t)
      ensures t != i && Beats(r, f, i, e) ==> Beats(r, f, i, t)
      ensures t != e && !Beats(r, f, i, e) ==> Beats(r, f, e, t)
    {
      if c in t {
        IncludeBeats(r, f, low, u, c, p, t);
        if t != i && Beats(r, f, e, i) {
          BeatsTransitive(r, f, e, i, t);
        }
      } else {
        assert t <= u;
        if t != e && Beats(r, f, i, e) {
          BeatsTransitive(r, f, i, e, t);
        }
      }
    }
  }

  /** Among compatible sets that contain `c`, the best is `c` with the optimum of what fits before it. */
  lemma IncludeBeats(r: Ranking, f: seq<Facts>, low: set<nat>, u: set<nat>, c: nat, p: set<nat>, t: set<nat>)
    requires c < |f| && c !in u && SeasonGroup(f, u + {c}) && low <= u
    requires forall j :: j in u - low ==> f[c].episode.Overlaps(f[j].episode)
    requires Optimum(r, f, low, p)
    requires t <= u + {c} && c in t && Compatible(f, t)
    ensures t == p + {c} || Beats(r, f, p + {c}, t)
  {
    var t' := t - {c};
    forall j | j in t' ensures j in low {
      assert j in u && !f[c].episode.Overlaps(f[j].episode);
      assert j !in u - low;
    }
    assert t == t' + {c};
    if t' != p {
      BeatsInsert(r, f, p, t', c);
    }
  }

  ghost predicate Best(r: Ranking, f: seq<Facts>, idx: seq<nat>, a: Chosen) {
    && Positions(f, idx) && Sound(f, a)
    && Optimum(r, f, SetOf(idx), SetOf(a.indexes))
  }

  lemma SetOfSlices(idx: seq<nat>, low: nat, pos: nat)
    requires NoRepeats(idx) && low <= pos < |idx|
    ensures SetOf(idx[..low]) <= SetOf(idx[..pos]) <= SetOf(idx)
    ensures idx[pos] !in SetOf(idx[..pos])
    ensures SetOf(idx[..pos]) + {idx[pos]} == SetOf(idx[..pos + 1]) <= SetOf(idx)
  {
  }

  /** In scheduling order, exactly the releases up to `previous` end before release `pos` starts. */
  lemma Compatibles(r: Ranking, f: seq<Facts>, idx: seq<nat>, pos: nat, previous: int, a: nat)
    requires Positions(f, idx) && InOrder(Interval, r, f, idx)
    requires forall a :: 0 <= a < |idx| ==> f[idx[a]].episode.episodeStart > 0
    requires forall a, b :: 0 <= a < |idx| && 0 <= b < |idx| ==>
      Episode.SameSeason(f[idx[a]].episode, f[idx[b]].episode)
    requires a < pos < |idx| && -1 <= previous < pos
    requires previous >= 0 ==> f[idx[previous]].episode.End() < f[idx[pos]].episode.episodeStart
    requires forall j :: previous < j < pos ==> f[idx[j]].episode.End() >= f[idx[pos]].episode.episodeStart
    ensures f[idx[pos]].episode.Overlaps(f[idx[a]].episode) <==> a > previous
  {
  }

  lemma CompatibleSlices(r: Ranking, f: seq<Facts>, idx: seq<nat>, pos: nat, previous: int)
    requires Positions(f, idx) && NoRepeats(idx) && InOrder(Interval, r, f, idx) && SeasonGroup(f, SetOf(idx))
    requires pos < |idx| && -1 <= previous < pos
    requires previous >= 0 ==> f[idx[previous]].episode.End() < f[idx[pos]].episode.episodeStart
    requires forall j :: previous < j < pos ==> f[idx[j]].episode.End() >= f[idx[pos]].episode.episodeStart
    ensures var low, u, c := SetOf(idx[..previous + 1]), SetOf(idx[..pos]), idx[pos];
            && InRange(f, u)
            && (forall j :: j in low ==> j in u && !f[c].episode.Overlaps(f[j].episode))
            && (forall j :: j in u - low ==> f[c].episode.Overlaps(f[j].episode))
  {
    var low, u, c := SetOf(idx[..previous + 1]), SetOf(idx[..pos]), idx[pos];
    forall a | 0 <= a < |idx| ensures idx[a] in SetOf(idx) {}
    forall j | j in low ensures j in u && j < |f| && !f[c].episode.Overlaps(f[j].episode) {
      var a :| 0 <= a < previous + 1 && idx[..previous + 1][a] == j;
      assert idx[..pos][a] == j;
      Compatibles(r, f, idx, pos, previous, a);
    }
    forall j | j in u ensures j < |f| && (j !in low ==> f[c].episode.Overlaps(f[j].episode)) {
      var a :| 0 <= a < pos && idx[..pos][a] == j;
      if a <= previous {
        assert idx[..previous + 1][a] == j;
      }
      Compatibles(r, f, idx, pos, previous, a);
    }
  }

  lemma Extended(f: seq<Facts>, idx: seq<nat>, low: set<nat>, p: Chosen, c: nat)
    requires Sound(f, p) && c < |f| && f[c].episode.episodeStart > 0 && SetOf(p.indexes) <= low && c !in low
    ensures Sound(f, Chosen(p.indexes + [c], p.coverage + f[c].episode.Width()))
    ensures SetOf(p.indexes + [c]) == SetOf(p.indexes) + {c}
  {
    CoverageAdd(f, SetOf(p.indexes), c);
    assert forall a :: 0 <= a < |p.indexes| ==> p.indexes[a] in SetOf(p.indexes);
    assert SetOf(p.indexes + [c]) == SetOf(p.indexes) + {c};
  }

  /** What the two alternatives at release `pos` are worth, given the optima they extend. */
  lemma Alternatives(r: Ranking, f: seq<Facts>, idx: seq<nat>, pos: nat, previous: int, p: Chosen, e: Chosen)
    requires Positions(f, idx) && NoRepeats(idx) && InOrder(Interval, r, f, idx) && SeasonGroup(f, SetOf(idx))
    requires pos < |idx| && -1 <= previous < pos
    requires previous >= 0 ==> f[idx[previous]].episode.End() < f[idx[pos]].episode.episodeStart
    requires forall j :: previous < j < pos ==> f[idx[j]].episode.End() >= f[idx[pos]].episode.episodeStart
    requires Best(r, f, idx[..previous + 1], p) && Best(r, f, idx[..pos], e)
    ensures var included := Chosen(p.indexes + [idx[pos]], p.coverage + f[idx[pos]].episode.Width());
            && Sound(f, included)
            && (if Beats(r, f, SetOf(included.indexes), SetOf(e.indexes)) then Best(r, f, idx[..pos + 1], included)
                else Best(r, f, idx[..pos + 1], e))
  {
    var low, u, c := SetOf(idx[..previous + 1]), SetOf(idx[..pos]), idx[pos];
    SetOfSlices(idx, previous + 1, pos);
    assert c in SetOf(idx);
    CompatibleSlices(r, f, idx, pos, previous);
    Extended(f, idx, low, p, c);
    ScheduleStep(r, f, low, u, c, SetOf(p.indexes), SetOf(e.indexes));
  }

  /** The last earlier release in scheduling order that ends before release `pos` starts, or -1. */
  method LastEndingBefore(f: seq<Facts>, idx: seq<nat>, pos: nat) returns (previous: int)
    requires Positions(f, idx) && pos < |idx|
    ensures -1 <= previous < pos
    ensures previous >= 0 ==> f[idx[previous]].episode.End() < f[idx[pos]].episode.episodeStart
    ensures forall j :: previous < j < pos ==> f[idx[j]].episode.End() >= f[idx[pos]].episode.episodeStart
  {
    previous := pos - 1;
    while previous >= 0 && !(f[idx[previous]].episode.End() < f[idx[pos]].episode.episodeStart)
      invariant -1 <= previous < pos
      invariant forall j :: previous < j < pos ==> f[idx[j]].episode.End() >= f[idx[pos]].episode.episodeStart
    {
      previous := previous - 1;
    }
  }

  ghost predicate Schedulable(r: Ranking, f: seq<Facts>, idx: seq<nat>) {
    Positions(f, idx) && NoRepeats(idx) && InOrder(Interval, r, f, idx) && SeasonGroup(f, SetOf(idx))
  }

  /** dp[k] is the best selection among the first k releases, for every k filled in so far. */
  ghost predicate Table(r: Ranking, f: seq<Facts>, idx: seq<nat>, dp: seq<Chosen>) {
    0 < |dp| <= |idx| + 1 && forall k :: 0 <= k < |dp| ==> Best(r, f, idx[..k], dp[k])
  }

  method SchedulingOrder(r: Ranking, f: seq<Facts>, group: seq<nat>) returns (idx: seq<nat>)
    requires Positions(f, group) && NoRepeats(group) && SeasonGroup(f, SetOf(group))
    ensures Schedulable(r, f, idx) && SetOf(idx) == SetOf(group)
  {
    idx := StableSort(Interval, r, f, group);
    SortInOrder(Interval, r, f, group);
    SortKeepsElements(Interval, r, f, group);
  }

  method Prefer(r: Ranking, f: seq<Facts>, included: Chosen, excluded: Chosen, ghost idx: seq<nat>)
    returns (next: Chosen)
    requires Sound(f, included) && Sound(f, excluded)
    requires Beats(r, f, SetOf(included.indexes), SetOf(excluded.indexes)) ==> Best(r, f, idx, included)
    requires !Beats(r, f, SetOf(included.indexes), SetOf(excluded.indexes)) ==> Best(r, f, idx, excluded)
    ensures Best(r, f, idx, next)
  {
    var better := BetterSelection(r, f, included, excluded);
    next := if better then included else excluded;
  }

  lemma TableAt(r: Ranking, f: seq<Facts>, idx: seq<nat>, dp: seq<Chosen>, k: nat)
    requires Table(r, f, idx, dp) && k < |dp|
    ensures k <= |idx| && Best(r, f, idx[..k], dp[k]) && Sound(f, dp[k])
  {
  }

  /** The better of taking the next release with the best compatible earlier set, or leaving it out. */
  method Take(r: Ranking, f: seq<Facts>, idx: seq<nat>, dp: seq<Chosen>) returns (next: Chosen)
    requires Schedulable(r, f, idx) && Table(r, f, idx, dp) && 0 < |dp| <= |idx|
    ensures Best(r, f, idx[..|dp|], next)
  {
    hide Table;
    hide Best;
    hide Beats;
    hide InOrder;
    hide SeasonGroup;
    hide NoRepeats;
    var pos := |dp| - 1;
    var previous := LastEndingBefore(f, idx, pos);
    var p, e := dp[previous + 1], dp[pos];
    TableAt(r, f, idx, dp, previous + 1);
    TableAt(r, f, idx, dp, pos);
    var included := Chosen(p.indexes + [idx[pos]], p.coverage + f[idx[pos]].episode.Width());
    Alternatives(r, f, idx, pos, previous, p, e);
    next := Prefer(r, f, included, e, idx[..pos + 1]);
  }

  /** Weighted interval scheduling over one season group. The result is the unique optimum. */
  method Schedule(r: Ranking, f: seq<Facts>, group: seq<nat>) returns (best: seq<nat>)
    requires Positions(f, group) && NoRepeats(group) && SeasonGroup(f, SetOf(group))
    ensures Positions(f, best) && NoRepeats(best) && Optimum(r, f, SetOf(group), SetOf(best))
  {
    var idx := SchedulingOrder(r, f, group);
    var dp := [Chosen([], 0)];
    for pos := 0 to |idx|
      invariant |dp| == pos + 1 && Table(r, f, idx, dp)
    {
      var next := Take(r, f, idx, dp);
      dp := dp + [next];
    }
    best := dp[|idx|].indexes;
  }
}
