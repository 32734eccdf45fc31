/**
 * The order on sets of releases that selection optimizes: more covered episodes first, then the set that holds
 * the best release on which the two sets differ.
 */
module SelectionOrder {
  import Episode
  import Sets
  import Candidate

  type Facts = Candidate.Facts
  type Ranking = Candidate.Ranking

  ghost predicate InRange(f: seq<Facts>, s: set<nat>) {
    forall i :: i in s ==> i < |f|
  }

  /** Strict total order on positions: quality, then the earlier position. */
  predicate Before(r: Ranking, f: seq<Facts>, i: nat, j: nat)
    requires i < |f| && j < |f|
  {
    Candidate.Better(r, f[i], f[j]) || (!Candidate.Better(r, f[j], f[i]) && i < j)
  }

  lemma BeforeTotal(r: Ranking, f: seq<Facts>, i: nat, j: nat)
    requires i < |f| && j < |f|
    ensures !(Before(r, f, i, j) && Before(r, f, j, i))
    ensures i != j ==> Before(r, f, i, j) || Before(r, f, j, i)
  {
    Candidate.BetterTrichotomy(r, f[i], f[j]);
  }

  lemma BeforeTransitive(r: Ranking, f: seq<Facts>, i: nat, j: nat, k: nat)
    requires i < |f| && j < |f| && k < |f|
    requires Before(r, f, i, j) && Before(r, f, j, k)
    ensures Before(r, f, i, k)
  {
    Candidate.BetterTransitive(r, f[i], f[j], f[k]);
    Candidate.BetterTrichotomy(r, f[i], f[j]);
    Candidate.BetterTrichotomy(r, f[j], f[k]);
    Candidate.BetterTrichotomy(r, f[i], f[k]);
    Candidate.BetterTransitive(r, f[k], f[i], f[j]);
    Candidate.BetterTransitive(r, f[j], f[k], f[i]);
  }

  ghost function Coverage(f: seq<Facts>, s: set<nat>): nat
    requires InRange(f, s)
  {
    if s == {} then 0
    else var i :| i in s; f[i].episode.Width() + Coverage(f, s - {i})
  }

  lemma {:induction false} CoverageRemove(f: seq<Facts>, s: set<nat>, x: nat)
    requires InRange(f, s) && x in s
    ensures Coverage(f, s) == f[x].episode.Width() + Coverage(f, s - {x})
  {
    var i :| i in s && Coverage(f, s) == f[i].episode.Width() + Coverage(f, s - {i});
    if i != x {
      CoverageRemove(f, s - {i}, x);
      CoverageRemove(f, s - {x}, i);
      assert s - {i} - {x} == s - {x} - {i};
    }
  }

  lemma CoverageAdd(f: seq<Facts>, s: set<nat>, x: nat)
    requires InRange(f, s) && x !in s && x < |f|
    ensures Coverage(f, s + {x}) == Coverage(f, s) + f[x].episode.Width()
  {
    CoverageRemove(f, s + {x}, x);
    assert s + {x} - {x} == s;
  }

  /** The two sets agree on every release ranked above x. */
  ghost predicate AgreeAbove(r: Ranking, f: seq<Facts>, a: set<nat>, b: set<nat>, x: nat)
    requires InRange(f, a) && InRange(f, b) && x < |f|
  {
    forall y :: y in a + b && Before(r, f, y, x) ==> y in a && y in b
  }

  /** The best release on which the sets differ belongs to `a`. */
  ghost predicate Preferred(r: Ranking, f: seq<Facts>, a: set<nat>, b: set<nat>)
    requires InRange(f, a) && InRange(f, b)
  {
    exists x :: x in a && x !in b && AgreeAbove(r, f, a, b, x)
  }

  ghost predicate Beats(r: Ranking, f: seq<Facts>, a: set<nat>, b: set<nat>)
    requires InRange(f, a) && InRange(f, b)
  {
    Coverage(f, a) > Coverage(f, b) || (Coverage(f, a) == Coverage(f, b) && Preferred(r, f, a, b))
  }

  lemma PreferredTransitive(r: Ranking, f: seq<Facts>, a: set<nat>, b: set<nat>, c: set<nat>)
    requires InRange(f, a) && InRange(f, b) && InRange(f, c)
    requires Preferred(r, f, a, b) && Preferred(r, f, b, c)
    ensures Preferred(r, f, a, c)
  {
    var x :| x in a && x !in b && AgreeAbove(r, f, a, b, x);
    var z :| z in b && z !in c && AgreeAbove(r, f, b, c, z);
    BeforeTotal(r, f, x, z);
    var w := if Before(r, f, x, z) then x else z;
    forall y | y in a + c && Before(r, f, y, w) ensures y in a && y in c {
      if w == x {
        BeforeTransitive(r, f, y, x, z);
      } else {
        BeforeTransitive(r, f, y, z, x);
      }
    }
    assert w in a && w !in c && AgreeAbove(r, f, a, c, w);
  }

  lemma BeatsTransitive(r: Ranking, f: seq<Facts>, a: set<nat>, b: set<nat>, c: set<nat>)
    requires InRange(f, a) && InRange(f, b) && InRange(f, c)
    requires Beats(r, f, a, b) && Beats(r, f, b, c)
    ensures Beats(r, f, a, c)
  {
    if Coverage(f, a) == Coverage(f, b) == Coverage(f, c) {
      PreferredTransitive(r, f, a, b, c);
    }
  }

  lemma BeatsAsymmetric(r: Ranking, f: seq<Facts>, a: set<nat>, b: set<nat>)
    requires InRange(f, a) && InRange(f, b)
    ensures !(Beats(r, f, a, b) && Beats(r, f, b, a))
    ensures !Beats(r, f, a, a)
  {
  }

  /** A non-empty set of positions has a best-ranked member. */
  lemma {:induction false} BestOf(r: Ranking, f: seq<Facts>, s: set<nat>) returns (x: nat)
    requires InRange(f, s) && s != {}
    ensures x in s && forall y :: y in s && y != x ==> Before(r, f, x, y)
  {
    var i: nat :| i in s;
    x := i;
    var rest := s - {i};
    assert forall y :: y in s && y != i ==> y in rest;
    if rest != {} {
      var j := BestOf(r, f, rest);
      BeforeTotal(r, f, i, j);
      if Before(r, f, i, j) {
        forall y | y in s && y != i ensures Before(r, f, i, y) {
          if y != j {
            BeforeTransitive(r, f, i, j, y);
          }
        }
      } else {
        x := j;
      }
    }
  }

  /** Of two different sets one beats the other. */
  lemma BeatsTotal(r: Ranking, f: seq<Facts>, a: set<nat>, b: set<nat>)
    requires InRange(f, a) && InRange(f, b) && a != b
    ensures Beats(r, f, a, b) || Beats(r, f, b, a)
  {
    var d := (a - b) + (b - a);
    assert !(a <= b && b <= a);
    assert d != {} by {
      if a <= b {
        assert b - a != {};
      } else {
        assert a - b != {};
      }
    }
    var x := BestOf(r, f, d);
    forall y | y in a + b && Before(r, f, y, x) ensures y in a && y in b {
      if !(y in a && y in b) {
        assert y in d;
        BeforeTotal(r, f, x, y);
      }
    }
  }

  /** Adding the same new release to both sides keeps the comparison. */
  lemma BeatsInsert(r: Ranking, f: seq<Facts>, a: set<nat>, b: set<nat>, x: nat)
    requires InRange(f, a) && InRange(f, b) && x < |f| && x !in a && x !in b
    requires Beats(r, f, a, b)
    ensures Beats(r, f, a + {x}, b + {x})
  {
    CoverageAdd(f, a, x);
    CoverageAdd(f, b, x);
    if Coverage(f, a) == Coverage(f, b) {
      var w :| w in a && w !in b && AgreeAbove(r, f, a, b, w);
      assert w in a + {x} && w !in b + {x} && AgreeAbove(r, f, a + {x}, b + {x}, w);
    }
  }

  // ---- compatible sets and their optimum ----------------------------------------------

  ghost predicate Compatible(f: seq<Facts>, s: set<nat>)
    requires InRange(f, s)
  {
    forall i, j :: i in s && j in s && i != j ==> !f[i].episode.Overlaps(f[j].episode)
  }

  /** One season group: ready series candidates of the same Entry, season and special flag. */
  ghost predicate SeasonGroup(f: seq<Facts>, u: set<nat>) {
    && InRange(f, u)
    && (forall i :: i in u ==> f[i].episode.episodeStart > 0)
    && (forall i, j :: i in u && j in u ==> Episode.SameSeason(f[i].episode, f[j].episode))
  }

  /** `s` is a compatible subset of `u` that beats every other one. */
  ghost predicate Optimum(r: Ranking, f: seq<Facts>, u: set<nat>, s: set<nat>)
    requires InRange(f, u)
  {
    && s <= u && Compatible(f, s)
    && forall t :: t <= u && Compatible(f, t) && t != s ==> Beats(r, f, s, t)
  }

  lemma OptimumUnique(r: Ranking, f: seq<Facts>, u: set<nat>, s: set<nat>, t: set<nat>)
    requires InRange(f, u) && Optimum(r, f, u, s) && Optimum(r, f, u, t)
    ensures s == t
  {
  }

  lemma CompatibleInsert(f: seq<Facts>, s: set<nat>, i: nat)
    requires InRange(f, s) && i < |f| && Compatible(f, s)
    requires forall w :: w in s ==> !f[i].episode.Overlaps(f[w].episode)
    ensures Compatible(f, s + {i})
  {
  }

  /** Whatever the optimum leaves out overlaps something it keeps. */
  lemma OmittedOverlaps(r: Ranking, f: seq<Facts>, u: set<nat>, s: set<nat>, i: nat)
    requires SeasonGroup(f, u) && Optimum(r, f, u, s) && i in u && i !in s
    ensures exists w :: w in s && f[i].episode.Overlaps(f[w].episode)
  {
    CoverageAdd(f, s, i);
    assert s + {i} != s;
    if !exists w :: w in s && f[i].episode.Overlaps(f[w].episode) {
      CompatibleInsert(f, s, i);
      assert false;
    }
  }

  // ---- what coverage counts -----------------------------------------------------------

  ghost function CoveredEpisodes(f: seq<Facts>, s: set<nat>): set<int>
    requires InRange(f, s)
  {
    set i, e | i in s && e in f[i].episode.Episodes() :: e
  }

  lemma CoveredRemove(f: seq<Facts>, s: set<nat>, x: nat)
    requires InRange(f, s) && x in s
    ensures CoveredEpisodes(f, s) == CoveredEpisodes(f, s - {x}) + f[x].episode.Episodes()
  {
  }

  /** On a compatible set of one season, coverage is the number of distinct episodes it brings. */
  lemma {:induction false} CoverageCountsEpisodes(f: seq<Facts>, s: set<nat>)
    requires SeasonGroup(f, s) && Compatible(f, s)
    ensures |CoveredEpisodes(f, s)| == Coverage(f, s)
  {
    if s == {} {
      assert CoveredEpisodes(f, s) == {};
    } else {
      var x := Sets.Member(s);
      CoverageCountsEpisodes(f, s - {x});
      CoverageRemove(f, s, x);
      CoveredRemove(f, s, x);
      Episode.WidthCountsEpisodes(f[x].episode);
    }
  }

  // ---- input order --------------------------------------------------------------------

  ghost function Image(p: seq<nat>, s: set<nat>): set<nat>
    requires forall i :: i in s ==> i < |p|
  {
    set i | i in s :: p[i]
  }

  /** `p` permutes 0..n with inverse `q`. */
  ghost predicate Permutation(p: seq<nat>, q: seq<nat>) {
    && |p| == |q|
    && (forall i :: 0 <= i < |p| ==> p[i] < |q| && q[p[i]] == i)
    && (forall i :: 0 <= i < |q| ==> q[i] < |p| && p[q[i]] == i)
  }

  /** `g` lists the facts of `f` in another order: g[i] is f[p[i]]. */
  ghost predicate Rearranged(f: seq<Facts>, g: seq<Facts>, p: seq<nat>) {
    && |p| == |g| == |f|
    && (forall i :: 0 <= i < |g| ==> p[i] < |f| && g[i] == f[p[i]])
    && (forall i, j :: 0 <= i < |g| && 0 <= j < |g| && p[i] == p[j] ==> i == j)
  }

  ghost predicate DistinctIDs(f: seq<Facts>, u: set<nat>)
    requires InRange(f, u)
  {
    forall i, j :: i in u && j in u && f[i].acquisitionID == f[j].acquisitionID ==> i == j
  }

  lemma ImageRemove(p: seq<nat>, s: set<nat>, x: nat)
    requires x in s && forall i :: i in s ==> i < |p|
    requires forall i, j :: 0 <= i < |p| && 0 <= j < |p| && p[i] == p[j] ==> i == j
    ensures p[x] in Image(p, s) && Image(p, s - {x}) == Image(p, s) - {p[x]}
  {
  }

  lemma {:induction false} CoverageRearranged(f: seq<Facts>, g: seq<Facts>, p: seq<nat>, s: set<nat>)
    requires Rearranged(f, g, p) && InRange(g, s)
    ensures Coverage(f, Image(p, s)) == Coverage(g, s)
  {
    if s == {} {
      assert Image(p, s) == {};
    } else {
      var x := Sets.Member(s);
      ImageRemove(p, s, x);
      CoverageRearranged(f, g, p, s - {x});
      CoverageRemove(g, s, x);
      CoverageRemove(f, Image(p, s), p[x]);
    }
  }

  lemma AgreeAboveRearranged(r: Ranking, f: seq<Facts>, g: seq<Facts>, p: seq<nat>, u: set<nat>, a: set<nat>,
                             b: set<nat>, w: nat)
    requires Rearranged(f, g, p) && InRange(g, u) && a <= u && b <= u && DistinctIDs(g, u) && w in u
    requires AgreeAbove(r, g, a, b, w)
    ensures AgreeAbove(r, f, Image(p, a), Image(p, b), p[w])
  {
    var pa, pb := Image(p, a), Image(p, b);
    forall y | y in pa + pb && Before(r, f, y, p[w]) ensures y in pa && y in pb {
      var i :| i in a + b && p[i] == y;
      Candidate.BetterTrichotomy(r, g[i], g[w]);
      BeforeTotal(r, f, y, y);
      assert Before(r, g, i, w);
      assert i in a && i in b;
    }
  }

  lemma BeatsRearranged(r: Ranking, f: seq<Facts>, g: seq<Facts>, p: seq<nat>, u: set<nat>, a: set<nat>, b: set<nat>)
    requires Rearranged(f, g, p) && InRange(g, u) && a <= u && b <= u && DistinctIDs(g, u)
    requires Beats(r, g, a, b)
    ensures Beats(r, f, Image(p, a), Image(p, b))
  {
    CoverageRearranged(f, g, p, a);
    CoverageRearranged(f, g, p, b);
    if Coverage(g, a) == Coverage(g, b) {
      var w :| w in a && w !in b && AgreeAbove(r, g, a, b, w);
      assert p[w] in Image(p, a);
      assert p[w] !in Image(p, b);
      AgreeAboveRearranged(r, f, g, p, u, a, b, w);
    }
  }

  /**
   * With distinct acquisition IDs the chosen set does not depend on the order of the input: the optimum of the
   * rearranged list is the same set of releases.
   */
  lemma OptimumIgnoresOrder(r: Ranking, f: seq<Facts>, g: seq<Facts>, p: seq<nat>, u: set<nat>, s: set<nat>,
                            t: set<nat>)
    requires Rearranged(f, g, p) && InRange(g, u) && DistinctIDs(g, u)
    requires Optimum(r, g, u, s) && Optimum(r, f, Image(p, u), t)
    ensures t == Image(p, s)
  {
    var back := set i | i in u && p[i] in t;
    assert Image(p, back) == t;
    assert Compatible(g, back);
    if back != s {
      assert Beats(r, g, s, back);
      BeatsRearranged(r, f, g, p, u, s, back);
      assert Image(p, s) <= Image(p, u) && Compatible(f, Image(p, s));
      if Image(p, s) == t {
        BeatsAsymmetric(r, f, t, t);
      } else {
        assert Beats(r, f, t, Image(p, s));
        BeatsAsymmetric(r, f, t, Image(p, s));
      }
    }
  }
}
