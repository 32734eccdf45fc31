/** The stable sorts selection relies on, over positions of a candidate list. */
module SelectionSort {
  import Candidate
  import opened SelectionOrder
  import opened Sets

  /** `Quality` sorts by Better alone, `Rank` breaks its ties by position, `Interval` is the scheduling order. */
  datatype SortKey = Quality | Rank | Interval

  predicate Less(k: SortKey, r: Ranking, f: seq<Facts>, i: nat, j: nat)
    requires i < |f| && j < |f|
  {
    match k
    case Quality => Candidate.Better(r, f[i], f[j])
    case Rank => Before(r, f, i, j)
    case Interval =>
      var a, b := f[i].episode, f[j].episode;
      if a.End() != b.End() then a.End() < b.End()
      else if a.episodeStart != b.episodeStart then a.episodeStart < b.episodeStart
      else Candidate.Better(r, f[i], f[j])
  }

  predicate Positions(f: seq<Facts>, s: seq<nat>) {
    forall a :: 0 <= a < |s| ==> s[a] < |f|
  }

  ghost function SetOf(s: seq<nat>): set<nat> {
    set i | i in s
  }

  /** No later element is strictly less than an earlier one. */
  ghost predicate InOrder(k: SortKey, r: Ranking, f: seq<Facts>, s: seq<nat>)
    requires Positions(f, s)
  {
    forall a, b :: 0 <= a < b < |s| ==> !Less(k, r, f, s[b], s[a])
  }

  function Insert(k: SortKey, r: Ranking, f: seq<Facts>, x: nat, s: seq<nat>): (t: seq<nat>)
    requires Positions(f, s) && x < |f|
    ensures Positions(f, t) && multiset(t) == multiset(s) + multiset{x} && |t| == |s| + 1
  {
    if s == [] || !Less(k, r, f, s[0], x) then [x] + s
    else
      assert s == [s[0]] + s[1..];
      [s[0]] + Insert(k, r, f, x, s[1..])
  }

  /** The stable sort of `s`: an element is placed before the equals that followed it. */
  function StableSort(k: SortKey, r: Ranking, f: seq<Facts>, s: seq<nat>): (t: seq<nat>)
    requires Positions(f, s)
    ensures Positions(f, t) && multiset(t) == multiset(s) && |t| == |s|
  {
    if s == [] then []
    else
      assert s == [s[0]] + s[1..];
      Insert(k, r, f, s[0], StableSort(k, r, f, s[1..]))
  }

  lemma LessWeakOrder(k: SortKey, r: Ranking, f: seq<Facts>, a: nat, b: nat, c: nat)
    requires a < |f| && b < |f| && c < |f|
    ensures !(Less(k, r, f, a, b) && Less(k, r, f, b, a))
    ensures !Less(k, r, f, b, a) && !Less(k, r, f, c, b) ==> !Less(k, r, f, c, a)
  {
    Candidate.BetterTrichotomy(r, f[a], f[b]);
    Candidate.BetterTransitive(r, f[c], f[a], f[b]);
    Candidate.BetterTransitive(r, f[c], f[b], f[a]);
    if k == Rank {
      BeforeTotal(r, f, a, b);
      BeforeTotal(r, f, b, c);
      BeforeTotal(r, f, a, c);
      if a != b && b != c && Before(r, f, a, b) && Before(r, f, b, c) {
        BeforeTransitive(r, f, a, b, c);
      }
    }
  }

  lemma {:induction false} InsertInOrder(k: SortKey, r: Ranking, f: seq<Facts>, x: nat, s: seq<nat>)
    requires Positions(f, s) && x < |f| && InOrder(k, r, f, s)
    ensures InOrder(k, r, f, Insert(k, r, f, x, s))
  {
    if s == [] {
    } else if !Less(k, r, f, s[0], x) {
      forall b | 0 <= b < |s| ensures !Less(k, r, f, s[b], x) {
        LessWeakOrder(k, r, f, x, s[0], s[b]);
      }
    } else {
      var rest := Insert(k, r, f, x, s[1..]);
      InsertInOrder(k, r, f, x, s[1..]);
      LessWeakOrder(k, r, f, s[0], x, x);
      forall b | 0 <= b < |rest| ensures !Less(k, r, f, rest[b], s[0]) {
        assert rest[b] in multiset(rest);
        if rest[b] != x {
          assert rest[b] in s[1..];
          var j :| 0 <= j < |s[1..]| && s[1..][j] == rest[b];
          assert s[j + 1] == rest[b];
        }
      }
    }
  }

  lemma {:induction false} SortInOrder(k: SortKey, r: Ranking, f: seq<Facts>, s: seq<nat>)
    requires Positions(f, s)
    ensures InOrder(k, r, f, StableSort(k, r, f, s))
  {
    if s != [] {
      SortInOrder(k, r, f, s[1..]);
      InsertInOrder(k, r, f, s[0], StableSort(k, r, f, s[1..]));
    }
  }

  lemma NoRepeatsByCount(s: seq<nat>)
    ensures NoRepeats(s) <==> forall x :: multiset(s)[x] <= 1
  {
    if NoRepeats(s) {
      forall x ensures multiset(s)[x] <= 1 {
        CountOnce(s, x);
      }
    }
    if !NoRepeats(s) {
      var a, b :| 0 <= a < b < |s| && s[a] == s[b];
      assert s == s[..b] + [s[b]] + s[b + 1..];
      assert s[..b][a] == s[b];
      assert multiset(s[..b])[s[b]] >= 1;
      assert multiset(s)[s[b]] >= 2;
    }
  }

  lemma {:induction false} CountOnce(s: seq<nat>, x: nat)
    requires NoRepeats(s)
    ensures multiset(s)[x] <= 1
  {
    if s != [] {
      assert s == [s[0]] + s[1..];
      CountOnce(s[1..], x);
      if x == s[0] {
        assert x !in s[1..];
      }
    }
  }

  /** Sorting keeps the positions, without repeats if there were none. */
  lemma SortKeepsElements(k: SortKey, r: Ranking, f: seq<Facts>, s: seq<nat>)
    requires Positions(f, s)
    ensures SetOf(StableSort(k, r, f, s)) == SetOf(s)
    ensures NoRepeats(s) ==> NoRepeats(StableSort(k, r, f, s))
  {
    var t := StableSort(k, r, f, s);
    forall x: nat ensures x in t <==> x in s {
      assert x in t <==> x in multiset(t);
      assert x in s <==> x in multiset(s);
    }
    NoRepeatsByCount(s);
    NoRepeatsByCount(t);
  }

  /** On increasing positions the stable quality sort is the rank sort: ties keep the earlier candidate first. */
  lemma {:induction false} QualitySortIsRankSort(r: Ranking, f: seq<Facts>, s: seq<nat>)
    requires Positions(f, s) && forall a, b :: 0 <= a < b < |s| ==> s[a] < s[b]
    ensures StableSort(Quality, r, f, s) == StableSort(Rank, r, f, s)
  {
    if s != [] {
      QualitySortIsRankSort(r, f, s[1..]);
      var t := StableSort(Rank, r, f, s[1..]);
      forall a | 0 <= a < |t| ensures s[0] < t[a] {
        assert t[a] in multiset(t);
        assert t[a] in s[1..];
      }
      QualityInsertIsRankInsert(r, f, s[0], t);
    }
  }

  lemma {:induction false} QualityInsertIsRankInsert(r: Ranking, f: seq<Facts>, x: nat, t: seq<nat>)
    requires Positions(f, t) && x < |f| && forall a :: 0 <= a < |t| ==> x < t[a]
    ensures Insert(Quality, r, f, x, t) == Insert(Rank, r, f, x, t)
  {
    if t != [] {
      Candidate.BetterTrichotomy(r, f[t[0]], f[x]);
      assert Less(Quality, r, f, t[0], x) <==> Less(Rank, r, f, t[0], x);
      QualityInsertIsRankInsert(r, f, x, t[1..]);
    }
  }

  /** A rank-sorted list without repeats is strictly ranked. */
  lemma RankedStrictly(r: Ranking, f: seq<Facts>, s: seq<nat>)
    requires Positions(f, s) && NoRepeats(s)
    ensures var t := StableSort(Rank, r, f, s);
            NoRepeats(t) && SetOf(t) == SetOf(s) && forall a, b :: 0 <= a < b < |t| ==> Before(r, f, t[a], t[b])
  {
    var t := StableSort(Rank, r, f, s);
    SortInOrder(Rank, r, f, s);
    SortKeepsElements(Rank, r, f, s);
    forall a, b | 0 <= a < b < |t| ensures Before(r, f, t[a], t[b]) {
      BeforeTotal(r, f, t[a], t[b]);
      assert !Less(Rank, r, f, t[b], t[a]);
    }
  }
}
