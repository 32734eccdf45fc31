/** Logical episode keys: inclusive episode ranges inside one season of one Entry. */
module Episode {

  datatype Key = Key(entryKey: string, season: int, episodeStart: int, episodeEnd: int, revision: int, special: bool)
  {
    /** The normalized inclusive end of the range. */
    function End(): int {
      if episodeEnd < episodeStart then episodeStart else episodeEnd
    }

    predicate Contains(episode: int) {
      episodeStart > 0 && episodeStart <= episode <= End()
    }

    predicate Overlaps(other: Key) {
      && entryKey == other.entryKey && season == other.season && special == other.special
      && episodeStart > 0 && other.episodeStart > 0
      && episodeStart <= other.End() && other.episodeStart <= End()
    }

    predicate Covers(other: Key) {
      && entryKey == other.entryKey && season == other.season && special == other.special
      && other.episodeStart > 0 && Contains(other.episodeStart) && Contains(other.End())
    }

    function Width(): nat {
      if episodeStart <= 0 then 0 else End() - episodeStart + 1
    }

    /** The episodes the key addresses. */
    ghost function Episodes(): set<int> {
      set e | episodeStart <= e <= End() && Contains(e)
    }
  }

  predicate SameSeason(a: Key, b: Key) {
    a.entryKey == b.entryKey && a.season == b.season && a.special == b.special
  }

  /** Overlap is exactly sharing an episode of the same season. */
  lemma OverlapsIffShares(a: Key, b: Key)
    ensures a.Overlaps(b) <==> SameSeason(a, b) && a.Episodes() * b.Episodes() != {}
    ensures a.Overlaps(b) <==> b.Overlaps(a)
  {
    if a.Overlaps(b) {
      var e := if a.episodeStart < b.episodeStart then b.episodeStart else a.episodeStart;
      assert a.Contains(e) && b.Contains(e);
      assert e in a.Episodes() * b.Episodes();
    }
    if SameSeason(a, b) && a.Episodes() * b.Episodes() != {} {
      var e :| e in a.Episodes() * b.Episodes();
      assert a.Contains(e) && b.Contains(e);
    }
  }

  /** Covering is exactly containing every episode of a non-empty key of the same season. */
  lemma CoversIffContainsAll(a: Key, b: Key)
    ensures a.Covers(b) <==> SameSeason(a, b) && b.Episodes() != {} && b.Episodes() <= a.Episodes()
  {
    if b.episodeStart > 0 {
      assert b.Contains(b.episodeStart) && b.Contains(b.End());
      assert b.episodeStart in b.Episodes() && b.End() in b.Episodes();
    }
    if a.Covers(b) {
      forall e | e in b.Episodes() ensures e in a.Episodes() { assert a.Contains(e); }
    }
    if SameSeason(a, b) && b.Episodes() != {} && b.Episodes() <= a.Episodes() {
      var e :| e in b.Episodes();
      assert b.Contains(e);
      assert b.episodeStart in a.Episodes() && b.End() in a.Episodes();
    }
  }

  /** The integers lo..hi, counted. */
  lemma {:induction false} RangeSize(lo: int, hi: int, s: set<int>)
    requires lo <= hi + 1
    requires forall e :: e in s <==> lo <= e <= hi
    ensures |s| == hi - lo + 1
    decreases hi - lo + 1
  {
    if lo <= hi {
      RangeSize(lo, hi - 1, s - {hi});
      assert s == (s - {hi}) + {hi};
    } else {
      assert forall e :: e !in s;
      assert s == {};
    }
  }

  /** Width counts the addressed episodes. */
  lemma WidthCountsEpisodes(k: Key)
    ensures |k.Episodes()| == k.Width()
  {
    if k.episodeStart > 0 {
      assert forall e :: k.Contains(e) <==> e in k.Episodes();
      RangeSize(k.episodeStart, k.End(), k.Episodes());
    } else {
      assert k.Episodes() == {};
    }
  }
}
