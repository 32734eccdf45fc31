/** Season routing from filesystem evidence, and season numbers for unlabelled containers. */
module Catalog {
  import Sets
  import opened Options

  /** What the files of one declared source folder say about season and episode numbering. */
  datatype Evidence = Evidence(
    folder: string, targetSeason: int, episodeOffset: int,
    sourceSeason: int, sourceSeasonKnown: bool,
    minEpisode: int, maxEpisode: int)

  datatype Projection = Unresolved | Resolved(season: int, episode: int, folder: string)

  datatype Query = OfSeason(season: int) | Holding(episode: int) | EndingAt(last: int)

  predicate Matches(q: Query, ev: Evidence) {
    match q
    case OfSeason(s) => ev.sourceSeasonKnown && ev.sourceSeason == s
    case Holding(e) => ev.minEpisode > 0 && ev.minEpisode <= e <= ev.maxEpisode
    case EndingAt(m) => ev.maxEpisode == m
  }

  function Select(q: Query, evidence: seq<Evidence>): (r: seq<Evidence>)
    ensures forall ev :: ev in r ==> ev in evidence && Matches(q, ev)
  {
    if evidence == [] then []
    else if Matches(q, evidence[0]) then [evidence[0]] + Select(q, evidence[1..])
    else Select(q, evidence[1..])
  }

  predicate Precedes(ev: Evidence, episode: int) {
    0 < ev.maxEpisode < episode
  }

  /** `m` is the greatest last episode observed before `episode`, or -1 when there is none. */
  ghost predicate IsNearest(evidence: seq<Evidence>, episode: int, m: int) {
    && (forall ev :: ev in evidence && Precedes(ev, episode) ==> ev.maxEpisode <= m)
    && (m == -1 || exists ev :: ev in evidence && Precedes(ev, episode) && ev.maxEpisode == m)
  }

  function Nearest(evidence: seq<Evidence>, episode: int): (m: int)
    ensures IsNearest(evidence, episode, m)
  {
    if evidence == [] then -1
    else
      var m := Nearest(evidence[1..], episode);
      assert evidence == [evidence[0]] + evidence[1..];
      if Precedes(evidence[0], episode) && evidence[0].maxEpisode > m then evidence[0].maxEpisode else m
  }

  function Through(ev: Evidence, episode: int): Projection {
    Resolved(ev.targetSeason, episode + ev.episodeOffset, ev.folder)
  }

  /** Where an observed episode number belongs. `seasons` are the Entry's declared seasons. */
  function Project(seasons: seq<int>, evidence: seq<Evidence>, parsedSeason: int, explicit: bool, episode: int)
    : Projection {
    if episode <= 0 then Unresolved
    else if parsedSeason > 0 || explicit then
      var matches := Select(OfSeason(parsedSeason), evidence);
      if |matches| == 1 then Through(matches[0], episode) else Resolved(parsedSeason, episode, "")
    else
      var holding := Select(Holding(episode), evidence);
      var last := Nearest(evidence, episode);
      var preceding := Select(EndingAt(last), evidence);
      if |holding| == 1 then Through(holding[0], episode)
      else if last != -1 && |preceding| == 1 then Through(preceding[0], episode)
      else if |evidence| == 1 then Through(evidence[0], episode)
      else if |seasons| == 1 then Resolved(seasons[0], episode, "")
      else Unresolved
  }

  lemma SelectSnoc(q: Query, s: seq<Evidence>, ev: Evidence)
    ensures Select(q, s + [ev]) == Select(q, s) + if Matches(q, ev) then [ev] else []
  {
    if s == [] {
    } else {
      assert (s + [ev])[1..] == s[1..] + [ev];
    }
  }

  method Collect(q: Query, evidence: seq<Evidence>) returns (matches: seq<Evidence>)
    ensures matches == Select(q, evidence)
  {
    matches := [];
    for i := 0 to |evidence|
      invariant matches == Select(q, evidence[..i])
    {
      assert evidence[..i + 1] == evidence[..i] + [evidence[i]];
      SelectSnoc(q, evidence[..i], evidence[i]);
      if Matches(q, evidence[i]) {
        matches := matches + [evidence[i]];
      }
    }
    assert evidence[..|evidence|] == evidence;
  }

  /** The folder whose last episode precedes this one most closely, and whether another one ends there too. */
  method NearestFolder(evidence: seq<Evidence>, episode: int) returns (chosen: Option<Evidence>, ambiguous: bool)
    ensures chosen == None <==> Nearest(evidence, episode) == -1
    ensures chosen.Some? ==>
      var ending := Select(EndingAt(Nearest(evidence, episode)), evidence);
      ending != [] && ending[0] == chosen.value && (ambiguous <==> |ending| > 1)
  {
    var best := -1;
    chosen, ambiguous := None, false;
    for i := 0 to |evidence|
      invariant IsNearest(evidence[..i], episode, best)
      invariant chosen == None <==> best == -1
      invariant chosen == None ==> !ambiguous
      invariant best == -1 || 0 < best < episode
      invariant chosen.Some? ==>
        Select(EndingAt(best), evidence[..i]) != [] && Select(EndingAt(best), evidence[..i])[0] == chosen.value
      invariant chosen.Some? ==> (ambiguous <==> |Select(EndingAt(best), evidence[..i])| > 1)
    {
      var ev := evidence[i];
      assert evidence[..i + 1] == evidence[..i] + [ev];
      SelectSnoc(EndingAt(best), evidence[..i], ev);
      if ev.maxEpisode <= 0 || ev.maxEpisode >= episode {
      } else if ev.maxEpisode > best {
        SelectSnoc(EndingAt(ev.maxEpisode), evidence[..i], ev);
        NothingBeyondNearest(evidence[..i], episode, best, ev.maxEpisode);
        best, chosen, ambiguous := ev.maxEpisode, Some(ev), false;
      } else if ev.maxEpisode == best {
        ambiguous := true;
      }
    }
    assert evidence[..|evidence|] == evidence;
    NearestUnique(evidence, episode, best, Nearest(evidence, episode));
  }

  method ProjectObservedEpisode(seasons: seq<int>, evidence: seq<Evidence>, parsedSeason: int, explicit: bool,
                                episode: int)
    returns (r: Projection)
    ensures r == Project(seasons, evidence, parsedSeason, explicit, episode)
  {
    if episode <= 0 {
      return Unresolved;
    }
    if parsedSeason > 0 || explicit {
      var matches := Collect(OfSeason(parsedSeason), evidence);
      if |matches| == 1 {
        return Through(matches[0], episode);
      }
      return Resolved(parsedSeason, episode, "");
    }
    var holding := Collect(Holding(episode), evidence);
    if |holding| == 1 {
      return Through(holding[0], episode);
    }
    var chosen, ambiguous := NearestFolder(evidence, episode);
    if chosen.Some? && !ambiguous {
      return Through(chosen.value, episode);
    }
    if |evidence| == 1 {
      return Through(evidence[0], episode);
    }
    if |seasons| == 1 {
      return Resolved(seasons[0], episode, "");
    }
    return Unresolved;
  }

  lemma NothingBeyondNearest(s: seq<Evidence>, episode: int, best: int, m: int)
    requires IsNearest(s, episode, best) && best < m && 0 < m < episode
    ensures Select(EndingAt(m), s) == []
  {
    var r := Select(EndingAt(m), s);
    if r != [] {
      assert r[0] in s && Precedes(r[0], episode);
    }
  }

  lemma NearestUnique(s: seq<Evidence>, episode: int, m: int, n: int)
    requires IsNearest(s, episode, m) && IsNearest(s, episode, n)
    requires (m == -1 || m > 0) && (n == -1 || n > 0)
    ensures m == n
  {
  }

  // ---- order independence -------------------------------------------------------------

  lemma {:induction false} SelectCounts(q: Query, s: seq<Evidence>, ev: Evidence)
    ensures multiset(Select(q, s))[ev] == if Matches(q, ev) then multiset(s)[ev] else 0
  {
    if s != [] {
      SelectCounts(q, s[1..], ev);
      assert s == [s[0]] + s[1..];
      if Matches(q, s[0]) {
        assert Select(q, s) == [s[0]] + Select(q, s[1..]);
      }
    }
  }

  lemma SelectPermuted(q: Query, a: seq<Evidence>, b: seq<Evidence>)
    requires multiset(a) == multiset(b)
    ensures |Select(q, a)| == |Select(q, b)|
    ensures |Select(q, a)| == 1 ==> Select(q, a) == Select(q, b)
  {
    forall ev ensures multiset(Select(q, a))[ev] == multiset(Select(q, b))[ev] {
      SelectCounts(q, a, ev);
      SelectCounts(q, b, ev);
    }
    assert multiset(Select(q, a)) == multiset(Select(q, b));
    assert |Select(q, a)| == |multiset(Select(q, a))| == |multiset(Select(q, b))|;
    if |Select(q, a)| == 1 {
      assert Select(q, a)[0] in multiset(Select(q, b));
    }
  }

  /** The order in which folders are listed never changes where an episode is routed. */
  lemma ProjectionIgnoresOrder(seasons: seq<int>, a: seq<Evidence>, b: seq<Evidence>, parsedSeason: int, explicit: bool,
                               episode: int)
    requires multiset(a) == multiset(b)
    ensures Project(seasons, a, parsedSeason, explicit, episode) == Project(seasons, b, parsedSeason, explicit, episode)
  {
    assert |a| == |multiset(a)| == |multiset(b)| == |b|;
    assert forall ev :: ev in a <==> ev in multiset(a);
    assert forall ev :: ev in b <==> ev in multiset(b);
    SelectPermuted(OfSeason(parsedSeason), a, b);
    SelectPermuted(Holding(episode), a, b);
    assert IsNearest(b, episode, Nearest(a, episode));
    NearestUnique(b, episode, Nearest(a, episode), Nearest(b, episode));
    SelectPermuted(EndingAt(Nearest(a, episode)), a, b);
    if |a| == 1 {
      assert a[0] in multiset(b);
      assert a == b;
    }
  }

  // ---- rigidity -----------------------------------------------------------------------

  /** Every declared folder contributes one, named, piece of evidence. */
  ghost predicate DistinctFolders(evidence: seq<Evidence>) {
    && (forall i :: 0 <= i < |evidence| ==> evidence[i].folder != "")
    && (forall i, j :: 0 <= i < |evidence| && 0 <= j < |evidence| && evidence[i].folder == evidence[j].folder ==>
         evidence[i] == evidence[j])
  }

  /** The offset a resolved projection applied: that of the folder it names, or none. */
  ghost predicate OffsetOf(evidence: seq<Evidence>, p: Projection, offset: int)
    requires p.Resolved?
  {
    if p.folder == "" then offset == 0
    else exists ev ::
      ev in evidence && ev.folder == p.folder && ev.episodeOffset == offset && ev.targetSeason == p.season
  }

  /** A resolved projection went through some folder's evidence, or kept the number as it was. */
  lemma ProjectionSource(seasons: seq<int>, evidence: seq<Evidence>, parsedSeason: int, explicit: bool, episode: int)
    returns (i: nat)
    requires Project(seasons, evidence, parsedSeason, explicit, episode).Resolved?
    ensures var p := Project(seasons, evidence, parsedSeason, explicit, episode);
            || (i < |evidence| && p == Through(evidence[i], episode))
            || (p.folder == "" && p.episode == episode)
  {
    var p := Project(seasons, evidence, parsedSeason, explicit, episode);
    var holding := Select(Holding(episode), evidence);
    var preceding := Select(EndingAt(Nearest(evidence, episode)), evidence);
    var matches := Select(OfSeason(parsedSeason), evidence);
    i := 0;
    if parsedSeason > 0 || explicit {
      if |matches| == 1 {
        assert matches[0] in evidence;
        i :| 0 <= i < |evidence| && evidence[i] == matches[0];
      }
    } else if |holding| == 1 {
      assert holding[0] in evidence;
      i :| 0 <= i < |evidence| && evidence[i] == holding[0];
    } else if Nearest(evidence, episode) != -1 && |preceding| == 1 {
      assert preceding[0] in evidence;
      i :| 0 <= i < |evidence| && evidence[i] == preceding[0];
    }
  }

  lemma ProjectionAppliesOffset(seasons: seq<int>, evidence: seq<Evidence>, parsedSeason: int, explicit: bool,
                                episode: int)
    requires DistinctFolders(evidence)
    requires Project(seasons, evidence, parsedSeason, explicit, episode).Resolved?
    ensures var p := Project(seasons, evidence, parsedSeason, explicit, episode);
            OffsetOf(evidence, p, p.episode - episode)
  {
    var i := ProjectionSource(seasons, evidence, parsedSeason, explicit, episode);
    if i < |evidence| {
      assert evidence[i] in evidence;
    }
  }

  /**
   * A range keeps its width under projection exactly when both ends get the same offset: always when the two
   * ends resolve to the same folder (or both to none), and when only one end names a folder exactly if that
   * folder's offset is zero.
   */
  lemma RangeIsRigid(seasons: seq<int>, evidence: seq<Evidence>, parsedSeason: int, explicit: bool, start: int,
                     end: int, k: int)
    requires DistinctFolders(evidence)
    requires Project(seasons, evidence, parsedSeason, explicit, start).Resolved?
    requires Project(seasons, evidence, parsedSeason, explicit, end).Resolved?
    ensures var p := Project(seasons, evidence, parsedSeason, explicit, start);
            var q := Project(seasons, evidence, parsedSeason, explicit, end);
            && (p.folder == q.folder ==> q.episode - p.episode == end - start)
            && (p.folder == q.folder != "" ==> p.season == q.season)
            && (p.folder != "" && q.folder == "" && OffsetOf(evidence, p, k) ==>
                 (q.episode - p.episode == end - start <==> k == 0))
            && (p.folder == "" && q.folder != "" && OffsetOf(evidence, q, k) ==>
                 (q.episode - p.episode == end - start <==> k == 0))
  {
    ProjectionAppliesOffset(seasons, evidence, parsedSeason, explicit, start);
    ProjectionAppliesOffset(seasons, evidence, parsedSeason, explicit, end);
  }

  /** The `i`th folder is the only one that matches. */
  ghost predicate Sole(q: Query, evidence: seq<Evidence>, i: nat) {
    i < |evidence| && Matches(q, evidence[i]) && forall j :: 0 <= j < |evidence| && j != i ==> !Matches(q, evidence[j])
  }

  /** The `i`th folder ends before the episode, and later than every other folder that does. */
  ghost predicate SoleNearest(evidence: seq<Evidence>, episode: int, i: nat) {
    && i < |evidence| && Precedes(evidence[i], episode)
    && forall j :: 0 <= j < |evidence| && j != i && Precedes(evidence[j], episode) ==>
         evidence[j].maxEpisode < evidence[i].maxEpisode
  }

  /** The `i`th folder is the only one whose files reach from before the episode to after it, or to it. */
  ghost predicate SoleHolder(evidence: seq<Evidence>, episode: int, i: nat) {
    && i < |evidence| && 0 < evidence[i].minEpisode <= episode <= evidence[i].maxEpisode
    && forall j :: 0 <= j < |evidence| && j != i ==>
         !(0 < evidence[j].minEpisode <= episode <= evidence[j].maxEpisode)
  }

  /** The `i`th folder is the only one whose own season is the given one. */
  ghost predicate SoleOfSeason(evidence: seq<Evidence>, season: int, i: nat) {
    && i < |evidence| && evidence[i].sourceSeasonKnown && evidence[i].sourceSeason == season
    && forall j :: 0 <= j < |evidence| && j != i ==>
         !(evidence[j].sourceSeasonKnown && evidence[j].sourceSeason == season)
  }

  /**
   * A seasonless episode belongs to the `i`th folder: the only one holding it, else the only nearest one before it,
   * else the only folder there is.
   */
  ghost predicate RoutesThrough(evidence: seq<Evidence>, episode: int, i: nat) {
    || SoleHolder(evidence, episode, i)
    || ((forall j: nat :: !SoleHolder(evidence, episode, j))
        && (SoleNearest(evidence, episode, i) ||
             ((forall j: nat :: !SoleNearest(evidence, episode, j)) && |evidence| == 1 && i == 0)))
  }

  /** The offset of the folder a seasonless episode belongs to, or none. */
  ghost function Shift(evidence: seq<Evidence>, episode: int): int {
    if i: nat :| RoutesThrough(evidence, episode, i) then (assert i < |evidence|; evidence[i].episodeOffset) else 0
  }

  lemma {:induction false} SelectNone(q: Query, evidence: seq<Evidence>)
    ensures Select(q, evidence) == [] <==> forall j :: 0 <= j < |evidence| ==> !Matches(q, evidence[j])
  {
    if evidence != [] {
      SelectNone(q, evidence[1..]);
      assert forall j :: 1 <= j < |evidence| ==> evidence[j] == evidence[1..][j - 1];
      assert forall j :: 0 <= j < |evidence| - 1 ==> evidence[1..][j] == evidence[j + 1];
    }
  }

  lemma {:induction false} SelectSole(q: Query, evidence: seq<Evidence>, i: nat)
    requires Sole(q, evidence, i)
    ensures Select(q, evidence) == [evidence[i]]
  {
    assert forall j :: 0 <= j < |evidence| - 1 ==> evidence[1..][j] == evidence[j + 1];
    if i == 0 {
      SelectNone(q, evidence[1..]);
    } else {
      SelectSole(q, evidence[1..], i - 1);
    }
  }

  lemma {:induction false} SoleOfSelect(q: Query, evidence: seq<Evidence>) returns (i: nat)
    requires |Select(q, evidence)| == 1
    ensures Sole(q, evidence, i)
  {
    assert forall j :: 1 <= j < |evidence| ==> evidence[j] == evidence[1..][j - 1];
    if Matches(q, evidence[0]) {
      SelectNone(q, evidence[1..]);
      i := 0;
    } else {
      i := SoleOfSelect(q, evidence[1..]);
      i := i + 1;
    }
  }

  /** The nearest folder before the episode is unique exactly if its last episode selects one folder. */
  lemma NearestSelects(evidence: seq<Evidence>, episode: int)
    ensures var m := Nearest(evidence, episode);
            && (forall i: nat :: SoleNearest(evidence, episode, i) ==>
                 m != -1 && Select(EndingAt(m), evidence) == [evidence[i]])
            && (m != -1 && |Select(EndingAt(m), evidence)| == 1 ==> exists i: nat :: SoleNearest(evidence, episode, i))
  {
    var m := Nearest(evidence, episode);
    forall i: nat | SoleNearest(evidence, episode, i)
      ensures m != -1 && Select(EndingAt(m), evidence) == [evidence[i]] {
      assert evidence[i] in evidence;
      assert Sole(EndingAt(m), evidence, i);
      SelectSole(EndingAt(m), evidence, i);
    }
    if m != -1 && |Select(EndingAt(m), evidence)| == 1 {
      var i := SoleOfSelect(EndingAt(m), evidence);
      assert SoleNearest(evidence, episode, i);
    }
  }

  /** Where a seasonless episode goes: through its folder, with that folder's offset, or into the only season. */
  lemma SeasonlessRouting(seasons: seq<int>, evidence: seq<Evidence>, episode: int)
    requires episode > 0
    ensures var p := Project(seasons, evidence, 0, false, episode);
            && (forall i: nat :: RoutesThrough(evidence, episode, i) ==>
                  var ev := evidence[i]; p == Resolved(ev.targetSeason, episode + ev.episodeOffset, ev.folder))
            && ((forall i: nat :: !RoutesThrough(evidence, episode, i)) ==>
                  p == if |seasons| == 1 then Resolved(seasons[0], episode, "") else Unresolved)
  {
    NearestSelects(evidence, episode);
    forall i: nat ensures SoleHolder(evidence, episode, i) <==> Sole(Holding(episode), evidence, i) {
      HolderIsSole(evidence, episode, i);
    }
    forall i: nat | Sole(Holding(episode), evidence, i) ensures Select(Holding(episode), evidence) == [evidence[i]] {
      SelectSole(Holding(episode), evidence, i);
    }
    if |Select(Holding(episode), evidence)| == 1 {
      var i := SoleOfSelect(Holding(episode), evidence);
      assert RoutesThrough(evidence, episode, i);
    } else if i: nat :| SoleNearest(evidence, episode, i) {
      assert RoutesThrough(evidence, episode, i);
    } else {
      assert |evidence| == 1 ==> RoutesThrough(evidence, episode, 0);
    }
  }

  lemma HolderIsSole(evidence: seq<Evidence>, episode: int, i: nat)
    ensures SoleHolder(evidence, episode, i) <==> Sole(Holding(episode), evidence, i)
  {
    assert forall j :: 0 <= j < |evidence| ==>
      (Matches(Holding(episode), evidence[j]) <==>
        0 < evidence[j].minEpisode <= episode <= evidence[j].maxEpisode);
  }

  /**
   * Where an episode of a named season goes: through the only folder of that season, with its offset, and otherwise
   * into the named season as it is.
   */
  lemma NamedRouting(seasons: seq<int>, evidence: seq<Evidence>, season: int, explicit: bool, episode: int)
    requires episode > 0 && (season > 0 || explicit)
    ensures var p := Project(seasons, evidence, season, explicit, episode);
            && (forall i: nat :: SoleOfSeason(evidence, season, i) ==>
                  var ev := evidence[i]; p == Resolved(ev.targetSeason, episode + ev.episodeOffset, ev.folder))
            && ((forall i: nat :: !SoleOfSeason(evidence, season, i)) ==> p == Resolved(season, episode, ""))
  {
    var q := OfSeason(season);
    forall i: nat ensures SoleOfSeason(evidence, season, i) <==> Sole(q, evidence, i) {
      assert forall j :: 0 <= j < |evidence| ==>
        (Matches(q, evidence[j]) <==> evidence[j].sourceSeasonKnown && evidence[j].sourceSeason == season);
    }
    forall i: nat | Sole(q, evidence, i) ensures Select(q, evidence) == [evidence[i]] {
      SelectSole(q, evidence, i);
    }
    if |Select(q, evidence)| == 1 {
      var i := SoleOfSelect(q, evidence);
      assert SoleOfSeason(evidence, season, i);
    }
  }

  lemma ShiftOfSeasonless(seasons: seq<int>, evidence: seq<Evidence>, parsedSeason: int, episode: int)
    requires parsedSeason <= 0 && Project(seasons, evidence, parsedSeason, false, episode).Resolved?
    ensures Project(seasons, evidence, parsedSeason, false, episode).episode == episode + Shift(evidence, episode)
  {
    assert Project(seasons, evidence, parsedSeason, false, episode) == Project(seasons, evidence, 0, false, episode);
    hide Project;
    SeasonlessRouting(seasons, evidence, episode);
  }

  lemma NamedKeepsWidth(seasons: seq<int>, evidence: seq<Evidence>, season: int, explicit: bool, start: int, end: int)
    requires (season > 0 || explicit) && start > 0 && end > 0
    ensures var p := Project(seasons, evidence, season, explicit, start);
            var q := Project(seasons, evidence, season, explicit, end);
            p.Resolved? && q.Resolved? && q.episode - p.episode == end - start
  {
  }

  /**
   * A range whose ends resolve keeps its width if and only if its release names a season, or its two ends belong to
   * folders with the same offset, an end without a folder counting as offset zero.
   */
  lemma RangeIsRigidIff(seasons: seq<int>, evidence: seq<Evidence>, parsedSeason: int, explicit: bool, start: int,
                        end: int)
    requires Project(seasons, evidence, parsedSeason, explicit, start).Resolved?
    requires Project(seasons, evidence, parsedSeason, explicit, end).Resolved?
    ensures var p := Project(seasons, evidence, parsedSeason, explicit, start);
            var q := Project(seasons, evidence, parsedSeason, explicit, end);
            q.episode - p.episode == end - start <==>
              parsedSeason > 0 || explicit || Shift(evidence, start) == Shift(evidence, end)
  {
    if parsedSeason > 0 || explicit {
      NamedKeepsWidth(seasons, evidence, parsedSeason, explicit, start, end);
    } else {
      ShiftOfSeasonless(seasons, evidence, parsedSeason, start);
      ShiftOfSeasonless(seasons, evidence, parsedSeason, end);
    }
  }

  /**
   * The failing case is real: three folders of season 1, the first end inside the only folder holding it, the
   * second held by all three and after none alone. The width shrinks from 7 to 2.
   */
  lemma MixedEndsCanShrink()
    ensures var evidence := [Evidence("A", 1, 5, 0, false, 1, 10), Evidence("B", 1, 0, 0, false, 8, 12),
      Evidence("C", 1, 0, 0, false, 8, 12)];
            && DistinctFolders(evidence)
            && Project([1], evidence, 0, false, 3) == Resolved(1, 8, "A")
            && Project([1], evidence, 0, false, 9) == Resolved(1, 9, "")
  {
  }

  // ---- season numbers -----------------------------------------------------------------

  /** How many parsed names vote for season `s`. A name without season evidence does not vote. */
  function Tally(votes: seq<Option<int>>, s: int): nat {
    if votes == [] then 0 else (if votes[0] == Some(s) then 1 else 0) + Tally(votes[1..], s)
  }

  lemma TallySnoc(votes: seq<Option<int>>, v: Option<int>, s: int)
    ensures Tally(votes + [v], s) == Tally(votes, s) + if v == Some(s) then 1 else 0
  {
    if votes == [] {
    } else {
      assert (votes + [v])[1..] == votes[1..] + [v];
    }
  }

  /** `s` has the most votes; among equals it is the least season. */
  ghost predicate IsMajority(votes: seq<Option<int>>, s: int) {
    && Tally(votes, s) > 0
    && forall t :: Tally(votes, t) > 0 ==>
         Tally(votes, t) < Tally(votes, s) || (Tally(votes, t) == Tally(votes, s) && s <= t)
  }

  lemma {:induction false} TallyPositive(votes: seq<Option<int>>, s: int)
    ensures Tally(votes, s) > 0 <==> Some(s) in votes
  {
    if votes != [] {
      TallyPositive(votes[1..], s);
      assert votes == [votes[0]] + votes[1..];
    }
  }

  method CountVotes(votes: seq<Option<int>>) returns (counts: map<int, nat>)
    ensures forall s :: s in counts <==> Some(s) in votes
    ensures forall s :: s in counts ==> counts[s] == Tally(votes, s)
  {
    counts := map[];
    for i := 0 to |votes|
      invariant forall s :: s in counts <==> Some(s) in votes[..i]
      invariant forall s :: s in counts ==> counts[s] == Tally(votes[..i], s)
    {
      assert votes[..i + 1] == votes[..i] + [votes[i]];
      forall s ensures Tally(votes[..i + 1], s) == Tally(votes[..i], s) + if votes[i] == Some(s) then 1 else 0 {
        TallySnoc(votes[..i], votes[i], s);
      }
      if votes[i].Some? {
        var s := votes[i].value;
        TallyPositive(votes[..i], s);
        counts := counts[s := (if s in counts then counts[s] else 0) + 1];
      }
    }
    assert votes[..|votes|] == votes;
  }

  /** The most counted season, the least one among equals. The counts are visited in arbitrary order. */
  method MostCounted(counts: map<int, nat>) returns (r: Option<int>)
    ensures r == None <==> counts.Keys == {}
    ensures r.Some? ==> r.value in counts
    ensures r.Some? ==> forall t :: t in counts ==>
      counts[t] < counts[r.value] || (counts[t] == counts[r.value] && r.value <= t)
  {
    var best: int := -1;
    r := None;
    var left := counts.Keys;
    while left != {}
      invariant left <= counts.Keys
      invariant r == None ==> left == counts.Keys && best == -1
      invariant r.Some? ==> r.value in counts && best == counts[r.value]
      invariant r.Some? ==> forall t :: t in counts && t !in left ==>
        counts[t] < best || (counts[t] == best && r.value <= t)
      decreases left
    {
      ghost var w := Sets.Member(left);
      var s :| s in left;
      left := left - {s};
      if counts[s] > best || (counts[s] == best && (r == None || s < r.value)) {
        r, best := Some(s), counts[s];
      }
    }
  }

  /** The season most names vote for. */
  method MajoritySeason(votes: seq<Option<int>>) returns (r: Option<int>)
    ensures r == None <==> forall s :: Some(s) !in votes
    ensures r.Some? ==> IsMajority(votes, r.value)
  {
    var counts := CountVotes(votes);
    r := MostCounted(counts);
    forall t ensures Tally(votes, t) > 0 <==> t in counts {
      TallyPositive(votes, t);
    }
    if r.Some? {
      var s := r.value;
      assert s in counts;
      assert Some(s) in votes;
    } else {
      forall s ensures Some(s) !in votes {
        assert s !in counts;
      }
    }
  }

  lemma MajorityUnique(votes: seq<Option<int>>, s: int, t: int)
    requires IsMajority(votes, s) && IsMajority(votes, t)
    ensures s == t
  {
  }

  /** Seasons taken before container `i` gets its number: all labelled ones, and earlier fallback ones. */
  ghost predicate Taken(known: seq<Option<int>>, out: seq<int>, i: nat, s: int)
    requires |out| == |known| && i <= |known|
  {
    Some(s) in known || exists j :: 0 <= j < i && known[j] == None && out[j] == s
  }

  /** Each unlabelled container has the least positive season not taken; labelled ones keep theirs. */
  ghost predicate Numbered(known: seq<Option<int>>, out: seq<int>, n: nat)
    requires |out| == |known| && n <= |known|
  {
    forall i :: 0 <= i < n ==>
      match known[i]
      case Some(s) => out[i] == s
      case None =>
        && out[i] >= 1 && !Taken(known, out, i, out[i])
        && (forall m :: 1 <= m < out[i] ==> Taken(known, out, i, m))
  }

  /** The least number from `next` on that is not in `used`. */
  method NextFree(used: set<int>, next: int) returns (r: int)
    requires next >= 1 && forall m :: 1 <= m < next ==> m in used
    ensures r >= next && r !in used && forall m :: 1 <= m < r ==> m in used
  {
    r := next;
    while r in used
      invariant next <= r
      invariant forall m :: 1 <= m < r ==> m in used
      decreases |set u | u in used && u >= r|
    {
      ghost var above, rest := (set u | u in used && u >= r), (set u | u in used && u >= r + 1);
      assert above == rest + {r} && r !in rest;
      r := r + 1;
    }
  }

  method KnownSeasons(known: seq<Option<int>>) returns (used: set<int>)
    ensures forall s :: s in used <==> Some(s) in known
  {
    used := {};
    for i := 0 to |known|
      invariant forall s :: s in used <==> Some(s) in known[..i]
    {
      assert known[..i + 1] == known[..i] + [known[i]];
      if known[i].Some? {
        used := used + {known[i].value};
      }
    }
    assert known[..|known|] == known;
  }

  /** Numbers the containers, given in path order, that carry no season evidence of their own. */
  method NumberContainers(known: seq<Option<int>>) returns (out: seq<int>)
    ensures |out| == |known| && Numbered(known, out, |known|)
  {
    var used := KnownSeasons(known);
    out := [];
    var next := 1;
    for i := 0 to |known|
      invariant |out| == i
      invariant NumberedSoFar(known, out)
      invariant next >= 1
      invariant forall s :: s in used <==> TakenSoFar(known, out, s)
      invariant forall m :: 1 <= m < next ==> m in used
    {
      if known[i].Some? {
        SoFarExtends(known, out, known[i].value);
        out := out + [known[i].value];
      } else {
        next := NextFree(used, next);
        SoFarExtends(known, out, next);
        out := out + [next];
        used := used + {next};
        next := next + 1;
      }
    }
    NumberedComplete(known, out);
  }

  ghost predicate TakenSoFar(known: seq<Option<int>>, out: seq<int>, s: int)
    requires |out| <= |known|
  {
    Some(s) in known || exists j :: 0 <= j < |out| && known[j] == None && out[j] == s
  }

  ghost predicate NumberedSoFar(known: seq<Option<int>>, out: seq<int>)
    requires |out| <= |known|
    decreases |out|
  {
    out == [] ||
    (var i := |out| - 1;
     && NumberedSoFar(known, out[..i])
     && match known[i]
        case Some(s) => out[i] == s
        case None =>
          && out[i] >= 1 && !TakenSoFar(known, out[..i], out[i])
          && (forall m :: 1 <= m < out[i] ==> TakenSoFar(known, out[..i], m)))
  }

  lemma SoFarExtends(known: seq<Option<int>>, before: seq<int>, v: int)
    requires |before| < |known|
    ensures (before + [v])[..|before|] == before
    ensures forall s :: TakenSoFar(known, before + [v], s) <==>
      TakenSoFar(known, before, s) || (known[|before|] == None && v == s)
  {
  }

  lemma {:induction false} NumberedComplete(known: seq<Option<int>>, out: seq<int>)
    requires |out| == |known| && NumberedSoFar(known, out)
    ensures Numbered(known, out, |known|)
  {
    forall i | 0 <= i < |known|
      ensures match known[i]
              case Some(s) => out[i] == s
              case None => out[i] >= 1 && !Taken(known, out, i, out[i]) && forall m :: 1 <= m < out[i] ==>
                Taken(known, out, i, m)
    {
      NumberedPrefix(known, out, i + 1);
      assert out[..i + 1][..i] == out[..i];
      forall s ensures Taken(known, out, i, s) <==> TakenSoFar(known, out[..i], s) {
        if TakenSoFar(known, out[..i], s) && Some(s) !in known {
          var j :| 0 <= j < i && known[j] == None && out[..i][j] == s;
          assert out[j] == s;
        }
        if Taken(known, out, i, s) && Some(s) !in known {
          var j :| 0 <= j < i && known[j] == None && out[j] == s;
          assert out[..i][j] == s;
        }
      }
    }
  }

  lemma {:induction false} NumberedPrefix(known: seq<Option<int>>, out: seq<int>, n: nat)
    requires n <= |out| <= |known| && NumberedSoFar(known, out)
    ensures NumberedSoFar(known, out[..n])
    decreases |out|
  {
    if n == |out| {
      assert out[..n] == out;
    } else {
      NumberedPrefix(known, out[..|out| - 1], n);
      assert out[..|out| - 1][..n] == out[..n];
    }
  }

  /** Fallback seasons strictly increase along the path order. */
  lemma NumbersIncrease(known: seq<Option<int>>, out: seq<int>, i: nat, j: nat)
    requires |out| == |known| && Numbered(known, out, |known|)
    requires i < j < |known| && known[i] == None && known[j] == None
    ensures out[i] < out[j]
  {
    assert Taken(known, out, j, out[i]);
    if out[j] < out[i] {
      assert Taken(known, out, i, out[j]);
      assert Taken(known, out, j, out[j]);
    }
  }

  /** The numbering is determined by the labels alone. */
  lemma {:induction false} NumberingUnique(known: seq<Option<int>>, a: seq<int>, b: seq<int>, n: nat)
    requires |a| == |b| == |known| && n <= |known|
    requires Numbered(known, a, |known|) && Numbered(known, b, |known|)
    ensures a[..n] == b[..n]
  {
    if n > 0 {
      var i := n - 1;
      NumberingUnique(known, a, b, i);
      forall s ensures Taken(known, a, i, s) <==> Taken(known, b, i, s) {
      }
      assert a[i] == b[i];
      assert a[..n] == a[..i] + [a[i]] && b[..n] == b[..i] + [b[i]];
    }
  }
}
