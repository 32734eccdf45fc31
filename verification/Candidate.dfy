/** Candidates, their evaluation, and the release-quality order. */
module Candidate {
  import Text
  import Catalog
  import Options
  import Episode

  const MEDIA_MOVIE := "movie"

  datatype Decision = Selected | Filtered | Duplicate | Invalid | Superseded

  /** The release components selection reads; `title` stands for everything it only passes on. */
  datatype Release = Release(
    title: string, mediaType: string, publishedAt: int,
    season: int, seasonExplicit: bool, episodeStart: int, episodeEnd: int, version: int)

  /** What evaluation establishes about one release. Selection never changes it. */
  datatype Facts = Facts(
    mediaType: string, entryKey: string, sourceID: string, release: Release,
    sourceEpisode: Episode.Key, episode: Episode.Key, sourceFolder: string, acquisitionID: string)

  datatype Candidate = Candidate(facts: Facts, decision: Decision, reason: string)

  datatype Entry = Entry(key: string, mediaType: string, seasons: seq<int>)

  /** Entry filters (a non-empty reason rejects) and the acquisition identity of a release. */
  datatype Rules = Rules(reject: (Entry, Release) -> string, identify: Release -> Options.Option<string>)

  /** Continuity score and source priority (0 for an unknown source). */
  datatype Ranking = Ranking(score: Facts -> int, priority: string -> int)

  const NO_EPISODE := Episode.Key("", 0, 0, 0, 0, false)

  function LastEpisode(r: Release): int {
    if r.episodeEnd < r.episodeStart then r.episodeStart else r.episodeEnd
  }

  function Evaluate(rules: Rules, w: Entry, sourceID: string, r: Release, evidence: seq<Catalog.Evidence>): Candidate {
    var blank := Facts(w.mediaType, w.key, sourceID, r, NO_EPISODE, NO_EPISODE, "", "");
    var reject := rules.reject(w, r);
    if reject != "" then Candidate(blank, Filtered, reject)
    else if w.mediaType == MEDIA_MOVIE then
      var key := Episode.Key(w.key, 0, 0, 0, 0, false);
      Identified(rules, blank.(sourceEpisode := key, episode := key))
    else if r.episodeStart <= 0 then Candidate(blank, Invalid, "release has no episode identity")
    else
      var end := LastEpisode(r);
      var first := Catalog.Project(w.seasons, evidence, r.season, r.seasonExplicit, r.episodeStart);
      if first.Unresolved? || first.episode <= 0 then
        Candidate(blank, Invalid, "seasonless release cannot be mapped unambiguously to a declared source folder")
      else
        var last := Catalog.Project(w.seasons, evidence, r.season, r.seasonExplicit, end);
        if last.Unresolved? || last.episode <= 0 || last.season != first.season
           || (first.folder != "" && last.folder != "" && first.folder != last.folder) then
          Candidate(blank, Invalid, "episode mapping crosses or cannot resolve a target season")
        else
          var sourceSeason := if r.season <= 0 && !r.seasonExplicit then 1 else r.season;
          Identified(rules, blank.(
            sourceEpisode := Episode.Key(w.key, sourceSeason, r.episodeStart, end, r.version, sourceSeason == 0),
            episode := Episode.Key(w.key, first.season, first.episode, last.episode, r.version, first.season == 0),
            sourceFolder := if first.folder == "" then last.folder else first.folder))
  }

  function Identified(rules: Rules, f: Facts): Candidate {
    match rules.identify(f.release)
    case None => Candidate(f, Invalid, "release has no acquisition identity")
    case Some(id) => Candidate(f.(acquisitionID := id), Selected, "")
  }

  /** Selectable facts: a movie, or a series candidate with a positive first episode. */
  predicate Ready(f: Facts) {
    if f.mediaType == MEDIA_MOVIE then f.episode.episodeStart == 0 else f.episode.episodeStart > 0
  }

  /**
   * A selected candidate is ready, belongs to the Entry's own key and identity, and its target season is special
   * exactly when it is season 0.
   */
  lemma EvaluatedIsReady(rules: Rules, w: Entry, sourceID: string, r: Release, evidence: seq<Catalog.Evidence>)
    ensures var c := Evaluate(rules, w, sourceID, r, evidence);
            c.decision == Selected ==>
              && Ready(c.facts) && c.facts.entryKey == c.facts.episode.entryKey == w.key &&
                   c.facts.mediaType == w.mediaType
              && rules.identify(r) == Options.Some(c.facts.acquisitionID)
              && (w.mediaType != MEDIA_MOVIE ==> (c.facts.episode.special <==> c.facts.episode.season == 0))
  {
  }

  /** Both ends of the range go to one season, at positive numbers, and not through two different folders. */
  predicate RangeResolves(p: Catalog.Projection, q: Catalog.Projection) {
    && p.Resolved? && q.Resolved? && p.episode > 0 && q.episode > 0 && p.season == q.season
    && (p.folder == "" || q.folder == "" || p.folder == q.folder)
  }

  /**
   * When a release is selected. It is filtered exactly if a filter rejects it; any other release is selected if and
   * only if it has an identity and is a movie or has a range whose ends, the second at least the first, resolve
   * together.
   */
  lemma EvaluationMeaning(rules: Rules, w: Entry, sourceID: string, r: Release, evidence: seq<Catalog.Evidence>)
    ensures var c := Evaluate(rules, w, sourceID, r, evidence);
            var end := if r.episodeEnd >= r.episodeStart then r.episodeEnd else r.episodeStart;
            var p := Catalog.Project(w.seasons, evidence, r.season, r.seasonExplicit, r.episodeStart);
            var q := Catalog.Project(w.seasons, evidence, r.season, r.seasonExplicit, end);
            && (c.decision == Filtered <==> rules.reject(w, r) != "")
            && (c.decision == Filtered ==> c.reason == rules.reject(w, r))
            && (c.decision == Selected <==>
                  && rules.reject(w, r) == "" && rules.identify(r).Some?
                  && (w.mediaType == MEDIA_MOVIE || (r.episodeStart > 0 && RangeResolves(p, q))))
            && (c.decision != Selected && c.decision != Filtered ==> c.decision == Invalid)
  {
    hide Catalog.Project;
    assert rules.identify(r).None? || rules.identify(r).Some?;
  }

  /**
   * As what a release is selected. The target key has the season and numbers of the resolved ends and the release's
   * revision; the source key has the release's own season, which is 1 if it names none, and its own numbers.
   */
  lemma SelectedKeys(rules: Rules, w: Entry, sourceID: string, r: Release, evidence: seq<Catalog.Evidence>)
    requires w.mediaType != MEDIA_MOVIE && Evaluate(rules, w, sourceID, r, evidence).decision == Selected
    ensures var f := Evaluate(rules, w, sourceID, r, evidence).facts;
            var end := if r.episodeEnd >= r.episodeStart then r.episodeEnd else r.episodeStart;
            var p := Catalog.Project(w.seasons, evidence, r.season, r.seasonExplicit, r.episodeStart);
            var q := Catalog.Project(w.seasons, evidence, r.season, r.seasonExplicit, end);
            && f.sourceID == sourceID && f.release == r && RangeResolves(p, q)
            && f.episode == Episode.Key(w.key, p.season, p.episode, q.episode, r.version, p.season == 0)
            && var season := if r.season > 0 || r.seasonExplicit then r.season else 1;
            && f.sourceEpisode == Episode.Key(w.key, season, r.episodeStart, end, r.version, season == 0)
            && (f.sourceFolder == "" <==> p.folder == q.folder == "")
            && (f.sourceFolder != "" ==> f.sourceFolder in {p.folder, q.folder})
  {
    hide Catalog.Project;
  }

  /**
   * A selected range keeps the width of the release's own range unless only one of its ends is routed through a
   * folder, and then exactly when that folder's offset is zero. Over the evidence: it keeps it if and only if the
   * release names a season or both ends belong to folders of one offset, no folder counting as offset zero.
   */
  lemma EvaluationKeepsWidth(rules: Rules, w: Entry, sourceID: string, r: Release, evidence: seq<Catalog.Evidence>,
                             k: int)
    requires Catalog.DistinctFolders(evidence) && w.mediaType != MEDIA_MOVIE
    requires Evaluate(rules, w, sourceID, r, evidence).decision == Selected
    ensures var f := Evaluate(rules, w, sourceID, r, evidence).facts;
            var p := Catalog.Project(w.seasons, evidence, r.season, r.seasonExplicit, r.episodeStart);
            var q := Catalog.Project(w.seasons, evidence, r.season, r.seasonExplicit, LastEpisode(r));
            var routed := if p.folder == "" then q else p;
            var sameShift := Catalog.Shift(evidence, r.episodeStart) == Catalog.Shift(evidence, LastEpisode(r));
            var rigid := f.episode.episodeEnd - f.episode.episodeStart == f.sourceEpisode.Width() - 1;
            && f.sourceFolder == routed.folder
            && (p.folder == q.folder ==> rigid)
            && (p.folder != q.folder && Catalog.OffsetOf(evidence, routed, k) ==> (rigid <==> k == 0))
            && (rigid <==> r.season > 0 || r.seasonExplicit || sameShift)
  {
    Catalog.RangeIsRigidIff(w.seasons, evidence, r.season, r.seasonExplicit, r.episodeStart, LastEpisode(r));
    Catalog.RangeIsRigid(w.seasons, evidence, r.season, r.seasonExplicit, r.episodeStart, LastEpisode(r), k);
  }

  // ---- the release-quality order ------------------------------------------------------

  /** Score, revision, source priority, publication instant, then acquisition ID. */
  predicate Better(r: Ranking, a: Facts, b: Facts) {
    if r.score(a) != r.score(b) then r.score(a) > r.score(b)
    else if a.episode.revision != b.episode.revision then a.episode.revision > b.episode.revision
    else if r.priority(a.sourceID) != r.priority(b.sourceID) then r.priority(a.sourceID) < r.priority(b.sourceID)
    else if a.release.publishedAt != b.release.publishedAt then a.release.publishedAt > b.release.publishedAt
    else Text.Less(a.acquisitionID, b.acquisitionID)
  }

  /** Better is a strict total order up to candidates that agree on every ranked field. */
  lemma BetterTrichotomy(r: Ranking, a: Facts, b: Facts)
    ensures !(Better(r, a, b) && Better(r, b, a))
    ensures !Better(r, a, b) && !Better(r, b, a) ==> a.acquisitionID == b.acquisitionID
  {
    Text.Trichotomy(a.acquisitionID, b.acquisitionID);
  }

  lemma BetterTransitive(r: Ranking, a: Facts, b: Facts, c: Facts)
    ensures Better(r, a, b) && Better(r, b, c) ==> Better(r, a, c)
    ensures !Better(r, b, a) && Better(r, b, c) ==> Better(r, a, c)
    ensures Better(r, a, b) && !Better(r, c, b) ==> Better(r, a, c)
  {
    Text.Trichotomy(a.acquisitionID, b.acquisitionID);
    Text.Trichotomy(b.acquisitionID, c.acquisitionID);
    if Text.Less(a.acquisitionID, b.acquisitionID) && Text.Less(b.acquisitionID, c.acquisitionID) {
      Text.Transitive(a.acquisitionID, b.acquisitionID, c.acquisitionID);
    }
  }
}
