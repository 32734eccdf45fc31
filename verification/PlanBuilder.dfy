/** Building candidate plans from observed feeds and from targeted searches. */
module PlanBuilder {
  import Catalog
  import opened Candidate
  import opened SelectionOrder
  import opened CandidatePlan
  import PlanProperties

  const DUPLICATE_REASON := "duplicate release in plan"

  /** Configured content sources: whether each is enabled. */
  type Sources = map<string, bool>

  datatype BuildError = NoError | SourceNotFound(id: string) | SourceDisabled(id: string)

  /** Everything a plan is built from besides the releases. `matches` is title routing. */
  datatype Context = Context(
    rules: Rules, ranking: Ranking, sources: Sources,
    matches: (Entry, Release) -> bool, evidence: map<string, seq<Catalog.Evidence>>)

  function EvidenceOf(x: Context, w: Entry): seq<Catalog.Evidence> {
    if w.key in x.evidence then x.evidence[w.key] else []
  }

  function MediaMismatch(w: Entry, r: Release): bool {
    r.mediaType != "" && r.mediaType != w.mediaType
  }

  // ---- duplicate suppression ------------------------------------------------------------

  predicate SelectedID(c: seq<Candidate>, id: string) {
    exists j :: 0 <= j < |c| && c[j].decision == Selected && c[j].facts.acquisitionID == id
  }

  function Admit(c: seq<Candidate>, raw: Candidate): seq<Candidate> {
    if raw.decision == Selected && SelectedID(c, raw.facts.acquisitionID)
    then c + [raw.(decision := Duplicate, reason := DUPLICATE_REASON)]
    else c + [raw]
  }

  /** The plan after admitting evaluated candidates one by one. */
  function AdmitAll(c: seq<Candidate>, raws: seq<Candidate>): seq<Candidate>
    decreases |raws|
  {
    if raws == [] then c else AdmitAll(Admit(c, raws[0]), raws[1..])
  }

  lemma {:induction false} AdmitInTwo(c: seq<Candidate>, a: seq<Candidate>, b: seq<Candidate>)
    ensures AdmitAll(c, a + b) == AdmitAll(AdmitAll(c, a), b)
    decreases a
  {
    if a == [] {
      assert a + b == b;
    } else {
      assert (a + b)[1..] == a[1..] + b;
      AdmitInTwo(Admit(c, a[0]), a[1..], b);
    }
  }

  ghost predicate SelectableOne(c: Candidate) {
    c.decision == Selected ==> Ready(c.facts) && c.facts.entryKey == c.facts.episode.entryKey
  }

  /**
   * Admission keeps every candidate's facts in order, keeps exactly the first selected release of each
   * acquisition ID selected, and leaves other decisions alone.
   */
  lemma {:induction false} AdmissionKeepsFirst(c: seq<Candidate>, raws: seq<Candidate>)
    requires PlanProperties.DistinctSelected(c) && Selectable(c) && forall k :: 0 <= k < |raws| ==>
      SelectableOne(raws[k])
    ensures var d := AdmitAll(c, raws);
            && |d| == |c| + |raws| && d[..|c|] == c
            && PlanProperties.DistinctSelected(d) && Selectable(d)
            && (forall k :: 0 <= k < |raws| ==> d[|c| + k].facts == raws[k].facts)
            && (forall k :: 0 <= k < |raws| && raws[k].decision != Selected ==> d[|c| + k] == raws[k])
            && (forall k :: 0 <= k < |raws| && raws[k].decision == Selected ==>
                 SelectedID(d[..|c| + k + 1], raws[k].facts.acquisitionID))
            && (forall k :: 0 <= k < |raws| && raws[k].decision == Selected ==>
                 d[|c| + k] in {raws[k], raws[k].(decision := Duplicate, reason := DUPLICATE_REASON)})
    decreases raws
  {
    if raws == [] {
      assert AdmitAll(c, raws)[..|c|] == c;
    } else {
      var e := Admit(c, raws[0]);
      var d := AdmitAll(e, raws[1..]);
      assert PlanProperties.DistinctSelected(e);
      AdmissionKeepsFirst(e, raws[1..]);
      assert e == d[..|e|] && c == e[..|c|];
      assert d[..|c|] == c;
      assert d[|c|] == e[|c|];
      forall k | 0 <= k < |raws|
        ensures d[|c| + k].facts == raws[k].facts
        ensures raws[k].decision != Selected ==> d[|c| + k] == raws[k]
        ensures raws[k].decision == Selected ==> SelectedID(d[..|c| + k + 1], raws[k].facts.acquisitionID)
        ensures raws[k].decision == Selected ==>
          d[|c| + k] in {raws[k], raws[k].(decision := Duplicate, reason := DUPLICATE_REASON)}
      {
        if k == 0 {
          assert d[..|c| + 1] == e;
          if raws[0].decision == Selected {
            AdmittedID(c, raws[0]);
          }
        } else {
          assert raws[1..][k - 1] == raws[k];
          assert |e| + (k - 1) == |c| + k;
        }
      }
    }
  }

  lemma AdmittedID(c: seq<Candidate>, raw: Candidate)
    requires raw.decision == Selected
    ensures SelectedID(Admit(c, raw), raw.facts.acquisitionID)
  {
    var e := Admit(c, raw);
    if SelectedID(c, raw.facts.acquisitionID) {
      var j :| 0 <= j < |c| && c[j].decision == Selected && c[j].facts.acquisitionID == raw.facts.acquisitionID;
      assert e[j] == c[j];
    } else {
      assert e[|c|] == raw;
    }
  }

  // ---- what is evaluated ------------------------------------------------------------------

  /** Targeted search: every release is kept, media mismatches as invalid. */
  function BoundRaw(x: Context, w: Entry, sourceID: string, r: Release): Candidate {
    if MediaMismatch(w, r)
    then Candidate(Facts(w.mediaType, w.key, sourceID, r, NO_EPISODE, NO_EPISODE, "", ""), Invalid,
      "release media type does not match bound entry")
    else Evaluate(x.rules, w, sourceID, r, EvidenceOf(x, w))
  }

  function BoundReleases(x: Context, w: Entry, sourceID: string, rs: seq<Release>): seq<Candidate> {
    if rs == [] then [] else BoundReleases(x, w, sourceID, rs[..|rs| - 1]) + [BoundRaw(x, w, sourceID, rs[|rs| - 1])]
  }

  function BoundSources(x: Context, w: Entry, found: seq<(string, seq<Release>)>): seq<Candidate> {
    if found == [] then []
    else BoundSources(x, w, found[..|found| - 1]) + BoundReleases(x, w, found[|found| - 1].0, found[|found| - 1].1)
  }

  /** Feed observation: only releases of the right media type that match the Entry become candidates. */
  function FeedReleases(x: Context, w: Entry, sourceID: string, rs: seq<Release>): seq<Candidate> {
    if rs == [] then []
    else
      var r := rs[|rs| - 1];
      FeedReleases(x, w, sourceID, rs[..|rs| - 1])
      + if MediaMismatch(w, r) || !x.matches(w, r) then [] else [Evaluate(x.rules, w, sourceID, r, EvidenceOf(x, w))]
  }

  lemma RawsSelectable(x: Context, w: Entry, sourceID: string, rs: seq<Release>)
    ensures forall k :: 0 <= k < |BoundReleases(x, w, sourceID, rs)| ==>
      SelectableOne(BoundReleases(x, w, sourceID, rs)[k])
    ensures forall k :: 0 <= k < |FeedReleases(x, w, sourceID, rs)| ==>
      SelectableOne(FeedReleases(x, w, sourceID, rs)[k])
  {
    if rs != [] {
      RawsSelectable(x, w, sourceID, rs[..|rs| - 1]);
      EvaluatedIsReady(x.rules, w, sourceID, rs[|rs| - 1], EvidenceOf(x, w));
    }
  }

  /** The feed observations of all enabled sources of all entries, in plan order. */
  function FeedSources(x: Context, w: Entry, ids: seq<string>, feeds: map<string, seq<Release>>): seq<Candidate> {
    if ids == [] then []
    else
      var id := ids[|ids| - 1];
      FeedSources(x, w, ids[..|ids| - 1], feeds)
      + if id in x.sources && x.sources[id] && id in feeds then FeedReleases(x, w, id, feeds[id]) else []
  }

  function FeedEntries(x: Context, ws: seq<(Entry, seq<string>)>, feeds: map<string, seq<Release>>): seq<Candidate> {
    if ws == [] then []
    else FeedEntries(x, ws[..|ws| - 1], feeds) + FeedSources(x, ws[|ws| - 1].0, ws[|ws| - 1].1, feeds)
  }

  /** The release becomes a candidate of the Entry: its medium does not contradict, and its title matches. */
  ghost predicate Routed(x: Context, w: Entry, rs: seq<Release>, k: nat) {
    k < |rs| && (rs[k].mediaType == "" || rs[k].mediaType == w.mediaType) && x.matches(w, rs[k])
  }

  /** What the release evaluates to, from the evidence of the Entry's folders. */
  ghost predicate EvaluatesTo(x: Context, w: Entry, id: string, r: Release, c: Candidate) {
    c == Evaluate(x.rules, w, id, r, if w.key in x.evidence then x.evidence[w.key] else [])
  }

  lemma {:induction false} FeedReleasesMeaning(x: Context, w: Entry, id: string, rs: seq<Release>, c: Candidate)
    ensures c in FeedReleases(x, w, id, rs) <==> exists k: nat :: Routed(x, w, rs, k) && EvaluatesTo(x, w, id, rs[k], c)
  {
    hide Evaluate;
    if rs != [] {
      var n := |rs| - 1;
      FeedReleasesMeaning(x, w, id, rs[..n], c);
      assert forall k: nat :: k < n ==> (Routed(x, w, rs[..n], k) <==> Routed(x, w, rs, k)) && rs[..n][k] == rs[k];
    }
  }

  lemma {:induction false} FeedSourcesMeaning(x: Context, w: Entry, ids: seq<string>, feeds: map<string, seq<Release>>,
                                              c: Candidate)
    ensures c in FeedSources(x, w, ids, feeds) <==> exists id ::
      id in ids && id in x.sources && x.sources[id] && id in feeds && c in FeedReleases(x, w, id, feeds[id])
  {
    if ids != [] {
      var n := |ids| - 1;
      FeedSourcesMeaning(x, w, ids[..n], feeds, c);
      assert ids == ids[..n] + [ids[n]];
    }
  }

  /** The candidate is the evaluation of a release that an enabled source of the Entry offers and routes to it. */
  ghost predicate Fed(x: Context, w: Entry, ids: seq<string>, feeds: map<string, seq<Release>>, c: Candidate) {
    exists id, k: nat :: id in ids && id in x.sources && x.sources[id] && id in feeds && Routed(x, w, feeds[id], k)
                           && EvaluatesTo(x, w, id, feeds[id][k], c)
  }

  /**
   * What goes into a feed plan: exactly the evaluations of the releases that an enabled source of some Entry offers
   * and that are routed to that Entry. A disabled or unknown source contributes nothing.
   */
  lemma {:induction false} FeedMeaning(x: Context, ws: seq<(Entry, seq<string>)>, feeds: map<string, seq<Release>>,
                                       c: Candidate)
    ensures c in FeedEntries(x, ws, feeds) <==> exists i :: 0 <= i < |ws| && Fed(x, ws[i].0, ws[i].1, feeds, c)
  {
    if ws != [] {
      var n := |ws| - 1;
      FeedMeaning(x, ws[..n], feeds, c);
      OneEntryFed(x, ws[n].0, ws[n].1, feeds, c);
      assert forall i :: 0 <= i < n ==> ws[..n][i] == ws[i];
    }
  }

  lemma OneEntryFed(x: Context, w: Entry, ids: seq<string>, feeds: map<string, seq<Release>>, c: Candidate)
    ensures c in FeedSources(x, w, ids, feeds) <==> Fed(x, w, ids, feeds, c)
  {
    hide EvaluatesTo;
    FeedSourcesMeaning(x, w, ids, feeds, c);
    forall id | id in feeds
      ensures c in FeedReleases(x, w, id, feeds[id]) <==>
        exists k: nat :: Routed(x, w, feeds[id], k) && EvaluatesTo(x, w, id, feeds[id][k], c)
    {
      FeedReleasesMeaning(x, w, id, feeds[id], c);
    }
  }

  /** In a bound search every release is kept, in order: as evaluated, or as invalid if its medium contradicts. */
  lemma {:induction false} BoundReleasesMeaning(x: Context, w: Entry, id: string, rs: seq<Release>)
    ensures |BoundReleases(x, w, id, rs)| == |rs|
    ensures forall k :: 0 <= k < |rs| ==>
      var c := BoundReleases(x, w, id, rs)[k];
      && (rs[k].mediaType == "" || rs[k].mediaType == w.mediaType ==> EvaluatesTo(x, w, id, rs[k], c))
      && (rs[k].mediaType != "" && rs[k].mediaType != w.mediaType ==>
           c.decision == Invalid && c.facts.release == rs[k] && c.facts.sourceID == id && c.facts.entryKey == w.key)
  {
    hide Evaluate;
    if rs != [] {
      BoundReleasesMeaning(x, w, id, rs[..|rs| - 1]);
    }
  }

  /** A bound plan is made of the results of every source. */
  lemma {:induction false} BoundSourcesMeaning(x: Context, w: Entry, found: seq<(string, seq<Release>)>, c: Candidate)
    ensures c in BoundSources(x, w, found) <==> exists i ::
      0 <= i < |found| && c in BoundReleases(x, w, found[i].0, found[i].1)
  {
    if found != [] {
      var n := |found| - 1;
      BoundSourcesMeaning(x, w, found[..n], c);
      assert forall i :: 0 <= i < n ==> found[..n][i] == found[i];
    }
  }

  ghost predicate AllSelectable(raws: seq<Candidate>) {
    forall k :: 0 <= k < |raws| ==> SelectableOne(raws[k])
  }

  lemma BoundSelectable(x: Context, w: Entry, found: seq<(string, seq<Release>)>)
    ensures AllSelectable(BoundSources(x, w, found))
  {
    if found != [] {
      BoundSelectable(x, w, found[..|found| - 1]);
      RawsSelectable(x, w, found[|found| - 1].0, found[|found| - 1].1);
    }
  }

  lemma FeedSelectable(x: Context, w: Entry, ids: seq<string>, feeds: map<string, seq<Release>>)
    ensures AllSelectable(FeedSources(x, w, ids, feeds))
  {
    if ids != [] {
      var id := ids[|ids| - 1];
      FeedSelectable(x, w, ids[..|ids| - 1], feeds);
      if id in feeds {
        RawsSelectable(x, w, id, feeds[id]);
      }
    }
  }

  lemma FeedsSelectable(x: Context, ws: seq<(Entry, seq<string>)>, feeds: map<string, seq<Release>>)
    ensures AllSelectable(FeedEntries(x, ws, feeds))
  {
    if ws != [] {
      FeedsSelectable(x, ws[..|ws| - 1], feeds);
      FeedSelectable(x, ws[|ws| - 1].0, ws[|ws| - 1].1, feeds);
    }
  }

  // ---- the builders -------------------------------------------------------------------------

  /** The acquisition IDs already selected; the set the builders keep beside the plan. */
  ghost predicate Tracks(seen: set<string>, c: seq<Candidate>) {
    forall id :: id in seen <==> SelectedID(c, id)
  }

  method AdmitOne(plan: Plan, seen: set<string>, raw: Candidate) returns (now: set<string>)
    requires Tracks(seen, plan.candidates)
    modifies plan
    ensures plan.candidates == Admit(old(plan.candidates), raw) && Tracks(now, plan.candidates)
  {
    ghost var before := plan.candidates;
    now := seen;
    if raw.decision == Selected && raw.facts.acquisitionID in seen {
      plan.candidates := plan.candidates + [raw.(decision := Duplicate, reason := DUPLICATE_REASON)];
    } else {
      if raw.decision == Selected {
        now := now + {raw.facts.acquisitionID};
      }
      plan.candidates := plan.candidates + [raw];
    }
    forall id ensures SelectedID(plan.candidates, id) <==>
      SelectedID(before, id) || (raw.decision == Selected && raw.facts.acquisitionID == id) {
      TrackOne(before, raw, id);
    }
  }

  lemma TrackOne(c: seq<Candidate>, raw: Candidate, id: string)
    ensures SelectedID(Admit(c, raw), id) <==>
      SelectedID(c, id) || (raw.decision == Selected && raw.facts.acquisitionID == id)
  {
    var e := Admit(c, raw);
    if SelectedID(c, id) {
      var j :| 0 <= j < |c| && c[j].decision == Selected && c[j].facts.acquisitionID == id;
      assert e[j] == c[j];
    }
    if raw.decision == Selected {
      AdmittedID(c, raw);
    }
  }

  lemma AdmitSnoc(c: seq<Candidate>, raws: seq<Candidate>, raw: Candidate)
    ensures AdmitAll(c, raws + [raw]) == Admit(AdmitAll(c, raws), raw)
  {
    AdmitInTwo(c, raws, [raw]);
    assert [raw][1..] == [];
  }

  method AdmitFeed(plan: Plan, seen: set<string>, x: Context, w: Entry, sourceID: string, rs: seq<Release>)
    returns (now: set<string>)
    requires Tracks(seen, plan.candidates)
    modifies plan
    ensures plan.candidates == AdmitAll(old(plan.candidates), FeedReleases(x, w, sourceID, rs)) &&
      Tracks(now, plan.candidates)
  {
    now := seen;
    for i := 0 to |rs|
      invariant plan.candidates == AdmitAll(old(plan.candidates), FeedReleases(x, w, sourceID, rs[..i]))
      invariant Tracks(now, plan.candidates)
    {
      var r := rs[i];
      assert rs[..i + 1][..i] == rs[..i];
      if !MediaMismatch(w, r) && x.matches(w, r) {
        var raw := Evaluate(x.rules, w, sourceID, r, EvidenceOf(x, w));
        AdmitSnoc(old(plan.candidates), FeedReleases(x, w, sourceID, rs[..i]), raw);
        now := AdmitOne(plan, now, raw);
      } else {
        assert FeedReleases(x, w, sourceID, rs[..i + 1]) == FeedReleases(x, w, sourceID, rs[..i]);
      }
    }
    assert rs[..|rs|] == rs;
  }

  method AdmitEntry(plan: Plan, seen: set<string>, x: Context, w: Entry, ids: seq<string>,
                    feeds: map<string, seq<Release>>)
    returns (now: set<string>)
    requires Tracks(seen, plan.candidates)
    modifies plan
    ensures plan.candidates == AdmitAll(old(plan.candidates), FeedSources(x, w, ids, feeds)) &&
      Tracks(now, plan.candidates)
  {
    now := seen;
    for i := 0 to |ids|
      invariant plan.candidates == AdmitAll(old(plan.candidates), FeedSources(x, w, ids[..i], feeds))
      invariant Tracks(now, plan.candidates)
    {
      var id := ids[i];
      assert ids[..i + 1][..i] == ids[..i];
      if id in x.sources && x.sources[id] && id in feeds {
        AdmitInTwo(old(plan.candidates), FeedSources(x, w, ids[..i], feeds), FeedReleases(x, w, id, feeds[id]));
        now := AdmitFeed(plan, now, x, w, id, feeds[id]);
      } else {
        assert FeedSources(x, w, ids[..i + 1], feeds) == FeedSources(x, w, ids[..i], feeds);
      }
    }
    assert ids[..|ids|] == ids;
  }

  /** No two selected candidates share an acquisition ID or an episode, and no movie is selected twice. */
  ghost predicate ConflictFree(c: seq<Candidate>) {
    && PlanProperties.DistinctSelected(c)
    && forall i, j :: 0 <= i < |c| && 0 <= j < |c| && i != j && c[i].decision == c[j].decision == Selected ==>
         && !c[i].facts.episode.Overlaps(c[j].facts.episode)
         && !(KeyOf(c[i].facts).Movie? && KeyOf(c[i].facts) == KeyOf(c[j].facts))
  }

  lemma SettledIsConflictFree(r: Ranking, before: seq<Candidate>, after: seq<Candidate>)
    requires Settled(r, before, after) && Selectable(before) && PlanProperties.DistinctSelected(before)
    ensures ConflictFree(after)
  {
    forall i, j | 0 <= i < |after| && 0 <= j < |after| && i != j && after[i].decision == after[j].decision == Selected
      ensures after[i].facts.acquisitionID != after[j].facts.acquisitionID
      ensures !after[i].facts.episode.Overlaps(after[j].facts.episode)
      ensures !(KeyOf(after[i].facts).Movie? && KeyOf(after[i].facts) == KeyOf(after[j].facts))
    {
      PlanProperties.SelectedAreDisjoint(r, before, after, i, j);
      PlanProperties.SelectedInGroup(r, before, after, i);
      PlanProperties.SelectedInGroup(r, before, after, j);
    }
  }

  lemma NothingAdmitted()
    ensures AdmitAll([], []) == []
  {
  }

  /** Admission starting from nothing gives a plan that selection accepts. */
  lemma AdmittedIsReady(raws: seq<Candidate>)
    requires forall k :: 0 <= k < |raws| ==> SelectableOne(raws[k])
    ensures Selectable(AdmitAll([], raws)) && PlanProperties.DistinctSelected(AdmitAll([], raws))
  {
    AdmissionKeepsFirst([], raws);
  }

  /** The plan for one feed observation. Entries and their sources are given in sorted order. */
  method BuildObserved(x: Context, ws: seq<(Entry, seq<string>)>, feeds: map<string, seq<Release>>) returns (plan: Plan)
    ensures fresh(plan)
    ensures Settled(x.ranking, AdmitAll([], FeedEntries(x, ws, feeds)), plan.candidates)
    ensures ConflictFree(plan.candidates)
  {
    hide Settled;
    hide ConflictFree;
    hide Selectable;
    hide SelectableOne;
    hide AdmitAll;
    hide PlanProperties.DistinctSelected;
    NothingAdmitted();
    plan := new Plan();
    var seen: set<string> := {};
    for i := 0 to |ws|
      invariant fresh(plan)
      invariant plan.candidates == AdmitAll([], FeedEntries(x, ws[..i], feeds))
      invariant Tracks(seen, plan.candidates)
    {
      assert ws[..i + 1][..i] == ws[..i];
      AdmitInTwo([], FeedEntries(x, ws[..i], feeds), FeedSources(x, ws[i].0, ws[i].1, feeds));
      seen := AdmitEntry(plan, seen, x, ws[i].0, ws[i].1, feeds);
    }
    assert ws[..|ws|] == ws;
    FeedsSelectable(x, ws, feeds);
    AdmittedIsReady(FeedEntries(x, ws, feeds));
    ghost var admitted := plan.candidates;
    plan.SelectBestByScore(x.ranking);
    SettledIsConflictFree(x.ranking, admitted, plan.candidates);
  }

  method AdmitBound(plan: Plan, seen: set<string>, x: Context, w: Entry, sourceID: string, rs: seq<Release>)
    returns (now: set<string>)
    requires Tracks(seen, plan.candidates)
    modifies plan
    ensures plan.candidates == AdmitAll(old(plan.candidates), BoundReleases(x, w, sourceID, rs)) &&
      Tracks(now, plan.candidates)
  {
    now := seen;
    for i := 0 to |rs|
      invariant plan.candidates == AdmitAll(old(plan.candidates), BoundReleases(x, w, sourceID, rs[..i]))
      invariant Tracks(now, plan.candidates)
    {
      assert rs[..i + 1][..i] == rs[..i];
      AdmitSnoc(old(plan.candidates), BoundReleases(x, w, sourceID, rs[..i]), BoundRaw(x, w, sourceID, rs[i]));
      now := AdmitOne(plan, now, BoundRaw(x, w, sourceID, rs[i]));
    }
    assert rs[..|rs|] == rs;
  }

  /** The plan for a search bound to one Entry. Results are given in sorted source order. */
  method BuildBoundPlan(x: Context, w: Entry, found: seq<(string, seq<Release>)>) returns (plan: Plan, err: BuildError)
    ensures fresh(plan)
    ensures err == NoError <==> forall k :: 0 <= k < |found| ==> found[k].0 in x.sources && x.sources[found[k].0]
    ensures err == NoError ==> Settled(x.ranking, AdmitAll([], BoundSources(x, w, found)), plan.candidates)
    ensures err == NoError ==> ConflictFree(plan.candidates)
    ensures err.SourceNotFound? ==> err.id !in x.sources
    ensures err.SourceDisabled? ==> err.id in x.sources && !x.sources[err.id]
  {
    hide Settled;
    hide ConflictFree;
    hide Selectable;
    hide SelectableOne;
    hide AdmitAll;
    hide PlanProperties.DistinctSelected;
    plan := new Plan();
    err := NoError;
    NothingAdmitted();
    var seen: set<string> := {};
    for i := 0 to |found|
      invariant fresh(plan)
      invariant forall k :: 0 <= k < i ==> found[k].0 in x.sources && x.sources[found[k].0]
      invariant plan.candidates == AdmitAll([], BoundSources(x, w, found[..i]))
      invariant Tracks(seen, plan.candidates)
    {
      var id := found[i].0;
      if id !in x.sources {
        err := SourceNotFound(id);
        return;
      }
      if !x.sources[id] {
        err := SourceDisabled(id);
        return;
      }
      assert found[..i + 1][..i] == found[..i];
      AdmitInTwo([], BoundSources(x, w, found[..i]), BoundReleases(x, w, id, found[i].1));
      seen := AdmitBound(plan, seen, x, w, id, found[i].1);
    }
    assert found[..|found|] == found;
    BoundSelectable(x, w, found);
    AdmittedIsReady(BoundSources(x, w, found));
    ghost var admitted := plan.candidates;
    plan.SelectBestByScore(x.ranking);
    SettledIsConflictFree(x.ranking, admitted, plan.candidates);
  }
}
