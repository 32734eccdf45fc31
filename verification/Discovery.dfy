/**
 * Merging discovered groups. `comparable` is the normal form titles are compared in, `options` the filter options a
 * list of releases offers; both are parameters.
 */
module Discovery {
  import opened SortedKeys
  import opened Sets

  datatype Release = Release(guid: string, url: string, title: string, details: string)

  type ReleaseKey = (string, string, string)

  datatype Group = Group(
    mediaType: string,
    title: string,
    year: int,
    season: int,
    releases: seq<Release>,
    sourceIDs: seq<string>,
    options: string,
    entryKey: string,
    acquisitionIDs: seq<string>
  )

  datatype Rules = Rules(comparable: string -> string, options: seq<Release> -> string)

  /** Groups of one medium, comparable title and season share a bucket. */
  type Bucket = (string, string, int)

  function BucketOf(r: Rules, g: Group): Bucket {
    (g.mediaType, r.comparable(g.title), g.season)
  }

  function KeyOf(x: Release): ReleaseKey {
    (x.guid, x.url, x.title)
  }

  /** Year zero is unknown and joins any year. */
  predicate YearsJoin(c: int, g: int) {
    c == g || c == 0 || g == 0
  }

  predicate Fits(r: Rules, c: Group, g: Group) {
    BucketOf(r, c) == BucketOf(r, g) && YearsJoin(c.year, g.year)
  }

  // ---- duplicate-free appending -------------------------------------------------------------------------------

  function ReleaseKeys(s: seq<Release>): set<ReleaseKey> {
    set x | x in s :: KeyOf(x)
  }

  function AddReleases(have: seq<Release>, more: seq<Release>): seq<Release> {
    if more == [] then have
    else
      var before := AddReleases(have, more[..|more| - 1]);
      var x := more[|more| - 1];
      if KeyOf(x) in ReleaseKeys(before) then before else before + [x]
  }

  function AppendUnique(have: seq<string>, s: string): seq<string> {
    if s in have then have else have + [s]
  }

  function AddIDs(have: seq<string>, more: seq<string>): seq<string> {
    if more == [] then have else AppendUnique(AddIDs(have, more[..|more| - 1]), more[|more| - 1])
  }

  ghost predicate DistinctReleases(s: seq<Release>) {
    forall i, j :: 0 <= i < j < |s| ==> KeyOf(s[i]) != KeyOf(s[j])
  }

  lemma SnocKeys(s: seq<Release>, x: Release)
    ensures ReleaseKeys(s + [x]) == ReleaseKeys(s) + {KeyOf(x)}
  {
  }

  lemma {:induction false} AddReleasesMeaning(have: seq<Release>, more: seq<Release>)
    requires DistinctReleases(have)
    ensures DistinctReleases(AddReleases(have, more))
    ensures ReleaseKeys(AddReleases(have, more)) == ReleaseKeys(have) + ReleaseKeys(more)
  {
    if more != [] {
      var n := |more| - 1;
      AddReleasesMeaning(have, more[..n]);
      var before := AddReleases(have, more[..n]);
      assert more == more[..n] + [more[n]];
      SnocKeys(more[..n], more[n]);
      SnocKeys(before, more[n]);
      assert forall i :: 0 <= i < |before| ==> KeyOf(before[i]) in ReleaseKeys(before);
    }
  }

  /** What is there stays in front, with the details it came with. */
  lemma {:induction false} AddReleasesKeeps(have: seq<Release>, more: seq<Release>)
    ensures have <= AddReleases(have, more)
  {
    if more != [] {
      AddReleasesKeeps(have, more[..|more| - 1]);
    }
  }

  lemma {:induction false} AddIDsMeaning(have: seq<string>, more: seq<string>)
    requires NoRepeats(have)
    ensures NoRepeats(AddIDs(have, more))
    ensures KeysOf(AddIDs(have, more)) == KeysOf(have) + KeysOf(more)
  {
    if more != [] {
      var n := |more| - 1;
      AddIDsMeaning(have, more[..n]);
      assert more == more[..n] + [more[n]];
      var before := AddIDs(have, more[..n]);
      assert KeysOf(before + [more[n]]) == KeysOf(before) + {more[n]};
      assert KeysOf(more) == KeysOf(more[..n]) + {more[n]};
    }
  }

  lemma {:induction false} AddReleasesIdle(more: seq<Release>)
    requires DistinctReleases(more)
    ensures AddReleases([], more) == more
  {
    if more != [] {
      var n := |more| - 1;
      AddReleasesIdle(more[..n]);
      assert more == more[..n] + [more[n]];
    }
  }

  lemma {:induction false} AddIDsIdle(more: seq<string>)
    requires NoRepeats(more)
    ensures AddIDs([], more) == more
  {
    if more != [] {
      var n := |more| - 1;
      AddIDsIdle(more[..n]);
      assert more == more[..n] + [more[n]];
    }
  }

  // ---- merging as a fold --------------------------------------------------------------------------------------

  /** The first group the value joins, or the length if there is none. */
  function FirstFit(r: Rules, order: seq<Group>, g: Group): (k: nat)
    ensures k <= |order| && (k < |order| ==> Fits(r, order[k], g)) && forall j :: 0 <= j < k ==> !Fits(r, order[j], g)
  {
    if order == [] then 0
    else
      var k := FirstFit(r, order[..|order| - 1], g);
      if k < |order| - 1 || Fits(r, order[|order| - 1], g) then k else |order|
  }

  function Fresh(g: Group): Group {
    g.(releases := [], sourceIDs := [], options := "", acquisitionIDs := [])
  }

  /** The group after taking in a value; an unknown year is upgraded. */
  function Absorb(c: Group, g: Group): Group {
    c.(year := if c.year == 0 then g.year else c.year,
       releases := AddReleases(c.releases, g.releases),
       sourceIDs := AddIDs(c.sourceIDs, g.sourceIDs),
       acquisitionIDs := AddIDs(c.acquisitionIDs, g.acquisitionIDs))
  }

  function Place(r: Rules, order: seq<Group>, g: Group): seq<Group> {
    var k := FirstFit(r, order, g);
    if k < |order| then order[k := Absorb(order[k], g)] else order + [Absorb(Fresh(g), g)]
  }

  function Fold(r: Rules, groups: seq<Group>): seq<Group> {
    if groups == [] then [] else Place(r, Fold(r, groups[..|groups| - 1]), groups[|groups| - 1])
  }

  function Finish(r: Rules, g: Group): Group {
    g.(sourceIDs := SortIDs(g.sourceIDs), options := r.options(g.releases), acquisitionIDs := SortIDs(g.acquisitionIDs))
  }

  function Merged(r: Rules, groups: seq<Group>): seq<Group> {
    var order := Fold(r, groups);
    seq(|order|, i requires 0 <= i < |order| => Finish(r, order[i]))
  }

  // ---- what merging keeps -------------------------------------------------------------------------------------

  /** What a group knows. */
  datatype Fact = Offers(key: ReleaseKey) | FromSource(id: string) | Acquires(id: string)

  ghost function FactsOf(g: Group): set<Fact> {
    (set k | k in ReleaseKeys(g.releases) :: Offers(k))
    + (set s | s in KeysOf(g.sourceIDs) :: FromSource(s))
    + (set s | s in KeysOf(g.acquisitionIDs) :: Acquires(s))
  }

  /** Everything the groups of one bucket know. */
  ghost function FactsIn(r: Rules, groups: seq<Group>, b: Bucket): set<Fact> {
    set i, x | 0 <= i < |groups| && BucketOf(r, groups[i]) == b && x in FactsOf(groups[i]) :: x
  }

  /** The group holds nothing twice. */
  ghost predicate Lean(g: Group) {
    DistinctReleases(g.releases) && NoRepeats(g.sourceIDs) && NoRepeats(g.acquisitionIDs)
  }

  /** Groups of one bucket have pairwise different known years. */
  ghost predicate YearsApart(r: Rules, order: seq<Group>) {
    forall i, j :: 0 <= i < j < |order| && BucketOf(r, order[i]) == BucketOf(r, order[j]) ==>
      order[i].year != 0 && order[j].year != 0 && order[i].year != order[j].year
  }

  lemma AbsorbMeaning(c: Group, g: Group)
    requires Lean(c)
    ensures Lean(Absorb(c, g)) && FactsOf(Absorb(c, g)) == FactsOf(c) + FactsOf(g)
  {
    AddReleasesMeaning(c.releases, g.releases);
    AddIDsMeaning(c.sourceIDs, g.sourceIDs);
    AddIDsMeaning(c.acquisitionIDs, g.acquisitionIDs);
  }

  lemma FreshMeaning(g: Group)
    ensures Lean(Fresh(g)) && FactsOf(Fresh(g)) == {}
  {
  }

  /** The output group each input ends up in. */
  ghost function Homes(r: Rules, groups: seq<Group>): (homes: seq<nat>)
    ensures |homes| == |groups|
  {
    if groups == [] then []
    else
      var before := groups[..|groups| - 1];
      Homes(r, before) + [FirstFit(r, Fold(r, before), groups[|groups| - 1])]
  }

  /** The output group `k` knows exactly what the inputs at home there know, nothing twice. */
  ghost predicate FactsMade(groups: seq<Group>, homes: seq<nat>, k: nat, g: Group)
    requires |homes| == |groups|
  {
    && Lean(g)
    && (forall i :: 0 <= i < |groups| && homes[i] == k ==> FactsOf(groups[i]) <= FactsOf(g))
    && (forall x :: x in FactsOf(g) ==> exists i :: 0 <= i < |groups| && homes[i] == k && x in FactsOf(groups[i]))
  }

  /** Its inputs are of its bucket, and of its year as far as their years are known. */
  ghost predicate YearsMade(r: Rules, groups: seq<Group>, homes: seq<nat>, k: nat, g: Group)
    requires |homes| == |groups|
  {
    && (forall i :: 0 <= i < |groups| && homes[i] == k ==>
          BucketOf(r, groups[i]) == BucketOf(r, g) && (groups[i].year == 0 || groups[i].year == g.year))
    && exists i :: 0 <= i < |groups| && homes[i] == k && groups[i].year == g.year
  }

  lemma FactsPlaced(groups: seq<Group>, homes: seq<nat>, k: nat, was: Group, g: Group, now: Group, home: nat)
    requires |homes| == |groups|
    requires Lean(was) && Lean(now)
    requires FactsMade(groups, homes, k, was) ||
      (was == Fresh(g) && k == home && forall i :: 0 <= i < |homes| ==> homes[i] != k)
    requires if k == home then FactsOf(now) == FactsOf(was) + FactsOf(g) else now == was
    ensures FactsMade(groups + [g], homes + [home], k, now)
  {
    hide FactsOf;
    hide Lean;
    FreshMeaning(g);
    forall x | x in FactsOf(now)
      ensures exists i :: 0 <= i < |groups| + 1 && (homes + [home])[i] == k && x in FactsOf((groups + [g])[i])
    {
      if k == home && x in FactsOf(g) {
        assert (homes + [home])[|groups|] == k && (groups + [g])[|groups|] == g;
      } else {
        var i :| 0 <= i < |groups| && homes[i] == k && x in FactsOf(groups[i]);
        assert (homes + [home])[i] == k && (groups + [g])[i] == groups[i];
      }
    }
  }

  lemma YearsPlaced(r: Rules, groups: seq<Group>, homes: seq<nat>, k: nat, was: Group, g: Group, now: Group, home: nat)
    requires |homes| == |groups|
    requires YearsMade(r, groups, homes, k, was) ||
      (was == Fresh(g) && k == home && forall i :: 0 <= i < |homes| ==> homes[i] != k)
    requires if k == home then Fits(r, was, g) && now == Absorb(was, g) else now == was
    ensures YearsMade(r, groups + [g], homes + [home], k, now)
  {
    hide AddReleases;
    hide AddIDs;
    if k == home && (was.year == 0 || was.year == g.year) {
      assert (homes + [home])[|groups|] == k && (groups + [g])[|groups|].year == now.year;
    } else {
      var i :| 0 <= i < |groups| && homes[i] == k && groups[i].year == was.year;
      assert (homes + [home])[i] == k && (groups + [g])[i].year == now.year;
    }
  }

  lemma {:induction false} PlaceKeepsApart(r: Rules, order: seq<Group>, g: Group)
    requires YearsApart(r, order)
    ensures YearsApart(r, Place(r, order, g))
  {
  }

  /**
   * Merging partitions the inputs: every input has one home, an output group is exactly the union of the inputs
   * at home there, two inputs with different known years never share one, and the outputs of a bucket have
   * pairwise different known years.
   */
  lemma {:induction false} FoldPartitions(r: Rules, groups: seq<Group>)
    ensures YearsApart(r, Fold(r, groups))
    ensures forall i :: 0 <= i < |groups| ==> Homes(r, groups)[i] < |Fold(r, groups)|
    ensures forall k :: 0 <= k < |Fold(r, groups)| ==>
      FactsMade(groups, Homes(r, groups), k, Fold(r, groups)[k]) &&
        YearsMade(r, groups, Homes(r, groups), k, Fold(r, groups)[k])
  {
    hide FactsMade;
    hide YearsMade;
    hide YearsApart;
    hide FactsOf;
    hide Absorb;
    hide FirstFit;
    if groups == [] {
      NothingApart(r);
    } else {
      var n := |groups| - 1;
      var before, g := groups[..n], groups[n];
      FoldPartitions(r, before);
      var order, homes := Fold(r, before), Homes(r, before);
      PlaceKeepsApart(r, order, g);
      assert groups == before + [g];
      forall k | 0 <= k < |Fold(r, groups)|
        ensures FactsMade(groups, Homes(r, groups), k, Fold(r, groups)[k]) &&
          YearsMade(r, groups, Homes(r, groups), k, Fold(r, groups)[k])
      {
        GroupPlaced(r, before, homes, order, g, k);
      }
    }
  }

  /** What an output group is made of, after one more input. */
  lemma GroupPlaced(r: Rules, groups: seq<Group>, homes: seq<nat>, order: seq<Group>, g: Group, k: nat)
    requires |homes| == |groups| && k < |Place(r, order, g)|
    requires forall i :: 0 <= i < |homes| ==> homes[i] < |order|
    requires k < |order| ==> FactsMade(groups, homes, k, order[k]) && YearsMade(r, groups, homes, k, order[k])
    ensures var home, now := homes + [FirstFit(r, order, g)], Place(r, order, g)[k];
            FactsMade(groups + [g], home, k, now) && YearsMade(r, groups + [g], home, k, now)
  {
    hide FactsMade;
    hide YearsMade;
    hide FactsOf;
    hide Absorb;
    var was, now, home := if k < |order| then order[k] else Fresh(g), Place(r, order, g)[k], FirstFit(r, order, g);
    FreshFits(r, g);
    LeanMade(groups, homes, k, was, g);
    AbsorbMeaning(was, g);
    FactsPlaced(groups, homes, k, was, g, now, home);
    YearsPlaced(r, groups, homes, k, was, g, now, home);
  }

  ghost predicate SameName(a: Group, b: Group) {
    a.mediaType == b.mediaType && a.title == b.title && a.season == b.season && a.entryKey == b.entryKey
  }

  ghost predicate FirstAtHome(homes: seq<nat>, i: nat) {
    i < |homes| && forall j :: 0 <= j < i ==> homes[j] != homes[i]
  }

  lemma PlaceKeepsNames(r: Rules, order: seq<Group>, g: Group, k: nat)
    requires k <= |order|
    ensures k < |order| ==> SameName(Place(r, order, g)[k], order[k])
    ensures k == |order| && FirstFit(r, order, g) == k ==> SameName(Place(r, order, g)[k], g)
  {
    hide AddReleases;
    hide AddIDs;
  }

  /** An output group is named after the first of its inputs. */
  lemma {:induction false} FirstInputNames(r: Rules, groups: seq<Group>, i: nat)
    requires FirstAtHome(Homes(r, groups), i)
    ensures Homes(r, groups)[i] < |Merged(r, groups)| && SameName(Merged(r, groups)[Homes(r, groups)[i]], groups[i])
  {
    hide FactsMade;
    hide Absorb;
    hide Place;
    hide YearsMade;
    hide FirstFit;
    var n := |groups| - 1;
    var before, homes := groups[..n], Homes(r, groups);
    assert homes[..n] == Homes(r, before) && Fold(r, groups) == Place(r, Fold(r, before), groups[n]);
    FoldPartitions(r, groups);
    FoldPartitions(r, before);
    PlaceKeepsNames(r, Fold(r, before), groups[n], homes[i]);
    if i < n {
      assert FirstAtHome(Homes(r, before), i);
      FirstInputNames(r, before, i);
    } else {
      assert homes[n] == FirstFit(r, Fold(r, before), groups[n]) && homes[n] !in homes[..n];
      EveryGroupHasInput(r, before);
    }
  }

  lemma EveryGroupHasInput(r: Rules, groups: seq<Group>)
    ensures forall k :: 0 <= k < |Fold(r, groups)| ==> k in Homes(r, groups)
  {
    hide FactsMade;
    FoldPartitions(r, groups);
  }

  lemma NothingApart(r: Rules)
    ensures YearsApart(r, [])
  {
  }

  lemma FreshFits(r: Rules, g: Group)
    ensures Fits(r, Fresh(g), g)
  {
  }

  lemma LeanMade(groups: seq<Group>, homes: seq<nat>, k: nat, was: Group, g: Group)
    requires |homes| == |groups|
    requires FactsMade(groups, homes, k, was) || was == Fresh(g)
    ensures Lean(was)
  {
  }

  lemma FinishMeaning(r: Rules, g: Group)
    requires Lean(g)
    ensures Lean(Finish(r, g)) && FactsOf(Finish(r, g)) == FactsOf(g)
    ensures Sorted(Finish(r, g).sourceIDs) && Sorted(Finish(r, g).acquisitionIDs)
  {
    SortIDsSorts(g.sourceIDs);
    SortIDsSorts(g.acquisitionIDs);
    SortedHasNoRepeats(SortIDs(g.sourceIDs));
    SortedHasNoRepeats(SortIDs(g.acquisitionIDs));
  }

  /** The partition, on the finished groups. */
  lemma MergedPartitions(r: Rules, groups: seq<Group>)
    ensures YearsApart(r, Merged(r, groups))
    ensures forall i :: 0 <= i < |groups| ==> Homes(r, groups)[i] < |Merged(r, groups)|
    ensures forall k :: 0 <= k < |Merged(r, groups)| ==>
      FactsMade(groups, Homes(r, groups), k, Merged(r, groups)[k]) &&
        YearsMade(r, groups, Homes(r, groups), k, Merged(r, groups)[k])
    ensures forall g :: g in Merged(r, groups) ==> Canonical(r, g)
  {
    hide FactsOf;
    hide Lean;
    hide Fold;
    FoldPartitions(r, groups);
    var order := Fold(r, groups);
    forall k | 0 <= k < |order|
      ensures Lean(order[k]) && Lean(Finish(r, order[k])) && FactsOf(Finish(r, order[k])) == FactsOf(order[k])
      ensures Canonical(r, Finish(r, order[k]))
    {
      FinishMeaning(r, order[k]);
      FinishIsCanonical(r, order[k]);
    }
  }

  /** Groups of different media, titles that compare differently, seasons, or known years never end up together. */
  lemma DifferentStayApart(r: Rules, groups: seq<Group>, i: nat, j: nat)
    requires i < |groups| && j < |groups|
    requires
      || groups[i].mediaType != groups[j].mediaType || groups[i].season != groups[j].season
      || r.comparable(groups[i].title) != r.comparable(groups[j].title)
      || (groups[i].year != 0 && groups[j].year != 0 && groups[i].year != groups[j].year)
    ensures Homes(r, groups)[i] != Homes(r, groups)[j]
  {
    hide FactsMade;
    hide YearsApart;
    hide Canonical;
    hide Merged;
    MergedPartitions(r, groups);
    var out, homes := Merged(r, groups), Homes(r, groups);
    assert YearsMade(r, groups, homes, homes[i], out[homes[i]]);
    assert YearsMade(r, groups, homes, homes[j], out[homes[j]]);
  }

  /** Two groups of one medium, comparable title and season do end up together if they are of one known year. */
  lemma AlikeMeet(r: Rules, groups: seq<Group>, i: nat, j: nat)
    requires i < |groups| && j < |groups|
    requires groups[i].mediaType == groups[j].mediaType && groups[i].season == groups[j].season
    requires r.comparable(groups[i].title) == r.comparable(groups[j].title)
    requires groups[i].year == groups[j].year != 0
    ensures Homes(r, groups)[i] == Homes(r, groups)[j]
  {
    hide FactsMade;
    hide Canonical;
    MergedPartitions(r, groups);
    var out, homes := Merged(r, groups), Homes(r, groups);
    assert YearsMade(r, groups, homes, homes[i], out[homes[i]]);
    assert YearsMade(r, groups, homes, homes[j], out[homes[j]]);
  }

  /** The list offers a release with this identifier, address and title. */
  ghost predicate Offered(releases: seq<Release>, x: Release) {
    exists j :: 0 <= j < |releases| && releases[j].guid == x.guid && releases[j].url == x.url &&
      releases[j].title == x.title
  }

  /**
   * An output group offers exactly the releases of its inputs, told apart by identifier, address and title, and each
   * of them once.
   */
  lemma ReleasesMerged(r: Rules, groups: seq<Group>, k: nat, x: Release)
    requires k < |Merged(r, groups)|
    ensures var releases := Merged(r, groups)[k].releases;
            && (Offered(releases, x) <==> exists i ::
                 0 <= i < |groups| && Homes(r, groups)[i] == k && Offered(groups[i].releases, x))
            && forall a, b :: 0 <= a < b < |releases| ==>
                 !(releases[a].guid == releases[b].guid && releases[a].url == releases[b].url &&
                   releases[a].title == releases[b].title)
  {
    hide Merged;
    hide YearsMade;
    hide YearsApart;
    hide Canonical;
    MergedPartitions(r, groups);
    var out, homes := Merged(r, groups), Homes(r, groups);
    assert FactsMade(groups, homes, k, out[k]);
    OfferedFact(out[k], x);
    forall i | 0 <= i < |groups| ensures Offered(groups[i].releases, x) <==> Offers(KeyOf(x)) in FactsOf(groups[i]) {
      OfferedFact(groups[i], x);
    }
  }

  lemma OfferedFact(g: Group, x: Release)
    ensures Offered(g.releases, x) <==> Offers((x.guid, x.url, x.title)) in FactsOf(g)
  {
    if Offered(g.releases, x) {
      var j :| 0 <= j < |g.releases| && g.releases[j].guid == x.guid && g.releases[j].url == x.url &&
        g.releases[j].title == x.title;
      assert KeyOf(g.releases[j]) in ReleaseKeys(g.releases);
    }
  }

  /** Every bucket comes out knowing exactly what went in. */
  lemma BucketsKeepFacts(r: Rules, groups: seq<Group>, b: Bucket)
    ensures FactsIn(r, Merged(r, groups), b) == FactsIn(r, groups, b)
  {
    hide FactsOf;
    hide Merged;
    hide BucketOf;
    MergedPartitions(r, groups);
    var out, homes := Merged(r, groups), Homes(r, groups);
    forall x | x in FactsIn(r, groups, b) ensures x in FactsIn(r, out, b) {
      var i :| 0 <= i < |groups| && BucketOf(r, groups[i]) == b && x in FactsOf(groups[i]);
      assert FactsOf(groups[i]) <= FactsOf(out[homes[i]]) && BucketOf(r, out[homes[i]]) == b;
    }
    forall x | x in FactsIn(r, out, b) ensures x in FactsIn(r, groups, b) {
      var k :| 0 <= k < |out| && BucketOf(r, out[k]) == b && x in FactsOf(out[k]);
      assert FactsMade(groups, homes, k, out[k]) && YearsMade(r, groups, homes, k, out[k]);
      var i :| 0 <= i < |groups| && homes[i] == k && x in FactsOf(groups[i]);
      assert BucketOf(r, groups[i]) == b;
    }
  }

  /** A group as merging leaves it. */
  ghost predicate Canonical(r: Rules, g: Group) {
    Lean(g) && Sorted(g.sourceIDs) && Sorted(g.acquisitionIDs) && g.options == r.options(g.releases)
  }

  lemma FinishIsCanonical(r: Rules, g: Group)
    requires Lean(g)
    ensures Canonical(r, Finish(r, g))
  {
    FinishMeaning(r, g);
  }

  lemma CanonicalStays(r: Rules, g: Group)
    requires Canonical(r, g)
    ensures Finish(r, Absorb(Fresh(g), g)) == g
  {
    AddReleasesIdle(g.releases);
    AddIDsIdle(g.sourceIDs);
    AddIDsIdle(g.acquisitionIDs);
    SortIDsIdle(g.sourceIDs);
    SortIDsIdle(g.acquisitionIDs);
  }

  /** Groups that are apart are not merged. */
  lemma {:induction false} ApartStays(r: Rules, groups: seq<Group>)
    requires YearsApart(r, groups)
    ensures Fold(r, groups) == seq(|groups|, i requires 0 <= i < |groups| => Absorb(Fresh(groups[i]), groups[i]))
  {
    hide AddReleases;
    hide AddIDs;
    if groups != [] {
      var n := |groups| - 1;
      ApartStays(r, groups[..n]);
      var order := Fold(r, groups[..n]);
      forall j | 0 <= j < n ensures !Fits(r, order[j], groups[n]) {
        assert order[j].year == groups[j].year && BucketOf(r, order[j]) == BucketOf(r, groups[j]);
      }
    }
  }

  /** Merging what was merged changes nothing. */
  lemma MergingIsIdempotent(r: Rules, groups: seq<Group>)
    ensures Merged(r, Merged(r, groups)) == Merged(r, groups)
  {
    hide Absorb;
    hide Finish;
    hide Canonical;
    var once := Merged(r, groups);
    MergedPartitions(r, groups);
    ApartStays(r, once);
    forall k | 0 <= k < |once| ensures Finish(r, Absorb(Fresh(once[k]), once[k])) == once[k] {
      CanonicalStays(r, once[k]);
    }
    assert Merged(r, once) == once;
  }

  // ---- the method ---------------------------------------------------------------------------------------------

  /** A group that its bucket and the output order both point to. */
  class Cell {
    var value: Group

    constructor (value: Group)
      ensures this.value == value
    {
      this.value := value;
    }

    method Take(g: Group)
      modifies this
      ensures value == Absorb(old(value), g)
    {
      hide AddReleases;
      hide AddIDs;
      if value.year == 0 && g.year != 0 {
        value := value.(year := g.year);
      }
      TakeReleases(g.releases);
      TakeSources(g.sourceIDs);
      TakeAcquisitions(g.acquisitionIDs);
    }

    method TakeReleases(more: seq<Release>)
      modifies this
      ensures value == old(value).(releases := AddReleases(old(value).releases, more))
    {
      var seen := ReleaseKeys(value.releases);
      for i := 0 to |more|
        invariant value == old(value).(releases := AddReleases(old(value).releases, more[..i]))
        invariant seen == ReleaseKeys(value.releases)
      {
        assert more[..i + 1][..i] == more[..i];
        if KeyOf(more[i]) !in seen {
          SnocKeys(value.releases, more[i]);
          seen := seen + {KeyOf(more[i])};
          value := value.(releases := value.releases + [more[i]]);
        }
      }
      assert more[..|more|] == more;
    }

    method TakeSources(more: seq<string>)
      modifies this
      ensures value == old(value).(sourceIDs := AddIDs(old(value).sourceIDs, more))
    {
      for i := 0 to |more|
        invariant value == old(value).(sourceIDs := AddIDs(old(value).sourceIDs, more[..i]))
      {
        assert more[..i + 1][..i] == more[..i];
        value := value.(sourceIDs := AppendUnique(value.sourceIDs, more[i]));
      }
      assert more[..|more|] == more;
    }

    method TakeAcquisitions(more: seq<string>)
      modifies this
      ensures value == old(value).(acquisitionIDs := AddIDs(old(value).acquisitionIDs, more))
    {
      for i := 0 to |more|
        invariant value == old(value).(acquisitionIDs := AddIDs(old(value).acquisitionIDs, more[..i]))
      {
        assert more[..i + 1][..i] == more[..i];
        value := value.(acquisitionIDs := AppendUnique(value.acquisitionIDs, more[i]));
      }
      assert more[..|more|] == more;
    }
  }

  /** The positions listed for a bucket are of groups of that bucket. */
  ghost predicate Belong(r: Rules, order: seq<Group>, places: map<Bucket, seq<nat>>) {
    forall b, k :: b in places && 0 <= k < |places[b]| ==>
      places[b][k] < |order| && BucketOf(r, order[places[b][k]]) == b
  }

  ghost predicate Ascend(places: map<Bucket, seq<nat>>) {
    forall b, j, k :: b in places && 0 <= j < k < |places[b]| ==> places[b][j] < places[b][k]
  }

  ghost predicate Complete(r: Rules, order: seq<Group>, places: map<Bucket, seq<nat>>) {
    forall i :: 0 <= i < |order| ==> BucketOf(r, order[i]) in places && i in places[BucketOf(r, order[i])]
  }

  /** `places` lists, for each bucket, the ascending positions of its groups in the output order. */
  ghost predicate Indexed(r: Rules, order: seq<Group>, places: map<Bucket, seq<nat>>) {
    Belong(r, order, places) && Ascend(places) && Complete(r, order, places)
  }

  ghost predicate Points(cells: seq<Cell>, buckets: map<Bucket, seq<Cell>>, places: map<Bucket, seq<nat>>) {
    && buckets.Keys == places.Keys
    && forall b :: b in places ==> |buckets[b]| == |places[b]| && forall k :: 0 <= k < |places[b]| ==>
         places[b][k] < |cells| && buckets[b][k] == cells[places[b][k]]
  }

  ghost predicate Holds(cells: seq<Cell>, order: seq<Group>)
    reads cells
  {
    |cells| == |order| && (forall i :: 0 <= i < |cells| ==> cells[i].value == order[i])
    && forall i, j :: 0 <= i < j < |cells| ==> cells[i] != cells[j]
  }

  /** The first fit of the bucket is the first fit of all groups. */
  lemma FirstInBucket(r: Rules, order: seq<Group>, places: map<Bucket, seq<nat>>, g: Group, k: nat)
    requires Indexed(r, order, places)
    requires var b := BucketOf(r, g);
             var at := if b in places then places[b] else [];
             && k <= |at|
             && (forall j :: 0 <= j < k ==> !YearsJoin(order[at[j]].year, g.year))
             && (k < |at| ==> YearsJoin(order[at[k]].year, g.year))
    ensures var b := BucketOf(r, g);
            FirstFit(r, order, g) == if b in places && k < |places[b]| then places[b][k] else |order|
  {
  }

  lemma {:induction false} IndexedUpdate(r: Rules, order: seq<Group>, places: map<Bucket, seq<nat>>, g: Group, k: nat)
    requires Indexed(r, order, places) && k < |order|
    ensures Indexed(r, order[k := Absorb(order[k], g)], places)
  {
  }

  lemma IndexedAppend(r: Rules, order: seq<Group>, places: map<Bucket, seq<nat>>, g: Group, b: Bucket, at: seq<nat>)
    requires Indexed(r, order, places) && b == BucketOf(r, g) && at == if b in places then places[b] else []
    ensures Indexed(r, order + [g], places[b := at + [|order|]])
  {
  }

  /** The first group of the bucket whose year the value can join. */
  method SearchBucket(bucket: seq<Cell>, year: int) returns (k: nat)
    ensures k <= |bucket| && (k < |bucket| ==> YearsJoin(bucket[k].value.year, year))
    ensures forall j :: 0 <= j < k ==> !YearsJoin(bucket[j].value.year, year)
  {
    k := 0;
    while k < |bucket| && !YearsJoin(bucket[k].value.year, year)
      invariant k <= |bucket|
      invariant forall j :: 0 <= j < k ==> !YearsJoin(bucket[j].value.year, year)
    {
      k := k + 1;
    }
  }

  /** Merges one value: into the first group of its bucket it fits, or as a new group of the bucket. */
  method PlaceValue(r: Rules, order: seq<Cell>, buckets: map<Bucket, seq<Cell>>, ghost places: map<Bucket, seq<nat>>,
                    ghost done: seq<Group>, value: Group)
    returns (order': seq<Cell>, buckets': map<Bucket, seq<Cell>>, ghost places': map<Bucket, seq<nat>>)
    requires Holds(order, done) && Indexed(r, done, places) && Points(order, buckets, places)
    modifies order
    ensures Holds(order', Place(r, done, value)) && Indexed(r, Place(r, done, value), places') &&
      Points(order', buckets', places')
    ensures forall i :: 0 <= i < |order'| ==> order'[i] in order || fresh(order'[i])
  {
    hide FirstFit;
    hide Absorb;
    hide Belong;
    hide Ascend;
    hide Complete;
    hide Points;
    var base := BucketOf(r, value);
    var bucket := if base in buckets then buckets[base] else [];
    ghost var at := if base in places then places[base] else [];
    BucketPoints(order, buckets, places, base);
    var k := SearchBucket(bucket, value.year);
    FirstInBucket(r, done, places, value, k);
    if k < |bucket| {
      IndexedUpdate(r, done, places, value, at[k]);
      bucket[k].Take(value);
      return order, buckets, places;
    }
    SameBucket(r, value);
    IndexedAppend(r, done, places, Absorb(Fresh(value), value), base, at);
    var cell := new Cell(Fresh(value));
    cell.Take(value);
    PointsAppend(order, buckets, places, base, cell);
    order', buckets', places' := order + [cell], buckets[base := bucket + [cell]], places[base := at + [|order|]];
  }

  lemma BucketPoints(cells: seq<Cell>, buckets: map<Bucket, seq<Cell>>, places: map<Bucket, seq<nat>>, b: Bucket)
    requires Points(cells, buckets, places)
    ensures b in buckets <==> b in places
    ensures b in places ==> |buckets[b]| == |places[b]| && forall k :: 0 <= k < |places[b]| ==>
      places[b][k] < |cells| && buckets[b][k] == cells[places[b][k]]
  {
  }

  lemma PointsAppend(cells: seq<Cell>, buckets: map<Bucket, seq<Cell>>, places: map<Bucket, seq<nat>>, b: Bucket,
                     c: Cell)
    requires Points(cells, buckets, places)
    ensures Points(cells + [c], buckets[b := (if b in buckets then buckets[b] else []) + [c]],
                   places[b := (if b in places then places[b] else []) + [|cells|]])
  {
  }

  lemma SameBucket(r: Rules, g: Group)
    ensures BucketOf(r, Absorb(Fresh(g), g)) == BucketOf(r, g)
  {
  }

  /** Merging in place, through cells that buckets and output order share. */
  method MergeGroups(r: Rules, groups: seq<Group>) returns (out: seq<Group>)
    ensures out == Merged(r, groups)
  {
    hide Place;
    hide Indexed;
    hide Points;
    var buckets: map<Bucket, seq<Cell>> := map[];
    var order: seq<Cell> := [];
    ghost var places: map<Bucket, seq<nat>> := map[];
    NothingIndexed(r);
    for i := 0 to |groups|
      invariant Holds(order, Fold(r, groups[..i]))
      invariant Indexed(r, Fold(r, groups[..i]), places) && Points(order, buckets, places)
      invariant forall j :: 0 <= j < |order| ==> fresh(order[j])
    {
      assert groups[..i + 1][..i] == groups[..i];
      order, buckets, places := PlaceValue(r, order, buckets, places, Fold(r, groups[..i]), groups[i]);
    }
    assert groups[..|groups|] == groups;
    out := [];
    for i := 0 to |order|
      invariant |out| == i && forall j :: 0 <= j < i ==> out[j] == Finish(r, order[j].value)
    {
      out := out + [Finish(r, order[i].value)];
    }
  }

  lemma NothingIndexed(r: Rules)
    ensures Indexed(r, [], map[]) && Points([], map[], map[])
  {
  }
}
