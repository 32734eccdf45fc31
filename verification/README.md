# aninode: a verified model of its decision and publication core

aninode reads release feeds, decides which releases to download, submits them to downloaders, and publishes the
downloaded files as hardlinks in a library. This project models the parts of it whose guarantees are global and
proves them for all inputs, all subsets, all runs or all interleavings.

* **Selection** (`Episode`, `Catalog`, `Candidate`, `SelectionOrder`, `SelectionSort`, `Selection`, `CandidatePlan`,
  `PlanProperties`, `PlanBuilder`). Releases are routed to a target season, evaluated, deduplicated and then scheduled:
  per season, the non-overlapping set with the largest episode coverage and, among those, the best quality. The dynamic
  program is proved to return the one optimum among all compatible subsets under the whole order, the outcome to rank
  releases by score, revision, priority, publication and ID, and not to depend on the order of the input or of any map
  iteration.
* **Publication** (`Namespace`, `Organizer`, `Publication`). The file system maps clean absolute paths to objects, and
  every change, our own or another actor's, is a step in a trace. The planner, `ApplyPlan` and the alias convergence
  are proved safe under arbitrary interference and stale observations, and convergent and idempotent in quiet runs.
* **Bencode** (`Bencode`, `TorrentMeta`). A generic decoder defines the format; the repository's skipper, its
  specialised readers and `Parse` are proved against it, and the decoder against an encoder. Bytes are characters.
* **Projection and ownership** (`Snapshots`, `Projection`, `Ownership`, `SortedKeys`). The one-pass projection onto many
  roots and the inverse ownership index are proved equal to the simple definitions they replace.
* **Protocols**. `Reconcile` is the coalescing runner with its one-slot completion channel, `MetadataCache` and
  `SingleFlight` the bounded metainfo cache with coalesced fetches, `Acquire` the submission of releases to downloaders
  whose answers may be lost. They are atomic steps at mutex and channel boundaries, and the theorems are about every
  interleaving.
* **Discovery and configuration**. `Discovery` merges discovered groups through shared cells. `ConfigStore` and
  `ClientTransactions` are the rollback transactions over configuration files, secrets and the runtime built from them,
  with every combination of I/O faults.

Code that changes state step by step is a class or a method with loops, proved equal to a function of its inputs or
its old state; the theorems are lemmas about those functions. Visiting a Go map or set is an arbitrary choice.

Some guarantees one would expect of the code do not hold everywhere. They are stated with the exact condition and a
witness:

* a range keeps its width under projection if and only if its release names a season or its two ends belong to folders
  of one offset, an end without a folder counting as offset zero (`Catalog.RangeIsRigidIff`, with the witness
  `Catalog.MixedEndsCanShrink`);
* no acquisition has two tasks anywhere as long as every run chooses the same downloader (`Acquire.SameClientCycles`).
  Once another downloader holds its task, an accepted submission makes a second one if and only if the snapshot lets it
  through (`Acquire.SecondTaskIff`), and a run lists only the one downloader that is configured, so what the other holds
  does not count (`Acquire.AloneUnhindered`). A run configured for one downloader and then one configured for another
  end with one task in each (`Acquire.ChangedDownloaderHoldsTwo`);
* a link that cannot be verified is taken back without another look (`internal/filesystem/link_linux.go:75-89`). The undo
  removes our own link if others left the fresh name alone (`Publication.UndoHitsOwnLink`), and otherwise can remove
  another actor's name (`Publication.UndoCanHitForeignName`);
* a Put or a SaveClient can report an error and still have changed the files: `internal/atomicfile/atomicfile.go:23-26`
  fails after the rename when the directory cannot be synced, which `internal/configstore/write.go:49-51` returns
  without a rollback (`ConfigStore.PutUnchangedIff`, with the witness `ConfigStore.HalfWrittenPutStays`), and
  `internal/application/management.go:569-572` checks the secret's status after the commit
  (`ClientTransactions.SaveUnchangedIff`, with the witness `ClientTransactions.CommittedErrorExists`).

## Model

| member | source | states |
|---|---|---|
| Episode.OverlapsIffShares | internal/episode/episode.go:56-64 | two keys overlap exactly when they are of one Entry and season and address a common episode, symmetrically |
| Episode.CoversIffContainsAll | internal/episode/episode.go:67-72 | a key covers another exactly when it addresses every episode of it, of which there is at least one |
| Episode.WidthCountsEpisodes | internal/episode/episode.go:75-80 | width is the number of addressed episodes |
| Catalog.NearestFolder | internal/catalog/catalog.go:1393-1406 | the loop finds the folder ending last before the episode, and whether another ends there too |
| Catalog.ProjectObservedEpisode | internal/catalog/catalog.go:1354-1423 | the evidence loops decide as the declarative projection: unique season match, unique containing range, unique nearest preceding range, sole folder, sole season |
| Catalog.ProjectionIgnoresOrder | internal/catalog/catalog.go:1354-1423 | permuting the evidence never changes where an episode goes |
| Catalog.ProjectionAppliesOffset | internal/catalog/catalog.go:1366-1404 | a resolved episode is the parsed one plus the offset of the folder it went through, or plus nothing |
| Catalog.RangeIsRigid | internal/catalog/catalog.go:1354-1423 | two ends through the same folder keep the range's width and season; with one end through a folder the width is kept if and only if that folder's offset is zero |
| Catalog.SeasonlessRouting | internal/catalog/catalog.go:1378-1422 | over the folders' observed episodes: a seasonless episode goes through the only folder holding it, else the only nearest one before it, else the only folder, with that folder's offset, else into the only season, else nowhere |
| Catalog.NamedRouting | internal/catalog/catalog.go:1358-1376 | an episode of a named season goes through the only folder of that season with its offset, and otherwise into the named season as it is |
| Catalog.RangeIsRigidIff | internal/catalog/catalog.go:1354-1423 | a range whose ends resolve keeps its width if and only if its release names a season, or both ends belong to folders of one offset |
| Catalog.MixedEndsCanShrink | internal/catalog/catalog.go:1354-1423 | a concrete range over three folders of the only season whose two resolved ends move closer together |
| Catalog.MajoritySeason | internal/catalog/catalog.go:444-461 | the chosen season has the most votes, and is the least among equals, in any order of the counts; none only without votes |
| Catalog.MajorityUnique | internal/catalog/catalog.go:455-460 | the majority season is determined by the votes |
| Catalog.NextFree | internal/catalog/catalog.go:473-475 | the search stops at the least free season |
| Catalog.NumberContainers | internal/catalog/catalog.go:462-478 | known seasons are kept, and each unknown container gets the least positive season no known or earlier container uses |
| Catalog.NumbersIncrease | internal/catalog/catalog.go:468-478 | fallback seasons strictly increase in path order |
| Catalog.NumberingUnique | internal/catalog/catalog.go:468-478 | the numbering is determined by the known seasons |
| Candidate.EvaluatedIsReady | internal/candidate/plan.go:198-257 | a selected candidate carries the Entry's key, its identity, a positive start, and special exactly for season zero |
| Candidate.EvaluationMeaning | internal/candidate/plan.go:198-257 | a release is filtered exactly if a filter rejects it, and otherwise selected if and only if it has an identity and is a movie or has a range whose ends resolve to one season at positive numbers and not through two folders |
| Candidate.SelectedKeys | internal/candidate/plan.go:214-247 | a selected range has the season and numbers its ends were routed to and the release's revision; its source key has the release's own numbers and season, 1 if it names none |
| Candidate.EvaluationKeepsWidth | internal/candidate/plan.go:210-246 | an accepted range keeps the release's width if and only if the release names a season or both ends belong to folders of one offset; the source folder is the one an end went through |
| Candidate.BetterTrichotomy | internal/candidate/plan.go:398-416 | quality order is asymmetric, and candidates it cannot separate have one acquisition ID |
| Candidate.BetterTransitive | internal/candidate/plan.go:398-416 | quality order is a strict weak order |
| SelectionSort.SortInOrder | internal/candidate/plan.go:435-456 | the stable sort puts every pair in order |
| SelectionSort.SortKeepsElements | internal/candidate/plan.go:435-456 | sorting neither loses nor repeats positions |
| SelectionSort.QualitySortIsRankSort | internal/candidate/plan.go:483-485 | on ascending positions a stable quality sort is the sort that also breaks ties by position |
| SelectionSort.RankedStrictly | internal/candidate/plan.go:435-456 | a rank-sorted selection is strictly ranked |
| SelectionOrder.BeatsTransitive | internal/candidate/plan.go:425-475 | the comparison of selections is transitive |
| SelectionOrder.BeatsAsymmetric | internal/candidate/plan.go:425-475 | no selection beats itself or one that beats it |
| SelectionOrder.BeatsTotal | internal/candidate/plan.go:425-475 | of two different selections one beats the other |
| SelectionOrder.BeatsInsert | internal/candidate/plan.go:522-527 | adding the same release to both sides keeps the comparison; this carries optimality through the recurrence |
| SelectionOrder.OptimumUnique | internal/candidate/plan.go:512-531 | a group has one optimum |
| SelectionOrder.OmittedOverlaps | internal/candidate/plan.go:538-556 | whatever an optimum omits overlaps something it keeps, so the fallback reason is unreachable |
| SelectionOrder.CoverageCountsEpisodes | internal/candidate/plan.go:524 | on compatible sets the summed widths count distinct episodes |
| SelectionOrder.OptimumIgnoresOrder | internal/candidate/plan.go:398-531 | with distinct acquisition IDs the optimum commutes with reordering the input |
| Selection.BetterSelection | internal/candidate/plan.go:425-475 | comparing coverage, then ranked lists, then counts decides exactly the order defined through the best element of the symmetric difference |
| Selection.FirstDifference | internal/candidate/plan.go:457-469 | the first difference of the ranked lists decides |
| Selection.Compatibles | internal/candidate/plan.go:514-521 | the candidate overlaps exactly the earlier ones after the found predecessor |
| Selection.IncludeBeats | internal/candidate/plan.go:522-524 | among compatible sets with the candidate, extending the predecessor's optimum is best |
| Selection.ScheduleStep | internal/candidate/plan.go:522-530 | the better alternative is the optimum of one more candidate |
| Selection.Alternatives | internal/candidate/plan.go:522-530 | one table step from two optima gives the next optimum |
| Selection.Schedule | internal/candidate/plan.go:495-531 | the dynamic program returns the optimum over all pairwise non-overlapping subsets of the group |
| CandidatePlan.Plan.CollectGroups | internal/candidate/plan.go:386-396 | groups list exactly the selected candidates of a movie or season, ascending |
| CandidatePlan.Plan.SettleMovie | internal/candidate/plan.go:482-493 | the best movie release stays and the others name it; nothing else changes |
| CandidatePlan.Plan.Conflicting | internal/candidate/plan.go:542-552 | the named conflict is the best-ranked overlapping winner, in any iteration order |
| CandidatePlan.Plan.SettleSeason | internal/candidate/plan.go:501-557 | exactly the optimum stays selected, every other member is superseded with its conflict named, nothing else changes |
| CandidatePlan.Plan.SelectBestByScore | internal/candidate/plan.go:385-559 | every group is settled and every other candidate untouched, whatever order the groups are visited in |
| PlanProperties.SelectedAreDisjoint | internal/candidate/plan.go:385-559 | no two candidates left selected anywhere in the plan overlap; a movie keeps one |
| PlanProperties.SupersededNamesWinner | internal/candidate/plan.go:538-556 | every superseded series candidate overlaps a selected one and names it |
| PlanProperties.MovieKeepsOne | internal/candidate/plan.go:482-493 | of the selected releases of a movie exactly one stays, and every other is superseded naming it |
| PlanProperties.MovieRanking | internal/candidate/plan.go:398-493 | over the fields: a movie release is superseded if another of the movie scores higher, or ties and has the higher revision, then the lower priority number, then the later publication, then the lesser ID |
| PlanProperties.SeasonRanking | internal/candidate/plan.go:398-557 | the same of two releases of one season with the same episode range |
| PlanProperties.InterchangeableYields | internal/candidate/plan.go:425-531 | an optimum keeps no release that a better one of the same range could stand in for |
| PlanProperties.SeasonCoversMost | internal/candidate/plan.go:495-531 | what stays selected of a season covers at least as many episodes as any non-overlapping set of its releases |
| Text.LessIff | internal/candidate/plan.go:415 | IDs compare by the first difference: the lesser one ends there or has the lesser byte |
| PlanProperties.SelectionIgnoresOrder | internal/candidate/plan.go:385-559 | with distinct acquisition IDs, reordering the plan changes no decision and no reason |
| PlanBuilder.AdmissionKeepsFirst | internal/candidate/plan.go:81-87 | the first selected release of an acquisition ID stays selected and any later one becomes a duplicate; facts, order and other decisions are kept |
| PlanBuilder.FeedMeaning | internal/candidate/plan.go:64-90 | a feed plan is made of exactly the evaluations of the releases an enabled source of an Entry offers, of no contradicting medium and matching the Entry; disabled and unknown sources contribute nothing |
| PlanBuilder.BoundReleasesMeaning | internal/candidate/plan.go:140-161 | a bound search keeps every release in order, evaluated, or invalid if its medium contradicts |
| PlanBuilder.BoundSourcesMeaning | internal/candidate/plan.go:131-162 | a bound plan is made of the results of every source |
| PlanBuilder.SettledIsConflictFree | internal/candidate/plan.go:385-559 | a settled plan with distinct IDs has no two selected candidates with one ID or one episode |
| PlanBuilder.BuildObserved | internal/candidate/plan.go:61-94 | the feed plan is the settled admission of all evaluated releases, and conflict free |
| PlanBuilder.BuildBoundPlan | internal/candidate/plan.go:116-168 | the bound plan likewise; it fails exactly for unknown or disabled sources |
| Namespace.FileSystem.Lstat | internal/organizer/plan.go:578-589 | a successful observation was true at some moment during the call |
| Namespace.FileSystem.CheckSource | internal/filesystem/link_linux.go:52-59 | the source named the expected object when checked; what it names by the time of the link differs only if another actor just rebound it |
| Namespace.FileSystem.LinkObserved | internal/filesystem/link_linux.go:20-95 | links only below the target root, never over an existing name, a wrong object only after a last-moment rebinding, and takes back only its own fresh link; on success the name denotes the expected object; exact result when nobody interferes; a right link is taken back only if another actor took the name away or a call failed |
| Namespace.FileSystem.VerifyLink | internal/filesystem/link_linux.go:75-94 | the new name is kept only if it denotes the expected object, otherwise an undo ends the call |
| Namespace.FileSystem.TakeBack | internal/filesystem/link_linux.go:76-89 | the unverified unlink is a step of its own |
| Namespace.FileSystem.RemoveObservedLink | internal/filesystem/remove_linux.go:19-56 | removes only the expected object's name strictly below the root; exact result when nobody interferes |
| Organizer.FilePlanner.File | internal/organizer/plan.go:350-428 | one file becomes the item its layout, the known destinations and the target's contents demand, and claims its destination |
| Organizer.FilePlanner.PlanPaths | internal/organizer/plan.go:272-310 | the plan is the fold of the files in order |
| Organizer.BuildDesired | internal/organizer/plan.go:548-568 | the loop builds the desired names of each planned object |
| Organizer.DesiredMeaning | internal/organizer/plan.go:548-568 | an object is planned exactly if an item has it, never one without identity, and its desired names are exactly the destinations of its link and existing items |
| Organizer.ApplyPlan | internal/organizer/plan.go:432-526 | every step is a planned link or takes such a link back; without interference the namespace is the applied plan and the count is the number of new names; a run that reports no failure has counted every item once under its action; overlapping trees are refused |
| Organizer.Prove | internal/organizer/plan.go:577-592 | an object counts as proven only if each desired name was seen to denote it |
| Organizer.RemoveStale | internal/organizer/plan.go:593-611 | exactly the stale observed names of the proven object go, and without a failure they are counted exactly |
| Organizer.ConvergePublicationAliases | internal/organizer/plan.go:540-613 | every removal follows proof of all desired names; without interference the namespace is the converged one in any object order; nothing happens without a managed publication root or outside the observed library |
| Organizer.ApplyPlanWithLibrarySnapshot | internal/organizer/plan.go:533-538 | the two phases in sequence, and their joint result without interference |
| Publication.RunIsSafe | internal/organizer/plan.go:432-613 | with arbitrary plans, snapshots and interference, even inside LinkObserved, our steps never rebind a name; a created name is a planned destination of the planned object, unless another actor rebound the source at the last moment; a removed name denoted a planned object, lay below the publication root, was not desired, and all its object's desired names had been seen, or it is taken back after this run linked it |
| Publication.UndoHitsOwnLink | internal/filesystem/link_linux.go:75-89 | taking back a link whose name others left alone removes exactly that link |
| Publication.UndoCanHitForeignName | internal/filesystem/link_linux.go:75-89 | a history in which another actor rebinds the fresh name and the undo removes that actor's name |
| Publication.SourceNamesSurvive | internal/organizer/plan.go:432-613 | no run removes a name of the source tree, not by an undo either |
| Publication.RemovalLeavesDesiredNames | internal/organizer/plan.go:576-611 | after a removal each desired name others left alone still denotes the object, so the last wanted name never goes |
| Publication.PlanMeaning | internal/organizer/plan.go:350-428 | what each planned item says about its file, destination and action |
| Publication.ActionMeaning | internal/organizer/plan.go:367-428 | an item is excluded exactly if its file is blacklisted and unmatched exactly if unrecognized; one with a place exists, is a conflict, or is a link exactly as the target and the earlier links of other objects say |
| Publication.ClaimsAreLinks | internal/organizer/plan.go:413-424 | a destination is claimed by another object exactly if an earlier link of the plan gives it to one |
| Publication.EveryFileIsPlanned | internal/organizer/plan.go:272-310 | a file has an item if and only if it is a media file whose name does not lead out of the target |
| Publication.PlanAgrees | internal/organizer/plan.go:384-427 | two wanted items with one destination are names of one object |
| Publication.AppliedMeaning | internal/organizer/plan.go:432-526 | applying fresh items keeps every name and adds exactly the wanted ones |
| Publication.QuietRunConverges | internal/organizer/plan.go:432-613 | after a quiet run each planned object is named below the publication root by exactly its desired names, all other names are unchanged and nothing else appears |
| Publication.DesiredByLayout | internal/organizer/plan.go:548-568 | over a fresh plan an object is planned exactly if a file of it is blacklisted or placed without conflict, and its desired names are exactly those places |
| Publication.LayoutDecidesNames | internal/organizer/plan.go:350-613 | after a quiet run an object with a blacklisted or placed file is named below the publication root exactly at the places of its files, so a blacklisted one without a place nowhere; an object none of whose files is blacklisted or placed keeps every name it had |
| Publication.SourcesUnchanged | internal/organizer/plan.go:432-613 | the source tree looks the same afterwards |
| Publication.SecondRunIsIdle | internal/organizer/plan.go:350-613 | after a conflict-free quiet run, planning and applying again links nothing, removes nothing and changes nothing |
| Publication.PlanAndApply | internal/organizer/plan.go:272-613 | planning and applying in a quiet environment leaves the published namespace, with exact link count |
| Publication.PublishTwice | internal/organizer/plan.go:272-613 | of two quiet runs over fresh observations the second links 0, removes 0 and leaves the namespace as it is |
| Bencode.DecodeEncode | internal/torrentmeta/meta.go:181-247 | decoding an encoded value inside any input returns it and consumes exactly its bytes |
| Bencode.DecodeLocal | internal/torrentmeta/meta.go:181-247 | a decoded value depends only on the bytes it consumed |
| Bencode.DecodedIsEncodable | internal/torrentmeta/meta.go:181-247 | whatever is accepted can be encoded: no empty integer and no length beyond a 64-bit int gets through |
| TorrentMeta.WrappedLengthCheck | internal/torrentmeta/meta.go:241-245 | with 64-bit wrap-around the length test rejects exactly strings running past the input |
| TorrentMeta.ReadBytes | internal/torrentmeta/meta.go:226-247 | the string reader is the declarative one, with its wrap-around test |
| TorrentMeta.SkipValue | internal/torrentmeta/meta.go:181-224 | the skipper accepts exactly decodable values and returns their end; recursion terminates |
| TorrentMeta.ReadStringList | internal/torrentmeta/meta.go:161-179 | the string list reader is the declarative one |
| TorrentMeta.ReadFileList | internal/torrentmeta/meta.go:105-159 | the file list reader is the declarative one |
| TorrentMeta.ReadInfo | internal/torrentmeta/meta.go:55-103 | the info loop returns the name and files of the scanned dictionary |
| TorrentMeta.Parse | internal/torrentmeta/meta.go:22-53 | the root loop finds the info slice, reads it and digests it |
| TorrentMeta.ReadersAdvanceAlike | internal/torrentmeta/meta.go:105-247 | whatever a specialised reader accepts the skipper accepts with the same end, beyond the start and inside the input |
| TorrentMeta.ReadersAreLocal | internal/torrentmeta/meta.go:105-247 | every reader depends only on the bytes it consumed |
| TorrentMeta.InfoIsLastBinding | internal/torrentmeta/meta.go:55-103 | the last name, utf-8 name and files bound in the dictionary win |
| TorrentMeta.PathIsLastBinding | internal/torrentmeta/meta.go:105-159 | a file entry has the path bound last, its utf-8 variant preferred unless empty |
| TorrentMeta.ScanInfoIsGeneric | internal/torrentmeta/meta.go:55-103 | on a complete dictionary the info loop sets what its decoded entries set |
| TorrentMeta.SliceIsGeneric | internal/torrentmeta/meta.go:47-52 | reading an info slice is projecting the value it decodes to |
| TorrentMeta.RootIsGeneric | internal/torrentmeta/meta.go:26-46 | the root loop finds the position and the value of exactly the last entry bound to info |
| TorrentMeta.ParseDecoded | internal/torrentmeta/meta.go:22-53 | for every input starting with a readable dictionary, Parse returns what its last info entry carries and the digest of exactly the bytes of that entry's value, and fails without one |
| TorrentMeta.ParseEncoded | internal/torrentmeta/meta.go:22-53 | the round trip: parsing an encoded root returns its info's name and files and the digest of the encoded info |
| TorrentMeta.AcceptableIff | internal/torrentmeta/meta.go:55-93 | an info dictionary is accepted exactly if all its names are byte strings and all its file lists are readable |
| TorrentMeta.ParsedName | internal/torrentmeta/meta.go:55-103 | the parsed name is the last name.utf-8 unless that is empty, else the last name; parsing fails exactly if the last info value is no acceptable dictionary or has neither |
| TorrentMeta.TorrentRoundTrip | internal/torrentmeta/meta.go:22-159 | a torrent made of an announce URL, a name and file paths parses to that name, those paths joined by slashes in order, and the digest of its info dictionary |
| TorrentMeta.JoinConcat | internal/torrentmeta/meta.go:152 | joining is piecewise, with one slash between |
| TorrentMeta.SplitJoin | internal/torrentmeta/meta.go:152 | a joined path splits into its components again, unless one holds a slash |
| Snapshots.AddRegularKeepsForm | internal/filesystem/filesystem.go:231-239 | recording an unseen path keeps paths and objects consistent |
| Snapshots.SubtreeWellFormed | internal/filesystem/filesystem.go:253-279 | a projection is a consistent snapshot |
| Snapshots.SubtreeMeaning | internal/filesystem/filesystem.go:253-279 | a projection has exactly the directories, names, objects and problems whose paths start with the root, each object with exactly its names there, none lost or repeated |
| Snapshots.NestedProjection | internal/observation/graph.go:36-57 | projecting through an enclosing subtree first changes nothing |
| Projection.Subtree | internal/filesystem/filesystem.go:253-279 | the loop projects exactly the facts below the root, in any map order |
| Projection.Owners | internal/filesystem/filesystem.go:298-309 | walking up from a path finds exactly the roots above it |
| Projection.ProjectSubtrees | internal/filesystem/filesystem.go:284-334 | the one-pass projection equals the single projection for every root, nested, equal or missing |
| Projection.ProjectEntries | internal/observation/graph.go:36-57 | projecting Entries from the namespace projection equals projecting the physical snapshot |
| SortedKeys.SortedUnique | internal/claim/claim.go:254-287 | a set of keys has one sorted list |
| Ownership.SourceOwners | internal/observation/graph.go:76-96 | the narrowing loop returns, sorted, exactly the Entries owning every object of a non-empty task, and none for an empty one |
| Ownership.SourceIndex.IndexEntry | internal/claim/claim.go:66-76 | indexing an Entry extends the exact inverse of the namespaces |
| Ownership.BuildSourceIndexFromGraph | internal/claim/claim.go:64-78 | the built index is the exact inverse of the graph's namespaces for all its Entries |
| Ownership.SourceIndex.AddOwner | internal/claim/claim.go:64-78 | filing one namespace keeps the index exact |
| Ownership.SourceIndex.DropOwner | internal/claim/claim.go:82-100 | removing one Entry keeps the index exact, without empty lists |
| Ownership.SourceIndex.RefreshEntry | internal/claim/claim.go:82-113 | after a refresh the index is the exact inverse of the refreshed namespaces |
| Ownership.RefreshAll | internal/claim/claim.go:82-113 | after any sequence of refreshes the index is the exact inverse of the namespaces they leave |
| Ownership.RefreshesMatchRebuild | internal/claim/claim.go:64-113 | a built and then refreshed index has the owner sets and uncertain Entries of one built from the current namespaces |
| Ownership.SourceIndex.PhysicalOwners | internal/claim/claim.go:254-287 | the fast form returns the simple form's owners in every order, and withholds them exactly when an uncertain Entry lies outside them |
| Ownership.ExactIsUnique | internal/claim/claim.go:64-113 | two exact indexes of one namespace state have the same owner sets |
| Ownership.ReportedOwnersAreTrue | internal/claim/claim.go:254-287 | reported owners are the owners of the real tree, whatever could not be observed |
| Ownership.WithheldOwnersCouldDiffer | internal/claim/claim.go:254-287 | for a task with objects, owners are withheld only where an unobserved subtree could change them |
| Reconcile.Service.RequestReconcile | internal/server/server.go:170-209 | the critical section of a request: start, or coalesce |
| Reconcile.Service.CloseCycle | internal/server/server.go:211-229 | the critical section at a cycle's end: the pending work becomes the cycle, or the loop ends |
| Reconcile.Service.TrySend | internal/server/server.go:304-310 | the non-blocking send succeeds exactly into a free slot |
| Reconcile.Service.Drain | internal/server/server.go:311-316 | an unread completion is taken back and merged |
| Reconcile.Service.Send | internal/server/server.go:317 | the final send fills the slot and may only be reached with it free |
| Reconcile.CoalescePlausible | internal/server/server.go:175-196 | pending stays one of the five values, and the request is subsumed by the running cycle or included in pending without dropping earlier intents |
| Reconcile.StepKeepsInvariant | internal/server/server.go:170-318 | every step of requesters, runner, notifier and scheduler keeps the protocol invariant |
| Reconcile.RunnerKeepsBalance | internal/server/server.go:211-318 | a runner's step hands kinds on, to the notifier and the channel, and keeps the union of kinds sent equal to the union of kinds received and held |
| Reconcile.ReceiveKeepsBalance | internal/server/server.go:550-559 | the scheduler takes exactly what the channel held, and the two unions stay equal |
| Reconcile.AlwaysSafe | internal/server/server.go:170-318 | in every interleaving at most one runner is live, the notifier's last send never blocks, and the kinds sent are exactly the kinds received and those still held, by the channel alone once the notifier is done |
| Reconcile.NoRequestLost | internal/server/server.go:170-229 | absent cancellation each request was subsumed, was followed by a cycle including it, or is still pending under a live runner |
| Reconcile.NoWorkMadeUp | internal/server/server.go:170-229 | in every interleaving the pending work is exactly what was asked for since the running cycle started and is not being done, full work standing for all, and every kind of work a cycle does was asked for after the cycle before it had started |
| Reconcile.NoCycleFollowsCancel | internal/server/server.go:211-229 | after cancellation every cycle that starts is the first of a loop its own request started |
| Reconcile.EveryRequestServed | internal/server/server.go:170-229 | left alone the runner ends within nine steps, and every request was subsumed or followed by a cycle including it |
| MetadataCache.SearchFindsLeast | internal/rss/metadata_cache.go:127-133 | among non-empty keys the eviction search finds the least (expiry, key) in any order |
| MetadataCache.EmptyKeyIsPassedOver | internal/rss/metadata_cache.go:127-133 | an empty key with company would be missed in some order |
| MetadataCache.EvictionIsLeastIff | internal/rss/metadata_cache.go:126-135 | what the search relies on: over any entries it finds the least in every order if and only if the least is not an empty key with company, which the cache never holds |
| MetadataCache.Cache.Remove | internal/rss/metadata_cache.go:105-115 | exactly the key, its bytes and a hash that led to it go |
| MetadataCache.Cache.Lookup | internal/rss/metadata_cache.go:73-83 | returns exactly unexpired entries and forgets expired ones |
| MetadataCache.Cache.CachedByHash | internal/rss/metadata_cache.go:87-103 | a hash lookup finds the metainfo exactly if the hash is known and its entry has not expired, and what it returns has that hash |
| MetadataCache.Cache.Oldest | internal/rss/metadata_cache.go:127-133 | the search ends on the least entry, in any map order |
| MetadataCache.Cache.Evict | internal/rss/metadata_cache.go:126-135 | eviction terminates and takes no more than needed, earlier expiries first and lesser keys among equals; exactly the hashes of survivors stay |
| MetadataCache.Cache.Put | internal/rss/metadata_cache.go:117-141 | the byte count is the sum of sizes, both bounds hold, hashes lead to their entries, and the least entries made room; the stored entry, the survivors and the hashes that stay are stated |
| MetadataCache.SizeCountsTexts | internal/rss/metadata_cache.go:118-121 | the size of an entry is the length of its texts, 16 per file and 128 besides |
| SingleFlight.Fetcher.Begin | internal/rss/metadata_cache.go:154-170 | the first critical section: hit, join or own |
| SingleFlight.Fetcher.Finish | internal/rss/metadata_cache.go:172-180 | the last critical section: a success that fits is in the cache with a fresh expiry and only what eviction needed is gone, a failure leaves the cache alone; the outcome is published, the flight ends |
| SingleFlight.AlwaysInvariant | internal/rss/metadata_cache.go:146-181 | every interleaving keeps the flight invariant |
| SingleFlight.OneFetchPerURL | internal/rss/metadata_cache.go:146-181 | at most one fetch per URL is in progress, and a flight is registered exactly while one is |
| SingleFlight.NothingCachedForEmptyURL | internal/rss/metadata_cache.go:171-175 | no interleaving stores an entry for the empty URL |
| SingleFlight.WaitersShareOutcome | internal/rss/metadata_cache.go:158-166 | owner and uncancelled waiters of a flight return the same value or error |
| SingleFlight.CacheHoldsFetchedValues | internal/rss/metadata_cache.go:171-176 | whatever is cached or returned for a URL was fetched successfully for it |
| SingleFlight.FetchIsReused | internal/rss/metadata_cache.go:146-181 | a call begun after a successful fetch of its URL, before the expiry and while the entry is not forgotten, returns that value without a new flight |
| Acquire.UniqueMatch | internal/automation/automation.go:503-517 | reports ambiguity exactly for several matches, else the match if any |
| Acquire.Judge | internal/automation/automation.go:211-237 | the first observed task that decides the matter |
| Acquire.Resolve | internal/automation/automation.go:187-240 | whatever order the map iteration picks, the checks before Add end in a submission exactly when nothing seen speaks against it, name the one task the acquisition already has, or name a task that covers the wanted episode |
| Acquire.SubmitIff | internal/automation/automation.go:187-240 | Add is reached if and only if the chosen downloader was listed without a match, no noticed listing failed and every observed task is harmless; the order does not matter |
| Acquire.SubmitListings | internal/automation/automation.go:87-240 | an Add follows a failed listing if and only if another downloader's bulk listing failed; with at most one configured it never does |
| Acquire.DecisionMeaning | internal/automation/automation.go:187-240 | in any order: the acquisition is already there exactly if the chosen downloader shows one task of it, several or no listing refuse; without one, a refusal has a failed or unclear observation behind it and a duplicate a covering task |
| Acquire.SilentListingFailure | internal/automation/automation.go:87-111 | what the checks would let through if the loader allowed several downloaders: another one's failed bulk listing does not prevent an Add |
| Acquire.ChangedDownloaderSubmitsAgain | internal/automation/automation.go:195-240 | a run that lists only the new downloader lets an acquisition through whose task is in the old one; listing both would too |
| Acquire.AloneUnhindered | internal/automation/automation.go:187-240 | with a single downloader configured exactly its own successful listing, without a match or an obstacle, lets a submission through |
| Acquire.SecondTaskIff | internal/automation/automation.go:187-302 | when another downloader holds the only task of an acquisition, an accepted submission makes a second one if and only if the wanted release is ready and the snapshot does not hinder it |
| Acquire.ChangedDownloaderHoldsTwo | internal/automation/automation.go:128-302 | a run configured for one downloader and then a run configured for another leave one task of the acquisition in each |
| Acquire.Runner.ObserveOne | internal/automation/automation.go:89-109 | a failed bulk listing leaves the downloader out, any other failed one is remembered, a successful one is kept |
| Acquire.Runner.Observe | internal/automation/automation.go:87-111 | the snapshot lists exactly the configured downloaders and bounds what each listed one holds, despite interference meanwhile |
| Acquire.NothingYet | internal/automation/automation.go:196-249 | a snapshot without a match proves that nothing was added for the acquisition |
| Acquire.AddKeepsBounds | internal/automation/automation.go:249-266 | after an Add, accepted or not, the bound is lost for its acquisition only and no acquisition has two tasks |
| Acquire.Runner.SubmitTo | internal/automation/automation.go:249 | one attempt, whose acceptance adds exactly one task of the acquisition; the snapshot stays a bound for all other acquisitions |
| Acquire.Runner.Conclude | internal/automation/automation.go:250-301 | Submitted only after an answer, Recovered only if a new listing shows the one task, and exactly then if nothing else fails; a submitted task is added to the snapshot, which stays a bound |
| Acquire.Runner.EnsureOwned | internal/automation/automation.go:187-302 | an attempt is made exactly when the snapshot allows it, the outcome follows the decision, no downloader holds two tasks added for one acquisition, and if accepted the number of its tasks over all downloaders grows if and only if the snapshot allows it; an accepted submission ends Submitted or Recovered if nothing else fails |
| Acquire.Runner.Consider | internal/automation/automation.go:150-174 | an unknown Entry fails, an acquisition seen in the run is skipped, any other is ensured once and remembered |
| Acquire.Runner.AcquireObserved | internal/automation/automation.go:143-183 | the loop: one outcome per selected candidate, at most one attempt per acquisition ID, and none unless the starting snapshot shows every listing succeeded that is noticed |
| Acquire.Runner.Acquire | internal/automation/automation.go:128-183 | one outcome per selected candidate, at most one attempt per acquisition ID and run, only for selected candidates of known Entries and only at the chosen downloader; with at most one downloader configured, no Add unless every listing the run started from succeeded |
| Acquire.Cycles | internal/automation/automation.go:128-302 | over any number of runs, each listing what its own configuration names, answers lost or not and others interfering, no downloader holds two tasks added for one acquisition, and a downloader never chosen receives none |
| Acquire.SameClientCycles | internal/automation/automation.go:128-302 | if every run chooses the same downloader and no other holds a task of the acquisition, then over all downloaders together there is never more than one, and none elsewhere |
| Discovery.AddReleasesMeaning | internal/discovery/discovery.go:118-128 | appending keeps release keys distinct and yields the union of the keys |
| Discovery.AddReleasesKeeps | internal/discovery/discovery.go:118-128 | the releases already there stay in front, with the details they came with |
| Discovery.AddIDsMeaning | internal/discovery/discovery.go:129-134 | appending IDs keeps them distinct and yields the union |
| Discovery.FirstInBucket | internal/discovery/discovery.go:98-105 | the first fit of a bucket is the first fit of all groups |
| Discovery.Cell.Take | internal/discovery/discovery.go:115-134 | a group takes a value in place as the absorbing function says |
| Discovery.PlaceValue | internal/discovery/discovery.go:97-135 | one value updates the shared cell it joins or adds a cell to its bucket and the order |
| Discovery.MergeGroups | internal/discovery/discovery.go:94-145 | merging through shared cells is the declarative merge |
| Discovery.FoldPartitions | internal/discovery/discovery.go:94-135 | every input has one output; an output knows exactly what its inputs know; inputs with different known years never share one; outputs of one bucket have pairwise different known years |
| Discovery.MergedPartitions | internal/discovery/discovery.go:94-145 | the same of the finished groups, whose IDs are sorted and whose options are recomputed |
| Discovery.DifferentStayApart | internal/discovery/discovery.go:98-105 | groups of different media, titles, seasons or known years never end up in one |
| Discovery.AlikeMeet | internal/discovery/discovery.go:98-105 | groups of one medium, title, season and known year do |
| Discovery.ReleasesMerged | internal/discovery/discovery.go:118-128 | an output group offers exactly its inputs' releases, told apart by identifier, address and title, each once |
| Discovery.FirstInputNames | internal/discovery/discovery.go:106-114 | an output group keeps medium, title, season and Entry of its first input |
| Discovery.BucketsKeepFacts | internal/discovery/discovery.go:94-145 | each bucket keeps exactly the release keys, source IDs and acquisition IDs that went in |
| Discovery.ApartStays | internal/discovery/discovery.go:98-117 | groups with pairwise different known years are not merged |
| Discovery.MergingIsIdempotent | internal/discovery/discovery.go:94-145 | merging the merged groups changes nothing |
| ConfigStore.Store.PutValidated | internal/configstore/write.go:38-63 | the write, its validation and its rollback leave what the specification says for every fault |
| ConfigStore.Store.Delete | internal/configstore/write.go:67-86 | likewise for the deletion |
| ConfigStore.PutUnchangedIff | internal/configstore/write.go:38-63 | over the inputs: when a Put succeeds, when its rollback fails, and that any other Put leaves the files unchanged if and only if it did not reach a write interrupted after the rename, or the data was there |
| ConfigStore.HalfWrittenPutStays | internal/atomicfile/atomicfile.go:14-27 | a concrete Put that fails and changes the file |
| ConfigStore.DeleteUnchanged | internal/configstore/write.go:67-86 | a failed Delete changes nothing unless its rollback failed, and no other file is ever touched |
| ConfigStore.Store.Backup | internal/configstore/write.go:106-140 | captures exactly the editable files, or fails if one cannot be read |
| ConfigStore.Store.Restore | internal/configstore/write.go:142-177 | replaces exactly the editable files; a failed restore leaves each file old, restored or removed as the backup demands |
| ConfigStore.RestoreRecovers | internal/configstore/write.go:106-177 | restoring a backup recovers the editable files exactly from any later state and leaves the others alone |
| ConfigStore.EditableMeaning | internal/configstore/write.go:106-140 | editable are organizer.json and the JSON files directly below clients and sources |
| ClientTransactions.App.ReloadRuntime | internal/application/service.go:111-139 | a rebuilt runtime is of the stored files and secrets; a failed rebuild keeps the old one |
| ClientTransactions.App.RestoreSecret | internal/application/management.go:576-581 | a successful restore brings the old secret back, or its absence |
| ClientTransactions.App.MutateConfig | internal/application/management.go:465-482 | the transaction ends as specified for every fault |
| ClientTransactions.App.SaveClient | internal/application/management.go:521-574 | likewise with the password step and the status check |
| ClientTransactions.App.Rollback | internal/application/management.go:542-547 | the rollback closure restores files and secret, then rebuilds the runtime |
| ClientTransactions.App.DeleteClient | internal/application/management.go:583-611 | likewise for deleting a client and its secret |
| ClientTransactions.MutateAllOrNothing | internal/application/management.go:465-482 | an error leaves files, secrets and a runtime in sync as they were, unless the rollback failed or the write was interrupted after the rename; success runs the stored configuration, and a sound rollback the old one |
| ClientTransactions.MutateOutcomesIff | internal/application/management.go:465-482 | over state and faults: when the change succeeds and when its rollback breaks |
| ClientTransactions.SaveAllOrNothing | internal/application/management.go:521-574 | the same over files, secret and runtime, with the committed state stated for success and for a failing status check |
| ClientTransactions.SaveRunsAfterRollback | internal/application/management.go:542-568 | a SaveClient that was rolled back soundly leaves the old configuration running |
| ClientTransactions.SaveUnchangedIff | internal/application/management.go:521-574 | over state and faults: SaveClient succeeds if and only if every step does; any error without a broken rollback leaves the disk unchanged if and only if neither the configuration write was interrupted after the rename nor everything was committed before the status check, or the values were already there |
| ClientTransactions.CommittedErrorExists | internal/application/management.go:569-572 | a SaveClient that reports an error after committing |
| ClientTransactions.DeleteAllOrNothing | internal/application/management.go:583-611 | an error means nothing changed, unless the rollback failed |
| ClientTransactions.DeleteOutcomesIff | internal/application/management.go:583-611 | over state and faults: when deleting a client succeeds and when its rollback breaks |

## Left out

- Selection keys: the group key is a tuple, where the source formats a string that determines the same parts.
- `PublishedAt` is an integer instant, with equal instants equal; the source compares with `!=` and then `After`, which is this order only when equal instants have equal representations.
- Continuity weights, filters, names and identities are parameters: the theorems hold for every integer score and every filter.
- Sorted Entry and source lists are inputs of the plan builders, and `sort.SliceStable` is insertion sort.
- The season range evidence of folders (`observeFolderProjectionEvidence`) and the name parser are inputs.
- Acquire.Runner.Acquire: speaks of the listings a run starts from; a second look that fails after a lost answer (`internal/automation/automation.go:250-266`) fails its own candidate only, and later candidates are still decided on the snapshot.
- `internal/configstore/config.go:341-344` rejects more than one configured downloader; the model leaves the number open and states what holds for at most one.
- MetadataCache.Cache.Put: takes no empty key; a request for the empty URL has no scheme and fails in the HTTP client, so its fetch never succeeds.
- Cancelled contexts and the unknown Entry of a bound plan are not modelled; PlanBuilder.BuildBoundPlan takes the Entry itself.
- Movie planning (`planMovie`) is not modelled; movies occur only in selection.
- Directory creation and pruning, symlink traversal, mode bits and syncing of links are not modelled; link, undo and unlink are atomic steps, with other actors free to act before each, but not between the check and the unlink of RemoveObservedLink.
- `shared` and `reliable` say whether other actors act and whether calls may fail; the quiet theorems and witnesses assume neither.
- Publication.QuietRunConverges: covers a single plan over fresh complete observations whose destinations are unobstructed and below the publication root; entries that share an object and disagree about it are not modelled.
- Organizer.ConvergePublicationAliases: states when names are removed and what is left; the number of removals is stated object by object (Organizer.RemoveStale), not as a sum.
- Detail texts of plan items and error messages are not modelled.
- The digest is a function parameter, and `readFileList` is split into one method per file dictionary.
- TorrentMeta.ParseDecoded: speaks of complete root dictionaries; Parse also accepts one whose final `e` is missing, which TorrentMeta.Parse and its specification follow.
- Ownership.SourceIndex.RefreshEntry: does not model its error path, in which the tree could not be observed.
- Folder evidence kept beside the ownership index is not modelled.
- Scheduler deadlines and the work of a reconcile cycle are not modelled; the scheduler is its receive step.
- Flights are identified by their position in the list of all flights, and the network fetch is an arbitrary outcome.
- Task matching, claim resolution, save paths and topology repair are parameters or arbitrary outcomes of `Acquire`; clients that cannot list their tasks, or list files, are not modelled.
- Acquire.Cycles: says nothing about acquisitions with an empty ID, which the source does not deduplicate, and assumes that an accepted task is visible to the next successful listing and matches its acquisition.
- File caching within a run (`observeFiles`) is not modelled.
- Release keys of discovered groups and their bucket keys are tuples, where the source joins them with separators that the parts do not contain.
- GroupReleases is not modelled; it feeds MergeGroups.
- Configuration IDs are assumed valid, and the encoding of secrets and of JSON is not modelled.
- The status check that PutClient makes after `mutateConfig` behaves as the one of SaveClient and is not modelled again.
- Migration, the HTTP interface, downloader clients, feed parsing and login are not modelled.
