/** What publication guarantees: nothing lost or rebound on any run, and a fixpoint on a fresh, quiet one. */
module Publication {
  import Options
  import opened Namespace
  import opened Organizer

  // ---- every run, however stale its plan and observation, whatever other actors do ---------------

  /** Step `i` gives the planned name `p` to its planned object, or to what another actor put in the source's place. */
  ghost predicate RightlyCreated(items: seq<PlanItem>, trace: seq<Step>, from: nat, i: nat, p: Path)
    requires i < |trace| && p in trace[i].after
  {
    exists k :: 0 <= k < |items| && Asks(items[k], p)
      && (trace[i].after[p] == File(items[k].sourceObject) ||
           Rebound(trace, from, i, items[k].source, items[k].sourceObject))
  }

  /**
   * Before step `i` the name `p` denoted a planned object, lay below the publication root and was not desired, and
   * every desired name of that object had been seen to denote it earlier in the same run.
   */
  ghost predicate RightlyRemoved(cfg: Config, items: seq<PlanItem>, trace: seq<Step>, from: nat, i: nat, p: Path)
    requires i < |trace| && p in trace[i].before
  {
    && trace[i].before[p].File? && cfg.managed && cfg.publicationRoot.Some? &&
         StrictlyWithin(cfg.publicationRoot.value, p)
    && var id, desired := trace[i].before[p].id, DesiredOf(items);
    && id in desired && p !in desired[id]
    && forall d :: d in desired[id] ==> SeenSince(trace, from, i, d, id)
  }

  /** Step `i` takes back a name this run linked itself, with only other actors acting in between. */
  ghost predicate TakenBack(trace: seq<Step>, from: nat, i: nat, p: Path)
    requires i < |trace|
  {
    && trace[i].op.Undo? && trace[i].op.path == p
    && exists l :: from <= l < i && LinkedAt(trace, l, i, p, trace[i].op.node)
  }

  /**
   * Our own steps never rebind a name. A name they create is a planned destination naming the planned object, unless
   * another actor rebound the source between its check and the link. A name they remove is stale and proven so, or is
   * one this run has just linked and could not verify.
   */
  lemma RunIsSafe(cfg: Config, items: seq<PlanItem>, trace: seq<Step>, from: nat, names: Names, i: nat, p: Path)
    requires Chained(trace, names) && RunSteps(cfg, items, trace, from) && from <= i < |trace| &&
      trace[i].op != Environment
    ensures p in trace[i].before && p in trace[i].after ==> trace[i].after[p] == trace[i].before[p]
    ensures p !in trace[i].before && p in trace[i].after ==> RightlyCreated(items, trace, from, i, p)
    ensures p in trace[i].before && p !in trace[i].after ==>
      (trace[i].op.Unlink? && RightlyRemoved(cfg, items, trace, from, i, p)) || TakenBack(trace, from, i, p)
  {
    var mid: nat :| RunSplits(cfg, items, trace, from, mid);
    if i < mid {
      assert ApplyStep(cfg, items, trace[..mid], from, i);
      ApplyStepStays(cfg, items, trace[..mid], trace, from, i);
    } else {
      assert ConvergeStep(cfg.publicationRoot.value, DesiredOf(items), trace, mid, i);
      if trace[i].op.Unlink? {
        forall d | d in DesiredOf(items)[trace[i].op.id] ensures SeenSince(trace, from, i, d, trace[i].op.id) {
          var s :| mid <= s < i && s < |trace| && trace[s].op == Stat(d) && Denotes(trace[s].before, d, trace[i].op.id);
        }
      }
    }
  }

  /** Other actors leave the name bound to the node through steps from..until. */
  ghost predicate LeftAlone(trace: seq<Step>, from: nat, until: nat, p: Path, node: Node) {
    forall i :: (from <= i < until && i < |trace| && trace[i].op == Environment && p in trace[i].before
                 && trace[i].before[p] == node) ==>
      p in trace[i].after && trace[i].after[p] == node
  }

  /**
   * Taking back a link that others left alone removes exactly that link. So an undo hits another actor's name only
   * if that actor rebound our fresh name before the undo.
   */
  lemma {:induction false} UndoHitsOwnLink(trace: seq<Step>, names: Names, l: nat, i: nat, p: Path, node: Node)
    requires Chained(trace, names) && i < |trace| && LinkedAt(trace, l, i, p, node) && LeftAlone(trace, l, i, p, node)
    ensures p in trace[i].before && trace[i].before[p] == node
  {
    assert trace[i - 1].after == trace[i].before;
    if l < i - 1 {
      UndoHitsOwnLink(trace, names, l, i - 1, p, node);
    }
  }

  /** And then it does: a history in which another actor rebinds the fresh name and the undo removes that. */
  lemma UndoCanHitForeignName(before: Names, p: Path, source: Path, mine: ObjectID, foreign: ObjectID)
    requires Denotes(before, source, mine) && p !in before && mine != foreign
    ensures var linked, rebound := before[p := File(mine)], before[p := File(foreign)];
            var trace := [Step(before, linked, Link(p, File(mine))), Step(linked, rebound, Environment),
                          Step(rebound, rebound - {p}, Undo(p, File(mine)))];
            && Chained(trace, rebound - {p}) && LinkSteps(trace, 0, source, p, mine)
            && Denotes(trace[2].before, p, foreign) && p !in trace[2].after
  {
    var linked, rebound := before[p := File(mine)], before[p := File(foreign)];
    var trace := [Step(before, linked, Link(p, File(mine))), Step(linked, rebound, Environment),
                  Step(rebound, rebound - {p}, Undo(p, File(mine)))];
    assert LinkedAt(trace, 0, 2, p, File(mine));
    assert p in linked && source in before;
  }

  /** A source name is never removed by a run: if other actors leave it alone, it stays as it was. */
  lemma {:induction false} SourceNamesSurvive(cfg: Config, items: seq<PlanItem>, trace: seq<Step>, from: nat,
                                              names: Names, i: nat, p: Path, node: Node)
    requires Chained(trace, names) && RunSteps(cfg, items, trace, from)
    requires cfg.publicationRoot.Some? ==> DisjointTrees(cfg.source, cfg.publicationRoot.value)
    requires from <= i < |trace| && Within(cfg.source, p)
    requires p in trace[from].before && trace[from].before[p] == node && LeftAlone(trace, from, |trace|, p, node)
    ensures p in trace[i].after && trace[i].after[p] == node
    decreases i
  {
    if i > from {
      SourceNamesSurvive(cfg, items, trace, from, names, i - 1, p, node);
      assert trace[i - 1].after == trace[i].before;
    }
    if trace[i].op != Environment {
      RunIsSafe(cfg, items, trace, from, names, i, p);
      if p !in trace[i].after {
        if trace[i].op.Unlink? {
        } else {
          var l :| from <= l < i && LinkedAt(trace, l, i, p, trace[i].op.node);
          if l > from {
            SourceNamesSurvive(cfg, items, trace, from, names, l - 1, p, node);
          }
        }
      }
    }
  }

  lemma ApplyNeverUnlinks(cfg: Config, items: seq<PlanItem>, trace: seq<Step>, from: nat, mid: nat)
    requires mid <= |trace| && ApplySteps(cfg, items, trace[..mid], from)
    ensures forall i :: from <= i < mid ==> !trace[i].op.Unlink?
  {
    forall i | from <= i < mid ensures !trace[i].op.Unlink? {
      assert ApplyStep(cfg, items, trace[..mid], from, i);
    }
  }

  /**
   * A removed name is never the last one of an object that is desired somewhere: every desired name, unless
   * another actor touched it during the run, still denotes the object after the removal.
   */
  lemma RemovalLeavesDesiredNames(cfg: Config, items: seq<PlanItem>, trace: seq<Step>, from: nat, names: Names, i: nat,
                                  p: Path, d: Path)
    requires Chained(trace, names) && RunSteps(cfg, items, trace, from) && from <= i < |trace|
    requires trace[i].op.Unlink? && trace[i].op.path == p
    requires trace[i].op.id in DesiredOf(items) && d in DesiredOf(items)[trace[i].op.id]
    requires LeftAlone(trace, from, |trace|, d, File(trace[i].op.id))
    ensures Denotes(trace[i].after, d, trace[i].op.id)
  {
    var id := trace[i].op.id;
    var mid: nat :| RunSplits(cfg, items, trace, from, mid);
    ApplyNeverUnlinks(cfg, items, trace, from, mid);
    var root := cfg.publicationRoot.value;
    assert ConvergeStep(root, DesiredOf(items), trace, mid, i);
    var s :| mid <= s < i && s < |trace| && trace[s].op == Stat(d) && Denotes(trace[s].before, d, id);
    DesiredNameSurvives(root, DesiredOf(items), trace, mid, names, s, i, d, id);
  }

  /** Convergence keeps a desired name that others leave alone. */
  lemma {:induction false} DesiredNameSurvives(root: Path, desired: Desired, trace: seq<Step>, mid: nat, names: Names,
                                               s: nat, i: nat, d: Path, id: ObjectID)
    requires Chained(trace, names) && ConvergeSteps(root, desired, trace, mid) && mid <= s <= i < |trace|
    requires id in desired && d in desired[id]
    requires LeftAlone(trace, mid, |trace|, d, File(id)) && Denotes(trace[s].before, d, id)
    ensures Denotes(trace[i].after, d, id)
    decreases i
  {
    if i > s {
      DesiredNameSurvives(root, desired, trace, mid, names, s, i - 1, d, id);
      assert trace[i - 1].after == trace[i].before;
    }
    assert ConvergeStep(root, desired, trace, mid, i) && Lawful(trace[i]);
  }

  // ---- one quiet run from fresh observations ----------------------------------------------------

  ghost predicate FreshFiles(names: Names, root: Path, files: seq<(Path, ObjectID)>) {
    forall p, id :: (p, id) in files <==> Denotes(names, p, id) && StrictlyWithin(root, p)
  }

  ghost predicate FreshTargets(names: Names, root: Path, targets: Claims) {
    && (forall p :: p in targets <==> p in names && names[p].File? && Within(root, p))
    && (forall p :: p in targets ==> names[p] == File(targets[p]))
  }

  ghost predicate FreshLibrary(names: Names, library: Library) {
    forall p, id :: id in library.objects && p in library.objects[id] <==>
      Denotes(names, p, id) && Within(library.root, p)
  }

  /** A managed configuration as it is built for an Entry: the target lies in the publication root. */
  ghost predicate ManagedConfig(cfg: Config) {
    && ValidConfig(cfg) && cfg.managed && cfg.publicationRoot.Some?
    && Within(cfg.publicationRoot.value, cfg.target) && DisjointTrees(cfg.source, cfg.publicationRoot.value)
  }

  /** Layouts place files strictly below the target; real objects have an identity; the root is no file. */
  ghost predicate Sane(cfg: Config, layout: Path -> Layout, names: Names) {
    && (forall p :: layout(p).At? ==> layout(p).relative != [])
    && (forall p :: p in names ==> names[p] != File(NO_OBJECT))
    && (cfg.publicationRoot.Some? && cfg.publicationRoot.value in names ==> names[cfg.publicationRoot.value] == Other)
  }

  /** No destination to be linked is occupied by a directory or a symlink. */
  ghost predicate Unobstructed(names: Names, items: seq<PlanItem>) {
    forall k :: (0 <= k < |items| && items[k].action == ActionLink && items[k].destination.Some?
                 && items[k].destination.value in names) ==>
      names[items[k].destination.value].File?
  }

  ghost predicate Agree(a: PlanItem, b: PlanItem) {
    Wanted(a) && Wanted(b) && a.destination == b.destination ==> a.sourceObject == b.sourceObject
  }

  /** What planning establishes about one item. */
  ghost predicate ItemSound(cfg: Config, layout: Path -> Layout, targets: Claims, files: seq<(Path, ObjectID)>,
                            claims: Claims, item: PlanItem) {
    && (item.source, item.sourceObject) in files
    && (item.destination.Some? <==> layout(item.source).At?)
    && (item.destination.Some? <==>
         item.action == ActionLink || item.action == ActionExisting || item.action == ActionConflict)
    && (item.destination.Some? ==>
         var d := item.destination.value;
         && d == cfg.target + layout(item.source).relative
         && (item.action == ActionExisting ==> d in targets && targets[d] == item.sourceObject)
         && (item.action == ActionLink ==> d !in targets && d in claims && claims[d] == item.sourceObject))
  }

  lemma {:induction false} PlanMeaning(cfg: Config, layout: Path -> Layout, targets: Claims,
                                       files: seq<(Path, ObjectID)>, k: nat)
    requires k < |PlanFiles(cfg, layout, targets, files).1|
    ensures var plan :=
      PlanFiles(cfg, layout, targets, files); ItemSound(cfg, layout, targets, files, plan.0, plan.1[k])
  {
    var n := |files| - 1;
    var was, plan := PlanFiles(cfg, layout, targets, files[..n]), PlanFiles(cfg, layout, targets, files);
    var item := FileItem(cfg, layout, targets, was.0, files[n].0, files[n].1);
    assert plan == (Claim(was.0, item), was.1 + Listed(item));
    assert files == files[..n] + [files[n]];
    if k < |was.1| {
      PlanMeaning(cfg, layout, targets, files[..n], k);
    } else {
      assert files[n] == (files[n].0, files[n].1) && files[n] in files;
    }
  }

  /** An earlier item of the plan links another object to this destination. */
  ghost predicate ClaimedByOther(items: seq<PlanItem>, k: nat, d: Path, id: ObjectID) {
    exists j :: 0 <= j < k && j < |items| && items[j].action == ActionLink && items[j].destination == Options.Some(d)
             && items[j].sourceObject != id
  }

  /** Why an item has its action. */
  ghost predicate ActionFits(layout: Path -> Layout, targets: Claims, items: seq<PlanItem>, k: nat)
    requires k < |items|
  {
    var item, l := items[k], layout(items[k].source);
    && !l.Skipped? && !l.Unsafe?
    && (l.Blacklisted? <==> item.action == ActionExcluded)
    && (l.Unrecognized? <==> item.action == ActionUnmatched)
    && (l.At? <==> item.destination.Some?)
    && (l.At? ==>
         var d, id := item.destination.value, item.sourceObject;
         && (item.action == ActionExisting <==> d in targets && targets[d] == id)
         && (item.action == ActionConflict <==>
              if d in targets then targets[d] != id else ClaimedByOther(items, k, d, id))
         && (item.action == ActionLink <==> d !in targets && !ClaimedByOther(items, k, d, id)))
  }

  lemma ClaimedBefore(a: seq<PlanItem>, b: seq<PlanItem>, k: nat, d: Path, id: ObjectID)
    requires a <= b && k <= |a|
    ensures ClaimedByOther(a, k, d, id) <==> ClaimedByOther(b, k, d, id)
  {
    assert forall j :: 0 <= j < |a| ==> a[j] == b[j];
  }

  /** The destinations claimed while planning are those of the planned links. */
  lemma {:induction false} ClaimsAreLinks(cfg: Config, layout: Path -> Layout, targets: Claims,
                                          files: seq<(Path, ObjectID)>, d: Path, id: ObjectID)
    ensures var (claims, items) := PlanFiles(cfg, layout, targets, files);
            d in claims && claims[d] != id <==> ClaimedByOther(items, |items|, d, id)
  {
    if files != [] {
      var n := |files| - 1;
      var was, plan := PlanFiles(cfg, layout, targets, files[..n]), PlanFiles(cfg, layout, targets, files);
      var item := FileItem(cfg, layout, targets, was.0, files[n].0, files[n].1);
      assert plan == (Claim(was.0, item), was.1 + Listed(item));
      ClaimsAreLinks(cfg, layout, targets, files[..n], d, id);
      if item.Some? && Asks(item.value, d) {
        assert plan.1[|was.1|] == item.value;
        assert d in was.0 ==> was.0[d] == item.value.sourceObject;
      }
      if ClaimedByOther(was.1, |was.1|, d, id) {
        var j :| 0 <= j < |was.1| && was.1[j].action == ActionLink && was.1[j].destination == Options.Some(d)
          && was.1[j].sourceObject != id;
        assert plan.1[j] == was.1[j];
      }
    }
  }

  /**
   * The action of every item is decided by its layout, the target and the earlier items: excluded exactly if
   * blacklisted, unmatched exactly if unrecognized, and of those with a place existing if the target has the object
   * there, a conflict if the target has another one there or an earlier link of another object claims the place, and
   * a link otherwise.
   */
  lemma {:induction false} ActionMeaning(cfg: Config, layout: Path -> Layout, targets: Claims,
                                         files: seq<(Path, ObjectID)>, k: nat)
    requires k < |PlanFiles(cfg, layout, targets, files).1|
    ensures ActionFits(layout, targets, PlanFiles(cfg, layout, targets, files).1, k)
  {
    var n := |files| - 1;
    var was, plan := PlanFiles(cfg, layout, targets, files[..n]), PlanFiles(cfg, layout, targets, files);
    var item := FileItem(cfg, layout, targets, was.0, files[n].0, files[n].1);
    assert plan.1 == was.1 + Listed(item);
    if k < |was.1| {
      ActionMeaning(cfg, layout, targets, files[..n], k);
    }
    if plan.1[k].destination.Some? {
      var d, id := plan.1[k].destination.value, plan.1[k].sourceObject;
      ClaimsAreLinks(cfg, layout, targets, files[..n], d, id);
      ClaimedBefore(was.1, plan.1, k, d, id);
    }
  }

  /** Some item of the plan is about this file. */
  ghost predicate HasItem(items: seq<PlanItem>, source: Path, id: ObjectID) {
    exists k :: 0 <= k < |items| && items[k].source == source && items[k].sourceObject == id
  }

  lemma HasItemSnoc(items: seq<PlanItem>, item: PlanItem, source: Path, id: ObjectID)
    ensures HasItem(items + [item], source, id) <==>
      HasItem(items, source, id) || (item.source == source && item.sourceObject == id)
  {
    var all := items + [item];
    assert all[|items|] == item;
    if k :| 0 <= k < |items| && items[k].source == source && items[k].sourceObject == id {
      assert all[k] == items[k];
    }
  }

  /** Every file has an item, unless it is no media file or its name leads out of the target. */
  lemma {:induction false} EveryFileIsPlanned(cfg: Config, layout: Path -> Layout, targets: Claims,
                                              files: seq<(Path, ObjectID)>, source: Path, id: ObjectID)
    ensures HasItem(PlanFiles(cfg, layout, targets, files).1, source, id) <==>
      (source, id) in files && !layout(source).Skipped? && !layout(source).Unsafe?
  {
    if files != [] {
      var n := |files| - 1;
      EveryFileIsPlanned(cfg, layout, targets, files[..n], source, id);
      var was, plan := PlanFiles(cfg, layout, targets, files[..n]), PlanFiles(cfg, layout, targets, files);
      var item := FileItem(cfg, layout, targets, was.0, files[n].0, files[n].1);
      assert files == files[..n] + [files[n]];
      hide HasItem;
      if item.Some? {
        assert plan.1 == was.1 + [item.value];
        HasItemSnoc(was.1, item.value, source, id);
      } else {
        assert plan.1 == was.1;
      }
    }
  }

  /** Two wanted items with one destination are names of one object. */
  lemma PlanAgrees(cfg: Config, layout: Path -> Layout, targets: Claims, files: seq<(Path, ObjectID)>, j: nat, k: nat)
    requires var items := PlanFiles(cfg, layout, targets, files).1; j < |items| && k < |items|
    ensures var items := PlanFiles(cfg, layout, targets, files).1; Agree(items[j], items[k])
  {
    PlanMeaning(cfg, layout, targets, files, j);
    PlanMeaning(cfg, layout, targets, files, k);
  }

  /** Applying a plan of fresh observations only adds names, exactly the wanted ones. */
  lemma {:induction false} AppliedMeaning(cfg: Config, names: Names, items: seq<PlanItem>, n: nat)
    requires n <= |items|
    requires forall k :: 0 <= k < |items| ==> forall j :: 0 <= j < |items| ==> Agree(items[j], items[k])
    requires forall k :: 0 <= k < |items| && Wanted(items[k]) ==>
      && StrictlyWithin(cfg.source, items[k].source) && StrictlyWithin(cfg.target, items[k].destination.value)
      && Denotes(names, items[k].source, items[k].sourceObject)
      && (items[k].action == ActionLink ==> items[k].destination.value !in names)
      && (items[k].action == ActionExisting ==> Denotes(names, items[k].destination.value, items[k].sourceObject))
    ensures var now := Applied(cfg, names, items[..n]);
            && (forall p :: p in names ==> p in now && now[p] == names[p])
            && (forall p :: p in now && p !in names ==> exists k ::
                 0 <= k < n && Wanted(items[k]) && items[k].destination.value == p
                 && now[p] == File(items[k].sourceObject))
            && (forall k :: 0 <= k < n && Wanted(items[k]) ==>
                 Denotes(now, items[k].destination.value, items[k].sourceObject))
  {
    if n > 0 {
      AppliedMeaning(cfg, names, items, n - 1);
      assert items[..n][..n - 1] == items[..n - 1];
      var was, item := Applied(cfg, names, items[..n - 1]), items[n - 1];
      var now := AppliedItem(cfg, was, item);
      assert now == Applied(cfg, names, items[..n]);
      if item.action == ActionLink && item.destination.Some? {
        assert Wanted(item);
        var d := item.destination.value;
        if d in was {
          var k :| 0 <= k < n - 1 && Wanted(items[k]) && items[k].destination.value == d &&
            was[d] == File(items[k].sourceObject);
          assert Agree(items[k], items[n - 1]);
        }
      }
      forall p | p in now && p !in names
        ensures exists k ::
          0 <= k < n && Wanted(items[k]) && items[k].destination.value == p && now[p] == File(items[k].sourceObject)
      {
        if p in was {
          var k :| 0 <= k < n - 1 && Wanted(items[k]) && items[k].destination.value == p &&
            was[p] == File(items[k].sourceObject);
          assert now[p] == was[p];
        }
      }
    }
  }

  /** The items planned for fresh observations meet what applying them needs. */
  lemma FreshPlan(cfg: Config, layout: Path -> Layout, names: Names, targets: Claims, files: seq<(Path, ObjectID)>,
                  k: nat)
    requires ValidConfig(cfg) && Sane(cfg, layout, names) && FreshFiles(names, cfg.source, files) &&
      FreshTargets(names, cfg.target, targets)
    requires var items := PlanFiles(cfg, layout, targets, files).1; k < |items| && Unobstructed(names, items)
    ensures var item := PlanFiles(cfg, layout, targets, files).1[k];
            && StrictlyWithin(cfg.source, item.source) && Denotes(names, item.source, item.sourceObject) &&
                 item.sourceObject != NO_OBJECT
            && (item.destination.Some? ==> StrictlyWithin(cfg.target, item.destination.value))
            && (item.action == ActionLink ==> item.destination.Some? && item.destination.value !in names)
            && (item.action == ActionExisting ==>
                 item.destination.Some? && Denotes(names, item.destination.value, item.sourceObject))
            && (item.action == ActionConflict ==> item.destination.Some?)
  {
    PlanMeaning(cfg, layout, targets, files, k);
    var item := PlanFiles(cfg, layout, targets, files).1[k];
    assert Denotes(names, item.source, item.sourceObject);
    assert names[item.source] != File(NO_OBJECT);
    if item.destination.Some? {
      assert item.destination.value == cfg.target + layout(item.source).relative;
      assert Within(cfg.target, item.destination.value);
    }
  }

  /** The namespace one quiet run of plan, apply and converge leaves behind. */
  ghost function Published(cfg: Config, items: seq<PlanItem>, library: Library, names: Names): Names
    requires cfg.publicationRoot.Some?
  {
    Converged(cfg.publicationRoot.value, DesiredOf(items), library, Applied(cfg, names, items))
  }

  ghost predicate QuietRun(cfg: Config, layout: Path -> Layout, names: Names, targets: Claims,
                           files: seq<(Path, ObjectID)>, library: Library) {
    && ManagedConfig(cfg) && Sane(cfg, layout, names)
    && FreshFiles(names, cfg.source, files) && FreshTargets(names, cfg.target, targets)
    && FreshLibrary(names, library) && Within(library.root, cfg.publicationRoot.value)
    && Unobstructed(names, PlanFiles(cfg, layout, targets, files).1)
  }

  /** Applying the plan of a quiet run proves every desired name and adds nothing else. */
  lemma QuietApply(cfg: Config, layout: Path -> Layout, names: Names, targets: Claims, files: seq<(Path, ObjectID)>,
                   library: Library)
    requires QuietRun(cfg, layout, names, targets, files, library)
    ensures var items := PlanFiles(cfg, layout, targets, files).1;
            var now, desired := Applied(cfg, names, items), DesiredOf(items);
            && (forall p :: p in names ==> p in now && now[p] == names[p])
            && (forall p :: p in now && p !in names ==> now[p].File? && now[p].id in desired && p in desired[now[p].id])
            && (forall id, d :: id in desired && d in desired[id] ==>
                 Denotes(now, d, id) && StrictlyWithin(cfg.target, d))
  {
    hide PlanFiles;
    hide Applied;
    hide DesiredOf;
    var items := PlanFiles(cfg, layout, targets, files).1;
    forall k | 0 <= k < |items| ensures forall j :: 0 <= j < |items| ==> Agree(items[j], items[k]) {
      forall j | 0 <= j < |items| ensures Agree(items[j], items[k]) {
        PlanAgrees(cfg, layout, targets, files, j, k);
      }
    }
    forall k | 0 <= k < |items|
      ensures StrictlyWithin(cfg.source, items[k].source) && Denotes(names, items[k].source, items[k].sourceObject) &&
        items[k].sourceObject != NO_OBJECT
      ensures items[k].destination.Some? ==> StrictlyWithin(cfg.target, items[k].destination.value)
      ensures items[k].action == ActionLink ==> items[k].destination.Some? && items[k].destination.value !in names
      ensures items[k].action == ActionExisting ==>
        items[k].destination.Some? && Denotes(names, items[k].destination.value, items[k].sourceObject)
    {
      FreshPlan(cfg, layout, names, targets, files, k);
    }
    AppliedMeaning(cfg, names, items, |items|);
    assert items[..|items|] == items;
    var now, desired := Applied(cfg, names, items), DesiredOf(items);
    forall p | p in now && p !in names ensures now[p].File? && now[p].id in desired && p in desired[now[p].id] {
      var k :| 0 <= k < |items| && Wanted(items[k]) && items[k].destination.value == p &&
        now[p] == File(items[k].sourceObject);
      DesiredMeaning(items, now[p].id);
      assert Planned(items[k]);
    }
    forall id, d | id in desired && d in desired[id] ensures Denotes(now, d, id) && StrictlyWithin(cfg.target, d) {
      DesiredMeaning(items, id);
      var k :| 0 <= k < |items| && Places(items[k], id, d);
    }
  }

  /**
   * After a quiet run each planned object is named below the publication root by exactly its desired names (none
   * if it is only excluded); every other name is untouched, and nothing else appeared.
   */
  lemma QuietRunConverges(cfg: Config, layout: Path -> Layout, names: Names, targets: Claims,
                          files: seq<(Path, ObjectID)>, library: Library)
    requires QuietRun(cfg, layout, names, targets, files, library)
    ensures var items := PlanFiles(cfg, layout, targets, files).1;
            var root, desired, after :=
              cfg.publicationRoot.value, DesiredOf(items), Published(cfg, items, library, names);
            && (forall id, p :: id in desired && StrictlyWithin(root, p) ==>
                 (Denotes(after, p, id) <==> p in desired[id]))
            && (forall id, p :: id in desired && p in desired[id] ==> Denotes(after, p, id) && StrictlyWithin(root, p))
            && (forall p :: p in names && !(StrictlyWithin(root, p) && names[p].File? && names[p].id in desired) ==>
                 p in after && after[p] == names[p])
            && (forall p :: p in after && p !in names ==>
                 after[p].File? && after[p].id in desired && p in desired[after[p].id])
            && (forall p :: p in after && p in names ==> after[p] == names[p])
  {
    QuietApply(cfg, layout, names, targets, files, library);
    var items := PlanFiles(cfg, layout, targets, files).1;
    var root, desired := cfg.publicationRoot.value, DesiredOf(items);
    var now, after := Applied(cfg, names, items), Published(cfg, items, library, names);
    forall id, p | id in desired && p in desired[id] ensures Denotes(after, p, id) && StrictlyWithin(root, p) {
      assert Denotes(now, p, id) && StrictlyWithin(cfg.target, p);
    }
    forall id, p | id in desired && StrictlyWithin(root, p) && Denotes(after, p, id) ensures p in desired[id] {
      if p !in desired[id] {
        assert Denotes(names, p, id);
        assert id in library.objects && p in library.objects[id];
        assert Proven(now, desired[id], id);
        assert Removable(root, desired, library, now, p, id);
      }
    }
  }

  /** The item gives its object this name: its file has the place, and there is no conflict about it. */
  ghost predicate PlacedAt(cfg: Config, layout: Path -> Layout, item: PlanItem, id: ObjectID, d: Path) {
    && item.sourceObject == id && layout(item.source).At? && d == cfg.target + layout(item.source).relative
    && item.action != ActionConflict
  }

  /** The item decides about the names of its object: its file is blacklisted, or has a place without conflict. */
  predicate Decides(layout: Path -> Layout, item: PlanItem, id: ObjectID) {
    && item.sourceObject == id
    && (layout(item.source).Blacklisted? || (layout(item.source).At? && item.action != ActionConflict))
  }

  lemma DecidingItem(cfg: Config, layout: Path -> Layout, names: Names, targets: Claims, files: seq<(Path, ObjectID)>,
                     k: nat, id: ObjectID)
    requires ValidConfig(cfg) && Sane(cfg, layout, names) && FreshFiles(names, cfg.source, files) &&
      FreshTargets(names, cfg.target, targets)
    requires var items := PlanFiles(cfg, layout, targets, files).1; k < |items| && Unobstructed(names, items)
    ensures var item := PlanFiles(cfg, layout, targets, files).1[k];
            && (item.source, item.sourceObject) in files
            && (Planned(item) && item.sourceObject == id <==> Decides(layout, item, id))
            && forall d :: Places(item, id, d) <==> PlacedAt(cfg, layout, item, id, d)
  {
    hide PlanFiles;
    PlanMeaning(cfg, layout, targets, files, k);
    ActionMeaning(cfg, layout, targets, files, k);
    FreshPlan(cfg, layout, names, targets, files, k);
  }

  lemma DesiredByLayout(cfg: Config, layout: Path -> Layout, names: Names, targets: Claims,
                        files: seq<(Path, ObjectID)>, library: Library, id: ObjectID)
    requires QuietRun(cfg, layout, names, targets, files, library)
    ensures var items := PlanFiles(cfg, layout, targets, files).1;
            && (id in DesiredOf(items) <==> exists k :: 0 <= k < |items| && Decides(layout, items[k], id))
            && (id in DesiredOf(items) ==> forall d ::
                 d in DesiredOf(items)[id] <==> exists k :: 0 <= k < |items| && PlacedAt(cfg, layout, items[k], id, d))
            && forall k :: 0 <= k < |items| ==> (items[k].source, items[k].sourceObject) in files
  {
    hide PlanFiles;
    hide DesiredOf;
    hide Planned;
    hide Places;
    hide PlacedAt;
    hide Decides;
    var items := PlanFiles(cfg, layout, targets, files).1;
    DesiredMeaning(items, id);
    forall k | 0 <= k < |items|
      ensures (items[k].source, items[k].sourceObject) in files
      ensures Planned(items[k]) && items[k].sourceObject == id <==> Decides(layout, items[k], id)
      ensures forall d :: Places(items[k], id, d) <==> PlacedAt(cfg, layout, items[k], id, d)
    {
      DecidingItem(cfg, layout, names, targets, files, k, id);
    }
  }

  /**
   * What a quiet run does to the names of an object, from the layouts of its files alone. If some file of it is
   * blacklisted or has a place without conflict, its names below the publication root are exactly those places, so a
   * blacklisted object without a place loses them all. An object none of whose files is blacklisted or placed keeps
   * every name it had.
   */
  lemma LayoutDecidesNames(cfg: Config, layout: Path -> Layout, names: Names, targets: Claims,
                           files: seq<(Path, ObjectID)>, library: Library, id: ObjectID, d: Path)
    requires QuietRun(cfg, layout, names, targets, files, library)
    ensures var items := PlanFiles(cfg, layout, targets, files).1;
            var root, after := cfg.publicationRoot.value, Published(cfg, items, library, names);
            && ((exists k :: 0 <= k < |items| && Decides(layout, items[k], id)) && StrictlyWithin(root, d) ==>
                 (Denotes(after, d, id) <==> exists k :: 0 <= k < |items| && PlacedAt(cfg, layout, items[k], id, d)))
            && ((forall k :: 0 <= k < |items| ==> !Decides(layout, items[k], id)) ==>
                 (Denotes(after, d, id) <==> Denotes(names, d, id)))
            && ((forall p :: (p, id) in files ==> !layout(p).Blacklisted? && !layout(p).At?) ==>
                 (Denotes(after, d, id) <==> Denotes(names, d, id)))
            && ((exists p :: (p, id) in files && layout(p).Blacklisted?)
                && (forall p :: (p, id) in files ==> !layout(p).At?) && StrictlyWithin(root, d) ==>
                 !Denotes(after, d, id))
  {
    hide PlanFiles;
    hide DesiredOf;
    hide Published;
    QuietRunConverges(cfg, layout, names, targets, files, library);
    DesiredByLayout(cfg, layout, names, targets, files, library, id);
    if exists p :: (p, id) in files && layout(p).Blacklisted? {
      var p :| (p, id) in files && layout(p).Blacklisted?;
      EveryFileIsPlanned(cfg, layout, targets, files, p, id);
    }
  }

  // ---- the fixpoint -------------------------------------------------------------------------

  function AsExisting(item: PlanItem): PlanItem {
    if item.action == ActionLink then item.(action := ActionExisting) else item
  }

  function AllExisting(items: seq<PlanItem>): (s: seq<PlanItem>)
    ensures |s| == |items| && forall k :: 0 <= k < |items| ==> s[k] == AsExisting(items[k])
  {
    if items == [] then [] else AllExisting(items[..|items| - 1]) + [AsExisting(items[|items| - 1])]
  }

  ghost predicate Republished(again: Claims, item: PlanItem) {
    && item.action != ActionConflict
    && (Wanted(item) ==> item.destination.value in again && again[item.destination.value] == item.sourceObject)
  }

  lemma ReplanItem(cfg: Config, layout: Path -> Layout, targets: Claims, claims: Claims, again: Claims, claims': Claims,
                   source: Path, id: ObjectID)
    requires var item := FileItem(cfg, layout, targets, claims, source, id); item.Some? ==>
      Republished(again, item.value)
    ensures var item := FileItem(cfg, layout, targets, claims, source, id);
            FileItem(cfg, layout, again, claims', source, id) == if item.Some? then Options.Some(AsExisting(item.value))
              else Options.None
  {
  }

  /** Planning the same files again once every wanted name exists: links have become existing names. */
  lemma {:induction false} ReplanItems(cfg: Config, layout: Path -> Layout, targets: Claims, again: Claims,
                                       files: seq<(Path, ObjectID)>)
    requires forall item :: item in PlanFiles(cfg, layout, targets, files).1 ==> Republished(again, item)
    ensures PlanFiles(cfg, layout, again, files).1 == AllExisting(PlanFiles(cfg, layout, targets, files).1)
  {
    if files != [] {
      var n := |files| - 1;
      var was, re := PlanFiles(cfg, layout, targets, files[..n]), PlanFiles(cfg, layout, again, files[..n]);
      var item := FileItem(cfg, layout, targets, was.0, files[n].0, files[n].1);
      var items := PlanFiles(cfg, layout, targets, files).1;
      assert items == was.1 + Listed(item);
      assert item.Some? ==> Listed(item)[0] in items;
      ReplanItems(cfg, layout, targets, again, files[..n]);
      ReplanItem(cfg, layout, targets, was.0, again, re.0, files[n].0, files[n].1);
    }
  }

  lemma {:induction false} ExistingDesires(items: seq<PlanItem>)
    ensures DesiredOf(AllExisting(items)) == DesiredOf(items)
  {
    if items != [] {
      var n := |items| - 1;
      ExistingDesires(items[..n]);
      assert AllExisting(items)[..n] == AllExisting(items[..n]);
    }
  }

  lemma {:induction false} NothingToLink(cfg: Config, names: Names, items: seq<PlanItem>)
    requires forall k :: 0 <= k < |items| ==> items[k].action != ActionLink
    ensures Applied(cfg, names, items) == names
  {
    if items != [] {
      NothingToLink(cfg, names, items[..|items| - 1]);
    }
  }

  /** The source tree looks the same after a quiet run. */
  lemma SourcesUnchanged(cfg: Config, layout: Path -> Layout, names: Names, targets: Claims,
                         files: seq<(Path, ObjectID)>, library: Library)
    requires QuietRun(cfg, layout, names, targets, files, library)
    ensures FreshFiles(Published(cfg, PlanFiles(cfg, layout, targets, files).1, library, names), cfg.source, files)
  {
    QuietRunConverges(cfg, layout, names, targets, files, library);
    var after := Published(cfg, PlanFiles(cfg, layout, targets, files).1, library, names);
    var root := cfg.publicationRoot.value;
    forall p, id ensures (p, id) in files <==> Denotes(after, p, id) && StrictlyWithin(cfg.source, p) {
      if StrictlyWithin(cfg.source, p) {
        if Within(root, p) {
        }
        assert Denotes(after, p, id) <==> Denotes(names, p, id);
      }
    }
  }

  lemma WantedNamesObserved(
    cfg: Config, layout: Path -> Layout, names: Names, targets: Claims, files: seq<(Path, ObjectID)>, library: Library,
    again: Claims, k: nat)
    requires QuietRun(cfg, layout, names, targets, files, library)
    requires var items := PlanFiles(cfg, layout, targets, files).1;
             FreshTargets(Published(cfg, items, library, names), cfg.target, again) && k < |items| && Wanted(items[k])
    ensures var item := PlanFiles(cfg, layout, targets, files).1[k];
            item.destination.value in again && again[item.destination.value] == item.sourceObject
  {
    QuietRunConverges(cfg, layout, names, targets, files, library);
    FreshPlan(cfg, layout, names, targets, files, k);
    var items := PlanFiles(cfg, layout, targets, files).1;
    DesiredMeaning(items, items[k].sourceObject);
    assert Planned(items[k]);
    var d, id := items[k].destination.value, items[k].sourceObject;
    assert d in DesiredOf(items)[id];
    assert Denotes(Published(cfg, items, library, names), d, id);
    assert Within(cfg.target, d);
  }

  /** Nothing observed after a quiet run is stale. */
  lemma NothingStale(
    cfg: Config, layout: Path -> Layout, names: Names, targets: Claims, files: seq<(Path, ObjectID)>, library: Library,
    library': Library)
    requires QuietRun(cfg, layout, names, targets, files, library)
    requires FreshLibrary(Published(cfg, PlanFiles(cfg, layout, targets, files).1, library, names), library')
    ensures var items := PlanFiles(cfg, layout, targets, files).1;
            var root, desired, after :=
              cfg.publicationRoot.value, DesiredOf(items), Published(cfg, items, library, names);
            && Converged(root, desired, library', after) == after
            && forall id, p :: id in desired && id in library'.objects && p in library'.objects[id] ==>
                 !StaleName(root, desired[id], p)
  {
    QuietRunConverges(cfg, layout, names, targets, files, library);
    var items := PlanFiles(cfg, layout, targets, files).1;
    var root, desired, after := cfg.publicationRoot.value, DesiredOf(items), Published(cfg, items, library, names);
    assert root in names ==> names[root] == Other;
    forall id, p | id in desired && id in library'.objects && p in library'.objects[id]
      ensures !StaleName(root, desired[id], p)
    {
      assert Denotes(after, p, id);
      assert Within(root, p) ==> StrictlyWithin(root, p) || p == root;
    }
  }

  /**
   * After a quiet run of a conflict-free plan, observing, planning and applying again does nothing: no item is
   * left to link, no name is stale, and the namespace stays as it is.
   */
  lemma SecondRunIsIdle(
    cfg: Config, layout: Path -> Layout, names: Names, targets: Claims, files: seq<(Path, ObjectID)>, library: Library,
    again: Claims, library': Library)
    requires QuietRun(cfg, layout, names, targets, files, library)
    requires forall item :: item in PlanFiles(cfg, layout, targets, files).1 ==> item.action != ActionConflict
    requires var after := Published(cfg, PlanFiles(cfg, layout, targets, files).1, library, names);
             FreshTargets(after, cfg.target, again) && FreshLibrary(after, library')
    ensures var after := Published(cfg, PlanFiles(cfg, layout, targets, files).1, library, names);
            var items := PlanFiles(cfg, layout, again, files).1;
            && FreshFiles(after, cfg.source, files)
            && (forall item :: item in items ==> item.action != ActionLink && item.action != ActionConflict)
            && Applied(cfg, after, items) == after
            && Published(cfg, items, library', after) == after
            && (forall id, p :: id in DesiredOf(items) && id in library'.objects && p in library'.objects[id] ==>
                  !StaleName(cfg.publicationRoot.value, DesiredOf(items)[id], p))
  {
    SourcesUnchanged(cfg, layout, names, targets, files, library);
    NothingStale(cfg, layout, names, targets, files, library, library');
    var items := PlanFiles(cfg, layout, targets, files).1;
    forall item | item in items ensures Republished(again, item) {
      var k :| 0 <= k < |items| && items[k] == item;
      if Wanted(item) {
        WantedNamesObserved(cfg, layout, names, targets, files, library, again, k);
      }
    }
    ReplanItems(cfg, layout, targets, again, files);
    ExistingDesires(items);
    NothingToLink(cfg, Published(cfg, items, library, names), AllExisting(items));
  }

  /** Plans the observed files and publishes the plan. */
  method PlanAndApply(fs: FileSystem, cfg: Config, layout: Path -> Layout, targets: Claims,
                      files: seq<(Path, ObjectID)>, library: Library)
    returns (result: Result, failed: bool)
    requires fs.Valid() && !fs.shared && fs.reliable && ValidConfig(cfg) && cfg.managed && cfg.publicationRoot.Some?
    requires Within(library.root, cfg.publicationRoot.value)
    modifies fs
    ensures fs.Valid()
    ensures var items := PlanFiles(cfg, layout, targets, files).1;
            && fs.names == Published(cfg, items, library, old(fs.names))
            && result.linked == |Applied(cfg, old(fs.names), items)| - |old(fs.names)|
            && (result.removed > 0 ==> exists id, p ::
                  id in DesiredOf(items) && id in library.objects && p in library.objects[id]
                  && StaleName(cfg.publicationRoot.value, DesiredOf(items)[id], p))
  {
    hide RunSteps;
    var planner := new FilePlanner(cfg, targets);
    var items := planner.PlanPaths(layout, files);
    result, failed := ApplyPlanWithLibrarySnapshot(fs, cfg, items, library);
  }

  /**
   * Two quiet runs in a row over fresh observations: the second links nothing, removes nothing, and leaves the
   * namespace as the first one left it.
   */
  method PublishTwice(
    fs: FileSystem, cfg: Config, layout: Path -> Layout, targets: Claims, files: seq<(Path, ObjectID)>,
      library: Library,
    again: Claims, library': Library) returns (first: Result, second: Result)
    requires fs.Valid() && !fs.shared && fs.reliable
    requires QuietRun(cfg, layout, fs.names, targets, files, library)
    requires forall item :: item in PlanFiles(cfg, layout, targets, files).1 ==> item.action != ActionConflict
    requires var after := Published(cfg, PlanFiles(cfg, layout, targets, files).1, library, fs.names);
             FreshTargets(after, cfg.target, again) && FreshLibrary(after, library') &&
               Within(library'.root, cfg.publicationRoot.value)
    modifies fs
    ensures fs.names == Published(cfg, PlanFiles(cfg, layout, targets, files).1, library, old(fs.names))
    ensures second.linked == 0 && second.removed == 0
  {
    hide PlanFiles;
    hide Applied;
    hide Published;
    hide DesiredOf;
    hide StaleName;
    hide FreshTargets;
    hide FreshLibrary;
    SecondRunIsIdle(cfg, layout, fs.names, targets, files, library, again, library');
    var failed;
    first, failed := PlanAndApply(fs, cfg, layout, targets, files, library);
    second, failed := PlanAndApply(fs, cfg, layout, again, files, library');
  }
}
