/** Publication: plan hardlinks for source files, apply the plan, and remove stale names of planned objects. */
module Organizer {
  import Options
  import opened Namespace

  type Option<+T> = Options.Option<T>

  datatype Config = Config(source: Path, target: Path, managed: bool, publicationRoot: Option<Path>)

  datatype Action = ActionLink | ActionExisting | ActionUnmatched | ActionConflict | ActionExcluded

  datatype PlanItem = PlanItem(source: Path, sourceObject: ObjectID, destination: Option<Path>, action: Action)

  /** What the naming layout says about a source file: its place below the target, or why it has none. */
  datatype Layout = Skipped | Blacklisted | Unrecognized | Unsafe | At(relative: Path)

  /** The observed library: for every regular file object, the paths that name it. */
  datatype Library = Library(root: Path, objects: map<ObjectID, seq<Path>>)

  datatype Result = Result(scanned: nat, linked: nat, existing: nat, removed: nat, excluded: nat, unmatched: nat,
    conflicts: nat)

  const NOTHING := Result(0, 0, 0, 0, 0, 0, 0)

  /** Source and target are disjoint trees below one shared top-level directory. */
  predicate ValidConfig(cfg: Config) {
    && DisjointTrees(cfg.source, cfg.target)
    && cfg.source != [] && cfg.target != [] && cfg.source[0] == cfg.target[0]
  }

  // ---- planning ---------------------------------------------------------------------------

  type Claims = map<Path, ObjectID>

  /** The item planned for one file, given the target observation and the destinations claimed so far. */
  function FileItem(cfg: Config, layout: Path -> Layout, targets: Claims, claims: Claims, source: Path, id: ObjectID)
    : Option<PlanItem> {
    match layout(source)
    case Skipped => Options.None
    case Unsafe => Options.None
    case Blacklisted => Options.Some(PlanItem(source, id, Options.None, ActionExcluded))
    case Unrecognized => Options.Some(PlanItem(source, id, Options.None, ActionUnmatched))
    case At(relative) =>
      var d := cfg.target + relative;
      Options.Some(PlanItem(source, id, Options.Some(d),
        if d in targets then (if targets[d] == id then ActionExisting else ActionConflict)
        else if d in claims && claims[d] != id then ActionConflict
        else ActionLink))
  }

  function Claim(claims: Claims, item: Option<PlanItem>): Claims {
    if item.Some? && item.value.action == ActionLink && item.value.destination.Some?
    then claims[item.value.destination.value := item.value.sourceObject] else claims
  }

  function Listed(item: Option<PlanItem>): seq<PlanItem> {
    if item.Some? then [item.value] else []
  }

  /** The claims and the items after planning `files` in order. */
  function PlanFiles(cfg: Config, layout: Path -> Layout, targets: Claims, files: seq<(Path, ObjectID)>)
    : (Claims, seq<PlanItem>) {
    if files == [] then (map[], [])
    else
      var (claims, items) := PlanFiles(cfg, layout, targets, files[..|files| - 1]);
      var (source, id) := files[|files| - 1];
      var item := FileItem(cfg, layout, targets, claims, source, id);
      (Claim(claims, item), items + Listed(item))
  }

  class FilePlanner {
    const cfg: Config
    const targetIDs: Claims
    var plannedDestinations: Claims

    constructor (cfg: Config, targetIDs: Claims)
      ensures this.cfg == cfg && this.targetIDs == targetIDs && plannedDestinations == map[]
    {
      this.cfg, this.targetIDs, plannedDestinations := cfg, targetIDs, map[];
    }

    method File(layout: Path -> Layout, source: Path, id: ObjectID) returns (item: Option<PlanItem>)
      modifies this
      ensures item == FileItem(cfg, layout, targetIDs, old(plannedDestinations), source, id)
      ensures plannedDestinations == Claim(old(plannedDestinations), item)
    {
      match layout(source) {
        case Skipped => return Options.None;
        case Unsafe => return Options.None;
        case Blacklisted => return Options.Some(PlanItem(source, id, Options.None, ActionExcluded));
        case Unrecognized => return Options.Some(PlanItem(source, id, Options.None, ActionUnmatched));
        case At(relative) =>
          var d := cfg.target + relative;
          var action := ActionLink;
          if d in targetIDs {
            action := if targetIDs[d] == id then ActionExisting else ActionConflict;
          } else if d in plannedDestinations && plannedDestinations[d] != id {
            action := ActionConflict;
          } else {
            plannedDestinations := plannedDestinations[d := id];
          }
          return Options.Some(PlanItem(source, id, Options.Some(d), action));
      }
    }

    method PlanPaths(layout: Path -> Layout, files: seq<(Path, ObjectID)>) returns (items: seq<PlanItem>)
      requires plannedDestinations == map[]
      modifies this
      ensures items == PlanFiles(cfg, layout, targetIDs, files).1
    {
      items := [];
      for i := 0 to |files|
        invariant (plannedDestinations, items) == PlanFiles(cfg, layout, targetIDs, files[..i])
      {
        assert files[..i + 1][..i] == files[..i];
        var item := File(layout, files[i].0, files[i].1);
        assert items + Listed(item) == if item.Some? then items + [item.value] else items;
        if item.Some? {
          items := items + [item.value];
        }
      }
      assert files[..|files|] == files;
    }
  }

  // ---- the desired projection of a plan -----------------------------------------------------

  predicate Wanted(item: PlanItem) {
    item.destination.Some? && (item.action == ActionLink || item.action == ActionExisting)
  }

  predicate Planned(item: PlanItem) {
    item.sourceObject != NO_OBJECT && (item.action == ActionExcluded || Wanted(item))
  }

  type Desired = map<ObjectID, set<Path>>

  /** For every planned object, the names it should have; an excluded object should have none. */
  function DesiredOf(items: seq<PlanItem>): Desired {
    if items == [] then map[]
    else
      var d := DesiredOf(items[..|items| - 1]);
      var item := items[|items| - 1];
      if !Planned(item) then d
      else
        var had := if item.sourceObject in d then d[item.sourceObject] else {};
        d[item.sourceObject := had + if item.action == ActionExcluded then {} else {item.destination.value}]
  }

  /** The item wants the object under this name. */
  predicate Places(item: PlanItem, id: ObjectID, p: Path) {
    item.sourceObject == id && item.action != ActionExcluded && Wanted(item) && item.destination.value == p
  }

  lemma {:induction false} DesiredMeaning(items: seq<PlanItem>, id: ObjectID)
    ensures id in DesiredOf(items) <==> exists k :: 0 <= k < |items| && Planned(items[k]) && items[k].sourceObject == id
    ensures id in DesiredOf(items) ==> id != NO_OBJECT
    ensures id in DesiredOf(items) ==> forall p ::
      p in DesiredOf(items)[id] <==>
        exists k :: 0 <= k < |items| && Places(items[k], id, p)
  {
    if items != [] {
      var n := |items| - 1;
      var before, item := items[..n], items[n];
      DesiredMeaning(before, id);
      assert forall k :: 0 <= k < n ==> before[k] == items[k];
      if exists k :: 0 <= k < |items| && Planned(items[k]) && items[k].sourceObject == id {
        var k :| 0 <= k < |items| && Planned(items[k]) && items[k].sourceObject == id;
        assert k < n ==> Planned(before[k]);
      }
      if id in DesiredOf(items) {
        forall p ensures p in DesiredOf(items)[id] <==>
          exists k :: 0 <= k < |items| && Places(items[k], id, p)
        {
          if exists k :: 0 <= k < |items| && Places(items[k], id, p) {
            var k :| 0 <= k < |items| && Places(items[k], id, p);
            if k < n {
              assert before[k] == items[k] && Planned(before[k]);
            }
          }
        }
      }
    }
  }

  // ---- applying a plan ----------------------------------------------------------------------

  /** The namespace after one item, when nothing interferes and nothing fails. */
  function AppliedItem(cfg: Config, names: Names, item: PlanItem): Names {
    if item.action == ActionLink && item.destination.Some?
       && StrictlyWithin(cfg.source, item.source) && StrictlyWithin(cfg.target, item.destination.value)
       && Denotes(names, item.source, item.sourceObject) && item.destination.value !in names
    then names[item.destination.value := File(item.sourceObject)] else names
  }

  function Applied(cfg: Config, names: Names, items: seq<PlanItem>): Names {
    if items == [] then names
    else AppliedItem(cfg, Applied(cfg, names, items[..|items| - 1]), items[|items| - 1])
  }

  /** The item asks for this name. */
  predicate Asks(item: PlanItem, p: Path) {
    item.action == ActionLink && item.destination == Options.Some(p)
  }

  /**
   * What a step of applying `items` may be. A link is at a planned destination and names the planned object, unless
   * another actor took its source away at the last moment; an undo follows our own link of that name.
   */
  ghost predicate ApplyStep(cfg: Config, items: seq<PlanItem>, trace: seq<Step>, from: nat, i: nat)
    requires i < |trace|
  {
    match trace[i].op
    case Environment => true
    case Stat(p) => exists k :: 0 <= k < |items| && items[k].action == ActionLink && items[k].source == p
    case Link(p, node) =>
      && StrictlyWithin(cfg.target, p)
      && exists k :: 0 <= k < |items| && Asks(items[k], p)
           && (node == File(items[k].sourceObject) || Rebound(trace, from, i, items[k].source, items[k].sourceObject))
    case Undo(p, node) => exists l :: from <= l < i && LinkedAt(trace, l, i, p, node)
    case Unlink(_, _) => false
  }

  ghost predicate ApplySteps(cfg: Config, items: seq<PlanItem>, trace: seq<Step>, from: nat) {
    forall i :: from <= i < |trace| ==> ApplyStep(cfg, items, trace, from, i)
  }

  /** A step of an earlier or a shorter history stays what it was. */
  lemma ApplyStepStays(cfg: Config, items: seq<PlanItem>, a: seq<Step>, b: seq<Step>, from: nat, i: nat)
    requires a <= b && from <= i < |a| && ApplyStep(cfg, items, a, from, i)
    ensures ApplyStep(cfg, items, b, from, i)
  {
    assert b[i] == a[i];
    match a[i].op {
      case Undo(p, node) =>
        var l :| from <= l < i && LinkedAt(a, l, i, p, node);
        assert LinkedAt(b, l, i, p, node);
      case Link(p, node) =>
        var k :| 0 <= k < |items| && Asks(items[k], p)
          && (node == File(items[k].sourceObject) || Rebound(a, from, i, items[k].source, items[k].sourceObject));
        assert node == File(items[k].sourceObject) || Rebound(b, from, i, items[k].source, items[k].sourceObject);
      case _ =>
    }
  }

  lemma ApplyGrows(cfg: Config, items: seq<PlanItem>, a: seq<Step>, b: seq<Step>, from: nat)
    requires a <= b && from <= |a| && ApplySteps(cfg, items, a, from) && ApplySteps(cfg, items, b, |a|)
    ensures ApplySteps(cfg, items, b, from)
  {
    forall i | from <= i < |b| ensures ApplyStep(cfg, items, b, from, i) {
      if i < |a| {
        ApplyStepStays(cfg, items, a, b, from, i);
      } else {
        ApplyStepFrom(cfg, items, b, |a|, from, i);
      }
    }
  }

  lemma ApplyStepFrom(cfg: Config, items: seq<PlanItem>, trace: seq<Step>, later: nat, from: nat, i: nat)
    requires from <= later <= i < |trace| && ApplyStep(cfg, items, trace, later, i)
    ensures ApplyStep(cfg, items, trace, from, i)
  {
    match trace[i].op {
      case Link(p, node) =>
        var k :| 0 <= k < |items| && Asks(items[k], p)
          && (node == File(items[k].sourceObject) || Rebound(trace, later, i, items[k].source, items[k].sourceObject));
        assert node == File(items[k].sourceObject) || Rebound(trace, from, i, items[k].source, items[k].sourceObject);
      case _ =>
    }
  }

  /** Linking one planned item takes steps of applying the plan. */
  lemma LinkingApplies(cfg: Config, items: seq<PlanItem>, item: PlanItem, trace: seq<Step>, from: nat)
    requires item in items && item.action == ActionLink && item.destination.Some?
    requires LinkSteps(trace, from, item.source, item.destination.value, item.sourceObject)
    requires |trace| > from ==> StrictlyWithin(cfg.target, item.destination.value)
    ensures ApplySteps(cfg, items, trace, from)
  {
    forall i | from <= i < |trace| ensures ApplyStep(cfg, items, trace, from, i) {
      assert LinkStep(trace, from, i, item.source, item.destination.value, item.sourceObject);
    }
  }

  /** How many items have this action. */
  function Count(items: seq<PlanItem>, action: Action): nat {
    if items == [] then 0
    else Count(items[..|items| - 1], action) + if items[|items| - 1].action == action then 1 else 0
  }

  method ApplyItem(fs: FileSystem, cfg: Config, ghost items: seq<PlanItem>, item: PlanItem, result: Result)
    returns (now: Result, failed: bool)
    requires fs.Valid() && item in items && item.action == ActionLink
    modifies fs
    ensures fs.Valid() && old(fs.trace) <= fs.trace && ApplySteps(cfg, items, fs.trace, |old(fs.trace)|)
    ensures !fs.shared && fs.reliable ==> fs.names == AppliedItem(cfg, old(fs.names), item)
    ensures !fs.shared && fs.reliable ==> now.linked == result.linked + |fs.names| - |old(fs.names)|
    ensures now.linked >= result.linked && now.existing >= result.existing && now.removed == result.removed
    ensures now.scanned == result.scanned && now.excluded == result.excluded && now.unmatched == result.unmatched
    ensures !failed ==>
      now.conflicts == result.conflicts && now.linked + now.existing == result.linked + result.existing + 1
  {
    now, failed := result, true;
    if item.destination == Options.None || !Within(cfg.source, item.source) ||
      !Within(cfg.target, item.destination.value) {
      return;
    }
    ghost var before := fs.trace;
    var found, node := fs.Lstat(item.source);
    ghost var mid := fs.trace;
    assert ApplySteps(cfg, items, mid, |before|);
    hide ApplySteps;
    hide LinkSteps;
    if !found || node == Other {
      return;
    }
    if node != File(item.sourceObject) {
      now := now.(conflicts := now.conflicts + 1);
      return;
    }
    var r := fs.LinkObserved(cfg.source, item.source, cfg.target, item.destination.value, item.sourceObject);
    LinkingApplies(cfg, items, item, fs.trace, |mid|);
    ApplyGrows(cfg, items, mid, fs.trace, |before|);
    match r {
      case Created => now, failed := now.(linked := now.linked + 1), false;
      case Present => now, failed := now.(existing := now.existing + 1), false;
      case Occupied => now := now.(conflicts := now.conflicts + 1);
      case Failed =>
    }
  }

  /** Executes the link actions of a plan. `failed` reports that some item could not be applied. */
  method ApplyPlan(fs: FileSystem, cfg: Config, items: seq<PlanItem>) returns (result: Result, failed: bool)
    requires fs.Valid()
    modifies fs
    ensures fs.Valid() && old(fs.trace) <= fs.trace && ApplySteps(cfg, items, fs.trace, |old(fs.trace)|)
    ensures !ValidConfig(cfg) ==> failed && fs.trace == old(fs.trace) && fs.names == old(fs.names)
    ensures cfg.source <= cfg.target || cfg.target <= cfg.source || cfg.source[0] != cfg.target[0] ==> failed
    ensures !fs.shared && fs.reliable && ValidConfig(cfg) ==> fs.names == Applied(cfg, old(fs.names), items)
    ensures !fs.shared && fs.reliable && ValidConfig(cfg) ==> result.linked == |fs.names| - |old(fs.names)|
    ensures result.removed == 0
    ensures !failed ==>
      && result.scanned == |items|
      && result.excluded == Count(items, ActionExcluded) && result.unmatched == Count(items, ActionUnmatched)
      && result.conflicts == Count(items, ActionConflict) && result.existing >= Count(items, ActionExisting)
      && result.linked + result.existing == Count(items, ActionLink) + Count(items, ActionExisting)
  {
    result, failed := NOTHING, true;
    if !ValidConfig(cfg) {
      return;
    }
    var prepared: bool := *;
    if !fs.reliable && !prepared {
      return;
    }
    failed := false;
    for n := 0 to |items|
      invariant fs.Valid() && old(fs.trace) <= fs.trace && ApplySteps(cfg, items, fs.trace, |old(fs.trace)|)
      invariant !fs.shared && fs.reliable ==> fs.names == Applied(cfg, old(fs.names), items[..n])
      invariant !fs.shared && fs.reliable ==> result.linked == |fs.names| - |old(fs.names)|
      invariant result.removed == 0
      invariant !failed ==>
        && result.scanned == n
        && result.excluded == Count(items[..n], ActionExcluded)
        && result.unmatched == Count(items[..n], ActionUnmatched)
        && result.conflicts == Count(items[..n], ActionConflict)
        && result.existing >= Count(items[..n], ActionExisting)
        && result.linked + result.existing == Count(items[..n], ActionLink) + Count(items[..n], ActionExisting)
    {
      var cancelled: bool := *;
      if !fs.reliable && cancelled {
        failed := true;
        break;
      }
      assert items[..n + 1][..n] == items[..n];
      var item := items[n];
      result := result.(scanned := result.scanned + 1);
      match item.action {
        case ActionExisting => result := result.(existing := result.existing + 1);
        case ActionUnmatched => result := result.(unmatched := result.unmatched + 1);
        case ActionExcluded => result := result.(excluded := result.excluded + 1);
        case ActionConflict => result := result.(conflicts := result.conflicts + 1);
        case ActionLink =>
          ghost var mid := fs.trace;
          var itemFailed;
          result, itemFailed := ApplyItem(fs, cfg, items, item, result);
          failed := failed || itemFailed;
          ApplyGrows(cfg, items, mid, fs.trace, |old(fs.trace)|);
      }
    }
    assert items[..|items|] == items;
  }

  // ---- converging the library ---------------------------------------------------------------

  /** Every desired name of the object denotes it. */
  ghost predicate Proven(names: Names, wanted: set<Path>, id: ObjectID) {
    forall d :: d in wanted ==> Denotes(names, d, id)
  }

  /** A name of a planned object that the library observation shows and the plan does not want. */
  predicate StaleName(root: Path, wanted: set<Path>, path: Path) {
    Within(root, path) && path !in wanted
  }

  /** How many of the observed names are stale. */
  function StaleCount(root: Path, wanted: set<Path>, paths: seq<Path>): nat {
    if paths == [] then 0
    else
      var n := |paths| - 1;
      StaleCount(root, wanted, paths[..n]) + if StaleName(root, wanted, paths[n]) then 1 else 0
  }

  /** The names convergence takes away, when nothing interferes and nothing fails. */
  ghost predicate Removable(root: Path, desired: Desired, library: Library, names: Names, path: Path, id: ObjectID) {
    && Denotes(names, path, id) && id in desired && id in library.objects && path in library.objects[id]
    && StrictlyWithin(root, path) && path !in desired[id] && Proven(names, desired[id], id)
  }

  ghost function Converged(root: Path, desired: Desired, library: Library, names: Names): Names {
    map p | p in names && !(names[p].File? && Removable(root, desired, library, names, p, names[p].id)) :: names[p]
  }

  /** At some earlier step of this run the name was seen to denote the object. */
  ghost predicate SeenSince(trace: seq<Step>, from: nat, until: nat, d: Path, id: ObjectID) {
    exists s :: from <= s < until && s < |trace| && trace[s].op == Stat(d) && Denotes(trace[s].before, d, id)
  }

  /** What a step of convergence may be: an unlink is of a stale name of an object proven in this run. */
  ghost predicate ConvergeStep(root: Path, desired: Desired, trace: seq<Step>, from: nat, i: nat)
    requires i < |trace|
  {
    match trace[i].op
    case Environment => true
    case Stat(p) => true
    case Link(_, _) => false
    case Undo(_, _) => false
    case Unlink(p, id) =>
      && StrictlyWithin(root, p) && id in desired && p !in desired[id]
      && forall d :: d in desired[id] ==> SeenSince(trace, from, i, d, id)
  }

  ghost predicate ConvergeSteps(root: Path, desired: Desired, trace: seq<Step>, from: nat) {
    forall i :: from <= i < |trace| ==> ConvergeStep(root, desired, trace, from, i)
  }

  lemma StepsExtend(root: Path, desired: Desired, a: seq<Step>, b: seq<Step>, from: nat)
    requires a <= b && ConvergeSteps(root, desired, a, from)
    ensures forall i :: from <= i < |a| ==> ConvergeStep(root, desired, b, from, i)
  {
    forall i | from <= i < |a| ensures ConvergeStep(root, desired, b, from, i) {
      assert b[i] == a[i] && ConvergeStep(root, desired, a, from, i);
      if b[i].op.Unlink? {
        forall d | d in desired[b[i].op.id] ensures SeenSince(b, from, i, d, b[i].op.id) {
          var s :| from <= s < i && s < |a| && a[s].op == Stat(d) && Denotes(a[s].before, d, b[i].op.id);
          assert b[s] == a[s];
        }
      }
    }
  }

  /** Checks that every desired name exists and denotes the object. The names are visited in arbitrary order. */
  method Prove(fs: FileSystem, wanted: set<Path>, id: ObjectID, ghost root: Path, ghost desired: Desired,
               ghost from: nat)
    returns (proven: bool)
    requires fs.Valid() && from <= |fs.trace| && ConvergeSteps(root, desired, fs.trace, from)
    modifies fs
    ensures fs.Valid() && old(fs.trace) <= fs.trace && ConvergeSteps(root, desired, fs.trace, from)
    ensures !fs.shared ==> fs.names == old(fs.names)
    ensures !fs.shared && fs.reliable ==> (proven <==> Proven(fs.names, wanted, id))
    ensures proven ==> forall d :: d in wanted ==> SeenSince(fs.trace, from, |fs.trace|, d, id)
  {
    var left := wanted;
    while left != {}
      invariant left <= wanted
      invariant fs.Valid() && old(fs.trace) <= fs.trace && ConvergeSteps(root, desired, fs.trace, from)
      invariant !fs.shared ==> fs.names == old(fs.names)
      invariant forall d :: d in wanted - left ==> SeenSince(fs.trace, from, |fs.trace|, d, id)
      invariant !fs.shared && fs.reliable ==> forall d :: d in wanted - left ==> Denotes(fs.names, d, id)
      decreases left
    {
      var d :| d in left;
      left := left - {d};
      ghost var before := fs.trace;
      var found, node := fs.Lstat(d);
      StepsExtend(root, desired, before, fs.trace, from);
      forall e | e in wanted - left && e != d ensures SeenSince(fs.trace, from, |fs.trace|, e, id) {
        SeenLater(before, fs.trace, from, e, id);
      }
      if !found || node != File(id) {
        return false;
      }
    }
    return true;
  }

  lemma SeenLater(a: seq<Step>, b: seq<Step>, from: nat, d: Path, id: ObjectID)
    requires a <= b && SeenSince(a, from, |a|, d, id)
    ensures SeenSince(b, from, |b|, d, id) && SeenSince(b, from, |a|, d, id)
  {
  }

  /** Removes the stale names of one proven object. */
  method RemoveStale(fs: FileSystem, root: Path, desired: Desired, id: ObjectID, paths: seq<Path>, ghost from: nat)
    returns (removed: nat, failed: bool)
    requires fs.Valid() && from <= |fs.trace| && ConvergeSteps(root, desired, fs.trace, from) && id in desired
    requires forall d :: d in desired[id] ==> SeenSince(fs.trace, from, |fs.trace|, d, id)
    modifies fs
    ensures fs.Valid() && old(fs.trace) <= fs.trace && ConvergeSteps(root, desired, fs.trace, from)
    ensures !fs.shared && fs.reliable ==> forall p :: p in fs.names <==>
      p in old(fs.names) &&
        !(p in paths && StrictlyWithin(root, p) && p !in desired[id] && Denotes(old(fs.names), p, id))
    ensures !fs.shared && fs.reliable ==> forall p :: p in fs.names ==> fs.names[p] == old(fs.names)[p]
    ensures removed > 0 ==> exists p :: p in paths && StaleName(root, desired[id], p)
    ensures removed <= StaleCount(root, desired[id], paths)
    ensures !failed ==> removed == StaleCount(root, desired[id], paths)
  {
    removed, failed := 0, false;
    for j := 0 to |paths|
      invariant fs.Valid() && old(fs.trace) <= fs.trace && ConvergeSteps(root, desired, fs.trace, from)
      invariant forall d :: d in desired[id] ==> SeenSince(fs.trace, from, |fs.trace|, d, id)
      invariant !fs.shared && fs.reliable ==> forall p :: p in fs.names <==>
        p in old(fs.names) &&
          !(p in paths[..j] && StrictlyWithin(root, p) && p !in desired[id] && Denotes(old(fs.names), p, id))
      invariant !fs.shared && fs.reliable ==> forall p :: p in fs.names ==> fs.names[p] == old(fs.names)[p]
      invariant removed > 0 ==> exists p :: p in paths && StaleName(root, desired[id], p)
      invariant removed <= StaleCount(root, desired[id], paths[..j])
      invariant !failed ==> removed == StaleCount(root, desired[id], paths[..j])
    {
      var stale := paths[j];
      assert paths[..j + 1] == paths[..j] + [stale];
      if StaleName(root, desired[id], stale) {
        ghost var before := fs.trace;
        var ok := fs.RemoveObservedLink(root, stale, id);
        StepsExtend(root, desired, before, fs.trace, from);
        forall d | d in desired[id]
          ensures SeenSince(fs.trace, from, |fs.trace|, d, id)
          ensures forall i :: |before| <= i < |fs.trace| ==> SeenSince(fs.trace, from, i, d, id)
        {
          SeenLater(before, fs.trace, from, d, id);
          assert SeenSince(fs.trace, from, |before|, d, id);
        }
        if ok {
          removed := removed + 1;
        } else {
          failed := true;
        }
      }
    }
    assert paths[..|paths|] == paths;
  }

  /** The namespace between two objects of the convergence loop. */
  ghost predicate Partly(root: Path, desired: Desired, library: Library, names: Names, done: set<ObjectID>, now: Names)
    {
    && (forall p :: p in now ==> p in names && now[p] == names[p])
    && (forall p :: p in names && p !in now ==>
         names[p].File? && names[p].id in done && Removable(root, desired, library, names, p, names[p].id))
    && (forall p :: p in now && names[p].File? && names[p].id in done ==>
         !Removable(root, desired, library, names, p, names[p].id))
  }

  lemma PartlyStep(root: Path, desired: Desired, library: Library, names: Names, done: set<ObjectID>, now: Names,
                   next: Names, id: ObjectID)
    requires Partly(root, desired, library, names, done, now) && id in desired && id !in done
    requires forall p :: p in next ==> p in now && next[p] == now[p]
    requires forall p :: p in now ==>
      (p !in next <==> id in library.objects && p in library.objects[id] && StrictlyWithin(root, p) && p !in desired[id]
                       && Denotes(now, p, id) && Proven(now, desired[id], id))
    ensures Partly(root, desired, library, names, done + {id}, next)
  {
  }

  /**
   * Removes stale names of the planned objects below the publication root, object by object in arbitrary order,
   * each only after all its desired names were seen to denote it.
   */
  method ConvergePublicationAliases(fs: FileSystem, cfg: Config, items: seq<PlanItem>, library: Library)
    returns (removed: nat, failed: bool)
    requires fs.Valid()
    modifies fs
    ensures fs.Valid() && old(fs.trace) <= fs.trace
    ensures !cfg.managed || cfg.publicationRoot == Options.None ==>
      fs.trace == old(fs.trace) && fs.names == old(fs.names) && removed == 0
    ensures cfg.managed && cfg.publicationRoot.Some? && !Within(library.root, cfg.publicationRoot.value) ==>
      failed && fs.trace == old(fs.trace) && fs.names == old(fs.names) && removed == 0
    ensures cfg.managed && cfg.publicationRoot.Some? ==>
      ConvergeSteps(cfg.publicationRoot.value, DesiredOf(items), fs.trace, |old(fs.trace)|)
    ensures (cfg.managed && cfg.publicationRoot.Some? && Within(library.root, cfg.publicationRoot.value)
             && !fs.shared && fs.reliable) ==>
      fs.names == Converged(cfg.publicationRoot.value, DesiredOf(items), library, old(fs.names))
    ensures removed > 0 ==> cfg.publicationRoot.Some? && exists id, p ::
      id in DesiredOf(items) && id in library.objects && p in library.objects[id]
      && StaleName(cfg.publicationRoot.value, DesiredOf(items)[id], p)
  {
    removed, failed := 0, false;
    if !cfg.managed || cfg.publicationRoot == Options.None {
      return;
    }
    var root := cfg.publicationRoot.value;
    if !Within(library.root, root) {
      return 0, true;
    }
    var desired := BuildDesired(items);
    ghost var names, from := fs.names, |fs.trace|;
    var left := desired.Keys;
    while left != {}
      invariant left <= desired.Keys && old(fs.trace) <= fs.trace && fs.Valid()
      invariant ConvergeSteps(root, desired, fs.trace, from)
      invariant !fs.shared && fs.reliable ==> Partly(root, desired, library, names, desired.Keys - left, fs.names)
      invariant removed > 0 ==> exists id, p ::
        id in desired && id in library.objects && p in library.objects[id] && StaleName(root, desired[id], p)
      decreases left
    {
      var cancelled: bool := *;
      if !fs.reliable && cancelled {
        failed := true;
        break;
      }
      var id :| id in left;
      ghost var done, now := desired.Keys - left, fs.names;
      left := left - {id};
      var proven := Prove(fs, desired[id], id, root, desired, from);
      if proven && id in library.objects {
        ghost var before := fs.trace;
        var n, itemFailed := RemoveStale(fs, root, desired, id, library.objects[id], from);
        removed, failed := removed + n, failed || itemFailed;
      }
      assert desired.Keys - left == done + {id};
      if !fs.shared && fs.reliable {
        PartlyStep(root, desired, library, names, done, now, fs.names, id);
      }
    }
    assert left == {} ==> desired.Keys - left == desired.Keys;
    if !fs.shared && fs.reliable {
      assert fs.names == Converged(root, desired, library, names);
    }
  }

  method BuildDesired(items: seq<PlanItem>) returns (desired: Desired)
    ensures desired == DesiredOf(items)
  {
    desired := map[];
    for i := 0 to |items|
      invariant desired == DesiredOf(items[..i])
    {
      assert items[..i + 1][..i] == items[..i];
      var item := items[i];
      if Planned(item) {
        ghost var before := desired;
        ghost var had := if item.sourceObject in desired then desired[item.sourceObject] else {};
        assert had + {} == had;
        if item.sourceObject !in desired {
          desired := desired[item.sourceObject := {}];
        }
        if item.action != ActionExcluded {
          desired := desired[item.sourceObject := desired[item.sourceObject] + {item.destination.value}];
        }
        assert desired ==
          before[item.sourceObject := had + if item.action == ActionExcluded then {} else {item.destination.value}];
      }
    }
    assert items[..|items|] == items;
  }

  /** The run applies the plan up to step `mid` and converges from there. */
  ghost predicate RunSplits(cfg: Config, items: seq<PlanItem>, trace: seq<Step>, from: nat, mid: nat) {
    from <= mid <= |trace| && ApplySteps(cfg, items, trace[..mid], from)
    && if cfg.managed &&
         cfg.publicationRoot.Some? then ConvergeSteps(cfg.publicationRoot.value, DesiredOf(items), trace, mid)
       else mid == |trace|
  }

  /** What one publication run may do to the namespace: links the plan asks for, then stale names. */
  ghost predicate RunSteps(cfg: Config, items: seq<PlanItem>, trace: seq<Step>, from: nat) {
    exists mid: nat :: RunSplits(cfg, items, trace, from, mid)
  }

  method ApplyPlanWithLibrarySnapshot(fs: FileSystem, cfg: Config, items: seq<PlanItem>, library: Library)
    returns (result: Result, failed: bool)
    requires fs.Valid()
    modifies fs
    ensures fs.Valid() && old(fs.trace) <= fs.trace && RunSteps(cfg, items, fs.trace, |old(fs.trace)|)
    ensures !fs.shared && fs.reliable && ValidConfig(cfg) ==>
      result.linked == |Applied(cfg, old(fs.names), items)| - |old(fs.names)|
    ensures (!fs.shared && fs.reliable && ValidConfig(cfg) && cfg.managed && cfg.publicationRoot.Some?
             && Within(library.root, cfg.publicationRoot.value)) ==>
      fs.names == Converged(cfg.publicationRoot.value, DesiredOf(items), library, Applied(cfg, old(fs.names), items))
    ensures result.removed > 0 ==> cfg.publicationRoot.Some? && exists id, p ::
      id in DesiredOf(items) && id in library.objects && p in library.objects[id]
      && StaleName(cfg.publicationRoot.value, DesiredOf(items)[id], p)
  {
    var applyFailed, cleanupFailed, removed;
    result, applyFailed := ApplyPlan(fs, cfg, items);
    ghost var mid := |fs.trace|;
    ghost var applied := fs.trace;
    removed, cleanupFailed := ConvergePublicationAliases(fs, cfg, items, library);
    assert fs.trace[..mid] == applied;
    assert RunSplits(cfg, items, fs.trace, |old(fs.trace)|, mid);
    result, failed := result.(removed := result.removed + removed), applyFailed || cleanupFailed;
  }
}
