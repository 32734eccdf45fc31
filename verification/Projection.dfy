/** The two projections of an observation: one subtree, and many subtrees in one pass. */
module Projection {
  import opened Namespace
  import opened Snapshots
  import opened Sets

  /** Projects the snapshot onto one root. Maps are visited in arbitrary order. */
  method Subtree(s: Snapshot, root: Path) returns (out: Snapshot)
    requires WellFormed(s)
    ensures out == SubtreeOf(s, root)
  {
    hide Partial; hide SubtreeOf; hide Record; hide IssuesBelow; hide Below;
    out := Blank(s, root);
    ghost var at := Progress({}, map[], 0);
    PartialStart(s, root);
    var left := s.directories.Keys;
    while left != {}
      invariant left <= s.directories.Keys && Feasible(s, at) && at == Progress(s.directories.Keys - left, map[], 0)
      invariant out == Partial(s, root, at)
      decreases left
    {
      var p :| p in left;
      left := left - {p};
      DirectoryStep(s, root, at, p);
      if Within(root, p) {
        out := Record(out, Directory(p, s.directories[p]));
      }
      assert at.directories + {p} == s.directories.Keys - left;
      at := at.(directories := at.directories + {p});
    }
    var objects := s.objects.Keys;
    while objects != {}
      invariant objects <= s.objects.Keys && Feasible(s, at)
      invariant at.directories == s.directories.Keys && at.issues == 0 && at.named.Keys == s.objects.Keys - objects
      invariant forall id :: id in at.named ==> at.named[id] == |s.objects[id].paths|
      invariant out == Partial(s, root, at)
      decreases objects
    {
      var id :| id in objects;
      objects := objects - {id};
      out, at := SubtreeObject(s, root, id, out, at);
    }
    assert at.named == Complete(s).named;
    for n := 0 to |s.issues|
      invariant Feasible(s, at) && at == Complete(s).(issues := n)
      invariant out == Partial(s, root, at)
    {
      IssueStep(s, root, at);
      if Within(root, s.issues[n].path) {
        out := Record(out, Problem(s.issues[n]));
      }
      at := at.(issues := n + 1);
    }
    PartialComplete(s, root);
  }

  /** Records one object's paths below the root, in observation order. */
  method SubtreeObject(s: Snapshot, root: Path, id: ObjectID, v: Snapshot, ghost at: Progress)
    returns (out: Snapshot, ghost now: Progress)
    requires WellFormed(s) && Feasible(s, at) && id in s.objects && id !in at.named && v == Partial(s, root, at)
    ensures now == at.(named := at.named[id := |s.objects[id].paths|])
    ensures Feasible(s, now) && out == Partial(s, root, now)
  {
    hide Partial; hide SubtreeOf; hide Record; hide IssuesBelow; hide Below;
    var obj := s.objects[id];
    ObjectStart(s, root, at, id);
    out, now := v, at.(named := at.named[id := 0]);
    for k := 0 to |obj.paths|
      invariant now == at.(named := at.named[id := k]) && Feasible(s, now) && out == Partial(s, root, now)
    {
      PathStep(s, root, now, id);
      if Within(root, obj.paths[k]) {
        out := Record(out, Regular(obj.paths[k], obj.meta));
      }
      assert at.named[id := k][id := k + 1] == at.named[id := k + 1];
      now := now.(named := now.named[id := k + 1]);
    }
  }

  // ---- many roots ---------------------------------------------------------------------------------

  type Roots = map<string, Path>

  predicate Under(byRoot: map<Path, seq<string>>, r: Path, id: string) {
    r in byRoot && id in byRoot[r]
  }

  /** Every id is listed exactly once, under its own root. */
  ghost predicate Grouped(roots: Roots, done: set<string>, byRoot: map<Path, seq<string>>) {
    && (forall r :: r in byRoot ==> NoRepeats(byRoot[r]))
    && forall r, id :: Under(byRoot, r, id) <==> id in done && id in roots && roots[id] == r
  }

  /** `ids` lists, once each, the ids whose root is an ancestor of `path` of length at least `n`. */
  ghost predicate ListsOwners(roots: Roots, path: Path, n: nat, ids: seq<string>) {
    NoRepeats(ids) && forall id :: id in ids <==> id in roots && Within(roots[id], path) && |roots[id]| >= n
  }

  /** The ids whose root encloses the path, found by walking up from the path to the file-system root. */
  method Owners(roots: Roots, byRoot: map<Path, seq<string>>, path: Path) returns (ids: seq<string>)
    requires Grouped(roots, roots.Keys, byRoot)
    ensures ListsOwners(roots, path, 0, ids)
  {
    ids := [];
    var n: nat := |path|;
    while true
      invariant n <= |path| && ListsOwners(roots, path, n + 1, ids)
      decreases n
    {
      var current := path[..n];
      ghost var before := ids;
      var here := if current in byRoot then byRoot[current] else [];
      ids := ids + here;
      OwnersStep(roots, byRoot, path, n, before, here);
      if n == 0 {
        break;
      }
      n := n - 1;
    }
  }

  lemma OwnersStep(roots: Roots, byRoot: map<Path, seq<string>>, path: Path, n: nat, before: seq<string>,
                   here: seq<string>)
    requires Grouped(roots, roots.Keys, byRoot) && n <= |path| && ListsOwners(roots, path, n + 1, before)
    requires here == if path[..n] in byRoot then byRoot[path[..n]] else []
    ensures ListsOwners(roots, path, n, before + here)
  {
    forall id ensures id in here <==> id in roots && roots[id] == path[..n] {
      assert Under(byRoot, path[..n], id) <==> id in roots && roots[id] == path[..n];
    }
    forall id | id in roots ensures roots[id] == path[..n] <==> Within(roots[id], path) && |roots[id]| == n {}
    var ids := before + here;
    forall a, b | 0 <= a < b < |ids| ensures ids[a] != ids[b] {
      if a < |before| <= b {
        assert ids[a] in before && ids[b] in here;
      }
    }
  }

  /** Hands one fact to every owner's snapshot. */
  method Distribute(out: map<string, Snapshot>, ids: seq<string>, fact: Fact) returns (now: map<string, Snapshot>)
    requires NoRepeats(ids) && forall id :: id in ids ==> id in out
    ensures now.Keys == out.Keys
    ensures forall id :: id in out ==> now[id] == if id in ids then Record(out[id], fact) else out[id]
  {
    now := out;
    for k := 0 to |ids|
      invariant now.Keys == out.Keys
      invariant forall id :: id in out ==> now[id] == if id in ids[..k] then Record(out[id], fact) else out[id]
    {
      assert ids[..k + 1] == ids[..k] + [ids[k]];
      assert ids[k] in ids && ids[k] !in ids[..k];
      now := now[ids[k] := Record(now[ids[k]], fact)];
    }
    assert ids[..|ids|] == ids;
  }

  /** Every projection has come equally far. */
  ghost predicate InStep(s: Snapshot, roots: Roots, at: Progress, out: map<string, Snapshot>) {
    Feasible(s, at) && out.Keys == roots.Keys && forall id :: id in roots ==> out[id] == Partial(s, roots[id], at)
  }

  method GroupRoots(s: Snapshot, roots: Roots) returns (out: map<string, Snapshot>, byRoot: map<Path, seq<string>>)
    ensures InStep(s, roots, Progress({}, map[], 0), out) && Grouped(roots, roots.Keys, byRoot)
  {
    out, byRoot := map[], map[];
    var left := roots.Keys;
    while left != {}
      invariant left <= roots.Keys && out.Keys == roots.Keys - left
      invariant forall id :: id in out ==> out[id] == Partial(s, roots[id], Progress({}, map[], 0))
      invariant Grouped(roots, roots.Keys - left, byRoot)
      decreases left
    {
      var id :| id in left;
      var root := roots[id];
      PartialStart(s, root);
      GroupOne(roots, roots.Keys - left, byRoot, id);
      out := out[id := Blank(s, root)];
      byRoot := byRoot[root := (if root in byRoot then byRoot[root] else []) + [id]];
      assert roots.Keys - (left - {id}) == roots.Keys - left + {id};
      left := left - {id};
    }
    assert roots.Keys - left == roots.Keys;
  }

  lemma GroupOne(roots: Roots, done: set<string>, byRoot: map<Path, seq<string>>, id: string)
    requires Grouped(roots, done, byRoot) && id in roots && id !in done
    ensures var r := roots[id];
            Grouped(roots, done + {id}, byRoot[r := (if r in byRoot then byRoot[r] else []) + [id]])
  {
    var r := roots[id];
    var was := if r in byRoot then byRoot[r] else [];
    var now := byRoot[r := was + [id]];
    assert Under(byRoot, r, id) <==> id in was;
    forall q, x ensures Under(now, q, x) <==> x in done + {id} && x in roots && roots[x] == q {
      assert Under(byRoot, q, x) <==> x in done && x in roots && roots[x] == q;
      assert x in was + [id] <==> x in was || x == id;
    }
  }

  method ProjectPath(s: Snapshot, roots: Roots, byRoot: map<Path, seq<string>>, out: map<string, Snapshot>, fact: Fact,
                     ghost at: Progress, ghost next: Progress)
    returns (now: map<string, Snapshot>)
    requires Grouped(roots, roots.Keys, byRoot) && InStep(s, roots, at, out) && Feasible(s, next)
    requires forall root :: Partial(s, root, next) == if Within(root, PathOf(fact))
      then Record(Partial(s, root, at), fact) else Partial(s, root, at)
    ensures InStep(s, roots, next, now)
  {
    hide Partial; hide SubtreeOf; hide Record; hide IssuesBelow; hide Below;
    var ids := Owners(roots, byRoot, PathOf(fact));
    now := Distribute(out, ids, fact);
  }

  method ProjectDirectories(s: Snapshot, roots: Roots, byRoot: map<Path, seq<string>>, v: map<string, Snapshot>)
    returns (out: map<string, Snapshot>)
    requires Grouped(roots, roots.Keys, byRoot) && InStep(s, roots, Progress({}, map[], 0), v)
    ensures InStep(s, roots, Progress(s.directories.Keys, map[], 0), out)
  {
    hide Partial; hide SubtreeOf; hide Record; hide IssuesBelow; hide Below;
    out := v;
    ghost var at := Progress({}, map[], 0);
    var left := s.directories.Keys;
    while left != {}
      invariant left <= s.directories.Keys && at == Progress(s.directories.Keys - left, map[], 0) &&
        InStep(s, roots, at, out)
      decreases left
    {
      var p :| p in left;
      left := left - {p};
      ghost var next := at.(directories := at.directories + {p});
      forall root ensures Feasible(s, next) && Partial(s, root, next) == if Within(root, p)
        then Record(Partial(s, root, at), Directory(p, s.directories[p])) else Partial(s, root, at) {
        DirectoryStep(s, root, at, p);
      }
      out := ProjectPath(s, roots, byRoot, out, Directory(p, s.directories[p]), at, next);
      assert at.directories + {p} == s.directories.Keys - left;
      at := next;
    }
    assert s.directories.Keys - left == s.directories.Keys;
  }

  method ProjectObjects(s: Snapshot, roots: Roots, byRoot: map<Path, seq<string>>, v: map<string, Snapshot>)
    returns (out: map<string, Snapshot>)
    requires WellFormed(s) && Grouped(roots, roots.Keys, byRoot) &&
      InStep(s, roots, Progress(s.directories.Keys, map[], 0), v)
    ensures InStep(s, roots, Complete(s).(issues := 0), out)
  {
    hide Partial; hide SubtreeOf; hide Record; hide IssuesBelow; hide Below;
    out := v;
    ghost var at := Progress(s.directories.Keys, map[], 0);
    var objects := s.objects.Keys;
    while objects != {}
      invariant objects <= s.objects.Keys && InStep(s, roots, at, out)
      invariant at.directories == s.directories.Keys && at.issues == 0 && at.named.Keys == s.objects.Keys - objects
      invariant forall id :: id in at.named ==> at.named[id] == |s.objects[id].paths|
      decreases objects
    {
      var id :| id in objects;
      objects := objects - {id};
      out, at := ProjectObject(s, roots, byRoot, id, out, at);
    }
    assert at.named == Complete(s).named;
  }

  method ProjectIssues(s: Snapshot, roots: Roots, byRoot: map<Path, seq<string>>, v: map<string, Snapshot>)
    returns (out: map<string, Snapshot>)
    requires Grouped(roots, roots.Keys, byRoot) && InStep(s, roots, Complete(s).(issues := 0), v)
    ensures InStep(s, roots, Complete(s), out)
  {
    hide Partial; hide SubtreeOf; hide Record; hide IssuesBelow; hide Below;
    out := v;
    ghost var at := Complete(s).(issues := 0);
    for n := 0 to |s.issues|
      invariant at == Complete(s).(issues := n) && InStep(s, roots, at, out)
    {
      ghost var next := at.(issues := n + 1);
      forall root ensures Partial(s, root, next) == if Within(root, s.issues[n].path)
        then Record(Partial(s, root, at), Problem(s.issues[n])) else Partial(s, root, at) {
        IssueStep(s, root, at);
      }
      out := ProjectPath(s, roots, byRoot, out, Problem(s.issues[n]), at, next);
      at := next;
    }
  }

  /**
   * Projects the snapshot onto every root in one pass. Each result is what projecting onto its root alone gives,
   * whether roots are nested, equal, or missing from the snapshot.
   */
  method ProjectSubtrees(s: Snapshot, roots: Roots) returns (out: map<string, Snapshot>)
    requires WellFormed(s)
    ensures out.Keys == roots.Keys && forall id :: id in roots ==> out[id] == SubtreeOf(s, roots[id])
  {
    hide Partial; hide SubtreeOf; hide Record; hide IssuesBelow; hide Below;
    var byRoot;
    out, byRoot := GroupRoots(s, roots);
    out := ProjectDirectories(s, roots, byRoot, out);
    out := ProjectObjects(s, roots, byRoot, out);
    out := ProjectIssues(s, roots, byRoot, out);
    forall id | id in roots ensures out[id] == SubtreeOf(s, roots[id]) {
      PartialComplete(s, roots[id]);
    }
  }

  /** Hands one observed name of an object to every owner of its path. */
  method ProjectName(s: Snapshot, roots: Roots, byRoot: map<Path, seq<string>>, id: ObjectID, k: nat,
                     v: map<string, Snapshot>, ghost at: Progress)
    returns (out: map<string, Snapshot>)
    requires WellFormed(s) && Grouped(roots, roots.Keys, byRoot) && InStep(s, roots, at, v)
    requires id in s.objects && id in at.named && at.named[id] == k < |s.objects[id].paths|
    ensures InStep(s, roots, at.(named := at.named[id := k + 1]), out)
  {
    hide Partial; hide SubtreeOf; hide Record; hide IssuesBelow; hide Below; hide Grouped; hide WellFormed;
    var obj := s.objects[id];
    var path := obj.paths[k];
    ghost var next := at.(named := at.named[id := k + 1]);
    forall root ensures Feasible(s, next) && Partial(s, root, next) == if Within(root, path)
      then Record(Partial(s, root, at), Regular(path, obj.meta)) else Partial(s, root, at) {
      PathStep(s, root, at, id);
    }
    out := ProjectPath(s, roots, byRoot, v, Regular(path, obj.meta), at, next);
  }

  method ProjectObject(s: Snapshot, roots: Roots, byRoot: map<Path, seq<string>>, id: ObjectID,
                       v: map<string, Snapshot>, ghost at: Progress)
    returns (out: map<string, Snapshot>, ghost now: Progress)
    requires WellFormed(s) && Grouped(roots, roots.Keys, byRoot) && InStep(s, roots, at, v) && id in s.objects &&
      id !in at.named
    ensures now == at.(named := at.named[id := |s.objects[id].paths|])
    ensures InStep(s, roots, now, out)
  {
    hide Partial; hide SubtreeOf; hide Record; hide IssuesBelow; hide Below; hide Grouped; hide WellFormed;
    out, now := v, at.(named := at.named[id := 0]);
    forall root ensures Feasible(s, now) && Partial(s, root, now) == Partial(s, root, at) {
      ObjectStart(s, root, at, id);
    }
    for k := 0 to |s.objects[id].paths|
      invariant now == at.(named := at.named[id := k]) && InStep(s, roots, now, out)
    {
      out := ProjectName(s, roots, byRoot, id, k, out, now);
      assert at.named[id := k][id := k + 1] == at.named[id := k + 1];
      now := now.(named := now.named[id := k + 1]);
    }
  }

  // ---- the observation graph --------------------------------------------------------------------------

  /**
   * The graph projects Entries from the source (or library) projection of one physical observation; for an Entry
   * below that root this is the same as projecting the physical observation itself.
   */
  method ProjectEntries(physical: Snapshot, namespaceRoot: Path, roots: Roots) returns (out: map<string, Snapshot>)
    requires WellFormed(physical)
    ensures out.Keys == roots.Keys
    ensures forall id :: id in roots && Within(namespaceRoot, roots[id]) ==> out[id] == SubtreeOf(physical, roots[id])
  {
    hide SubtreeOf;
    var namespace := Subtree(physical, namespaceRoot);
    SubtreeWellFormed(physical, namespaceRoot);
    out := ProjectSubtrees(namespace, roots);
    forall id | id in roots && Within(namespaceRoot, roots[id]) ensures out[id] == SubtreeOf(physical, roots[id]) {
      NestedProjection(physical, namespaceRoot, roots[id]);
    }
  }
}
