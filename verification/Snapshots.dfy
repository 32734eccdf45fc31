/** Physical observations, and projecting one observation onto subtrees without looking again. */
module Snapshots {
  import opened Options
  import opened Namespace

  datatype Metadata = Metadata(id: ObjectID, size: int, links: nat)

  /** Every observed path of one regular file object, in observation order. */
  datatype Object = Object(meta: Metadata, paths: seq<Path>)

  datatype Issue = Issue(path: Path, detail: string)

  datatype Snapshot = Snapshot(
    root: Path, rootObject: Option<Metadata>,
    objects: map<ObjectID, Object>, paths: map<Path, ObjectID>,
    directories: map<Path, Metadata>, issues: seq<Issue>)

  const EMPTY := Snapshot([], None, map[], map[], map[], [])

  /** Objects are filed under their own identity, and `paths` is the inverse of their path lists. */
  ghost predicate WellFormed(s: Snapshot) {
    && (forall id :: id in s.objects ==> s.objects[id].meta.id == id && s.objects[id].paths != [])
    && (forall id, p :: id in s.objects && p in s.objects[id].paths ==> p in s.paths && s.paths[p] == id)
    && (forall p :: p in s.paths ==> s.paths[p] in s.objects && p in s.objects[s.paths[p]].paths)
  }

  function AddObject(objects: map<ObjectID, Object>, path: Path, meta: Metadata): map<ObjectID, Object> {
    objects[meta.id := if meta.id in objects then objects[meta.id].(paths := objects[meta.id].paths + [path])
      else Object(meta, [path])]
  }

  function AddRegular(s: Snapshot, path: Path, meta: Metadata): Snapshot {
    s.(objects := AddObject(s.objects, path, meta), paths := s.paths[path := meta.id])
  }

  /** Observing a path not seen before keeps the snapshot well formed. */
  lemma AddRegularKeepsForm(s: Snapshot, path: Path, meta: Metadata)
    requires WellFormed(s) && path !in s.paths
    ensures WellFormed(AddRegular(s, path, meta))
  {
  }

  // ---- what a subtree projection is ---------------------------------------------------------------

  function Below(root: Path, paths: seq<Path>): seq<Path> {
    if paths == [] then []
    else Below(root, paths[..|paths| - 1]) + if Within(root, paths[|paths| - 1]) then [paths[|paths| - 1]] else []
  }

  function IssuesBelow(root: Path, issues: seq<Issue>): seq<Issue> {
    if issues == [] then []
    else IssuesBelow(root, issues[..|issues| - 1]) + if Within(root, issues[|issues| - 1].path)
      then [issues[|issues| - 1]] else []
  }

  ghost function ObjectsBelow(root: Path, objects: map<ObjectID, Object>): map<ObjectID, Object> {
    map id | id in objects &&
      Below(root, objects[id].paths) != [] :: Object(objects[id].meta, Below(root, objects[id].paths))
  }

  ghost function KeysBelow<T>(root: Path, m: map<Path, T>): map<Path, T> {
    map p | p in m && Within(root, p) :: m[p]
  }

  /** Everything the snapshot knows at or below `root`. */
  ghost function SubtreeOf(s: Snapshot, root: Path): Snapshot {
    Snapshot(
      root, if root in s.directories then Some(s.directories[root]) else None,
      ObjectsBelow(root, s.objects), KeysBelow(root, s.paths), KeysBelow(root, s.directories),
        IssuesBelow(root, s.issues))
  }

  lemma {:induction false} BelowMember(root: Path, paths: seq<Path>, p: Path)
    ensures p in Below(root, paths) <==> p in paths && Within(root, p)
  {
    if paths != [] {
      var n := |paths| - 1;
      BelowMember(root, paths[..n], p);
      assert paths == paths[..n] + [paths[n]];
    }
  }

  lemma {:induction false} BelowCounts(root: Path, paths: seq<Path>, p: Path)
    ensures multiset(Below(root, paths))[p] == if root <= p then multiset(paths)[p] else 0
  {
    if paths != [] {
      var n := |paths| - 1;
      BelowCounts(root, paths[..n], p);
      assert paths == paths[..n] + [paths[n]];
    }
  }

  lemma {:induction false} IssuesBelowCounts(root: Path, issues: seq<Issue>, i: Issue)
    ensures multiset(IssuesBelow(root, issues))[i] == if root <= i.path then multiset(issues)[i] else 0
  {
    if issues != [] {
      var n := |issues| - 1;
      IssuesBelowCounts(root, issues[..n], i);
      assert issues == issues[..n] + [issues[n]];
    }
  }

  lemma {:induction false} BelowSome(root: Path, paths: seq<Path>)
    ensures Below(root, paths) != [] <==> exists p :: p in paths && root <= p
  {
    if Below(root, paths) != [] {
      BelowMember(root, paths, Below(root, paths)[0]);
    }
    if p :| p in paths && root <= p {
      BelowMember(root, paths, p);
    }
  }

  /**
   * A subtree projection knows a fact exactly if the snapshot does and its path starts with the root: directories,
   * names, objects with such a name, each with exactly its names there, and problems, none lost or repeated.
   */
  lemma SubtreeMeaning(s: Snapshot, root: Path, p: Path, id: ObjectID, i: Issue)
    ensures var t := SubtreeOf(s, root);
            && t.root == root && (t.rootObject.Some? <==> root in s.directories)
            && (root in s.directories ==> t.rootObject == Some(s.directories[root]))
            && (p in t.directories <==> p in s.directories && root <= p)
            && (p in t.directories ==> t.directories[p] == s.directories[p])
            && (p in t.paths <==> p in s.paths && root <= p) && (p in t.paths ==> t.paths[p] == s.paths[p])
            && (id in t.objects <==> id in s.objects && exists q :: q in s.objects[id].paths && root <= q)
            && (id in t.objects ==> t.objects[id].meta == s.objects[id].meta)
            && (id in t.objects ==>
                 multiset(t.objects[id].paths)[p] == (if root <= p then multiset(s.objects[id].paths)[p] else 0))
            && multiset(t.issues)[i] == if root <= i.path then multiset(s.issues)[i] else 0
  {
    hide Below;
    hide IssuesBelow;
    IssuesBelowCounts(root, s.issues, i);
    if id in s.objects {
      BelowSome(root, s.objects[id].paths);
      BelowCounts(root, s.objects[id].paths, p);
    }
  }

  lemma {:induction false} BelowBelow(outer: Path, inner: Path, paths: seq<Path>)
    requires Within(outer, inner)
    ensures Below(inner, Below(outer, paths)) == Below(inner, paths)
  {
    if paths != [] {
      var n := |paths| - 1;
      BelowBelow(outer, inner, paths[..n]);
      var p, rest := paths[n], Below(outer, paths[..n]);
      if Within(inner, p) {
        assert outer == inner[..|outer|] == p[..|outer|];
      }
      if Within(outer, p) {
        assert (rest + [p])[..|rest|] == rest;
      } else {
        assert rest + [] == rest;
      }
    }
  }

  lemma {:induction false} IssuesBelowBelow(outer: Path, inner: Path, issues: seq<Issue>)
    requires Within(outer, inner)
    ensures IssuesBelow(inner, IssuesBelow(outer, issues)) == IssuesBelow(inner, issues)
  {
    if issues != [] {
      var n := |issues| - 1;
      IssuesBelowBelow(outer, inner, issues[..n]);
      var p, rest := issues[n], IssuesBelow(outer, issues[..n]);
      if Within(inner, p.path) {
        assert outer == inner[..|outer|] == p.path[..|outer|];
      }
      if Within(outer, p.path) {
        assert (rest + [p])[..|rest|] == rest;
      } else {
        assert rest + [] == rest;
      }
    }
  }

  lemma ObjectsBelowBelow(outer: Path, inner: Path, objects: map<ObjectID, Object>)
    requires Within(outer, inner)
    ensures ObjectsBelow(inner, ObjectsBelow(outer, objects)) == ObjectsBelow(inner, objects)
  {
    var t, u := ObjectsBelow(inner, ObjectsBelow(outer, objects)), ObjectsBelow(inner, objects);
    forall id | id in objects
      ensures id in t <==> id in u
      ensures id in u ==> t[id] == u[id]
    {
      BelowBelow(outer, inner, objects[id].paths);
    }
    assert t.Keys == u.Keys;
  }

  /** Projecting through an enclosing subtree first changes nothing. */
  lemma NestedProjection(s: Snapshot, outer: Path, inner: Path)
    requires Within(outer, inner)
    ensures SubtreeOf(SubtreeOf(s, outer), inner) == SubtreeOf(s, inner)
  {
    ObjectsBelowBelow(outer, inner, s.objects);
    IssuesBelowBelow(outer, inner, s.issues);
  }

  lemma SubtreeWellFormed(s: Snapshot, root: Path)
    requires WellFormed(s)
    ensures WellFormed(SubtreeOf(s, root))
  {
    hide Below; hide IssuesBelow;
    var t := SubtreeOf(s, root);
    forall id, p | id in t.objects && p in t.objects[id].paths ensures p in t.paths && t.paths[p] == id {
      BelowMember(root, s.objects[id].paths, p);
    }
    forall p | p in t.paths ensures t.paths[p] in t.objects && p in t.objects[t.paths[p]].paths {
      BelowMember(root, s.objects[s.paths[p]].paths, p);
    }
  }

  // ---- partial projections, in whatever order the maps are visited ------------------------------------

  /** One observed fact, as the projection loops hand it on. */
  datatype Fact = Directory(path: Path, meta: Metadata) | Regular(path: Path, meta: Metadata) | Problem(issue: Issue)

  function PathOf(f: Fact): Path {
    match f
    case Directory(p, _) => p
    case Regular(p, _) => p
    case Problem(i) => i.path
  }

  function Record(v: Snapshot, f: Fact): Snapshot {
    match f
    case Directory(p, m) => v.(directories := v.directories[p := m])
    case Regular(p, m) => AddRegular(v, p, m)
    case Problem(i) => v.(issues := v.issues + [i])
  }

  /** How far a projection has come: directories visited, paths visited of each object, issues visited. */
  datatype Progress = Progress(directories: set<Path>, named: map<ObjectID, nat>, issues: nat)

  ghost predicate Feasible(s: Snapshot, at: Progress) {
    && at.directories <= s.directories.Keys && at.issues <= |s.issues|
    && forall id :: id in at.named ==> id in s.objects && at.named[id] <= |s.objects[id].paths|
  }

  ghost function PartialObjects(s: Snapshot, root: Path, named: map<ObjectID, nat>): map<ObjectID, Object>
    requires Feasible(s, Progress({}, named, 0))
  {
    map id | id in named && Below(root, s.objects[id].paths[..named[id]]) != [] ::
      Object(s.objects[id].meta, Below(root, s.objects[id].paths[..named[id]]))
  }

  ghost predicate Visited(s: Snapshot, named: map<ObjectID, nat>, p: Path)
    requires Feasible(s, Progress({}, named, 0))
  {
    p in s.paths && s.paths[p] in named && p in s.objects[s.paths[p]].paths[..named[s.paths[p]]]
  }

  ghost function PartialPaths(s: Snapshot, root: Path, named: map<ObjectID, nat>): map<Path, ObjectID>
    requires Feasible(s, Progress({}, named, 0))
  {
    map p | p in s.paths && Visited(s, named, p) && Within(root, p) :: s.paths[p]
  }

  ghost function Partial(s: Snapshot, root: Path, at: Progress): Snapshot
    requires Feasible(s, at)
  {
    Snapshot(
      root, if root in s.directories then Some(s.directories[root]) else None,
      PartialObjects(s, root, at.named), PartialPaths(s, root, at.named),
      map p | p in at.directories && Within(root, p) :: s.directories[p],
      IssuesBelow(root, s.issues[..at.issues]))
  }

  ghost function Complete(s: Snapshot): Progress {
    Progress(s.directories.Keys, map id | id in s.objects :: |s.objects[id].paths|, |s.issues|)
  }

  function Blank(s: Snapshot, root: Path): Snapshot {
    EMPTY.(root := root, rootObject := if root in s.directories then Some(s.directories[root]) else None)
  }

  lemma PartialStart(s: Snapshot, root: Path)
    ensures Partial(s, root, Progress({}, map[], 0)) == Blank(s, root)
  {
  }

  lemma CompleteObjects(s: Snapshot, root: Path)
    ensures Feasible(s, Complete(s)) && PartialObjects(s, root, Complete(s).named) == ObjectsBelow(root, s.objects)
  {
    hide Below;
    var v, u := PartialObjects(s, root, Complete(s).named), ObjectsBelow(root, s.objects);
    forall id | id in s.objects ensures s.objects[id].paths[..|s.objects[id].paths|] == s.objects[id].paths {}
    assert v.Keys == u.Keys;
  }

  lemma CompletePaths(s: Snapshot, root: Path)
    requires WellFormed(s)
    ensures Feasible(s, Complete(s)) && PartialPaths(s, root, Complete(s).named) == KeysBelow(root, s.paths)
  {
  }

  lemma PartialComplete(s: Snapshot, root: Path)
    requires WellFormed(s)
    ensures Feasible(s, Complete(s)) && Partial(s, root, Complete(s)) == SubtreeOf(s, root)
  {
    hide Below; hide IssuesBelow; hide WellFormed; hide PartialObjects; hide PartialPaths; hide ObjectsBelow;
    CompleteObjects(s, root);
    CompletePaths(s, root);
    assert s.issues[..|s.issues|] == s.issues;
  }

  lemma DirectoryStep(s: Snapshot, root: Path, at: Progress, p: Path)
    requires Feasible(s, at) && p in s.directories
    ensures Feasible(s, at.(directories := at.directories + {p}))
    ensures Partial(s, root, at.(directories := at.directories + {p})) ==
            if Within(root, p) then Record(Partial(s, root, at), Directory(p, s.directories[p]))
              else Partial(s, root, at)
  {
  }

  lemma IssueStep(s: Snapshot, root: Path, at: Progress)
    requires Feasible(s, at) && at.issues < |s.issues|
    ensures Partial(s, root, at.(issues := at.issues + 1)) ==
            var i := s.issues[at.issues];
            if Within(root, i.path) then Record(Partial(s, root, at), Problem(i)) else Partial(s, root, at)
  {
    assert s.issues[..at.issues + 1][..at.issues] == s.issues[..at.issues];
  }

  /** The object is about to be visited: nothing of it is recorded yet. */
  lemma ObjectStart(s: Snapshot, root: Path, at: Progress, id: ObjectID)
    requires Feasible(s, at) && id in s.objects && id !in at.named
    ensures Feasible(s, at.(named := at.named[id := 0]))
    ensures Partial(s, root, at.(named := at.named[id := 0])) == Partial(s, root, at)
  {
    var v, w := Partial(s, root, at), Partial(s, root, at.(named := at.named[id := 0]));
    assert w.objects == v.objects && w.paths == v.paths;
  }

  lemma PathStep(s: Snapshot, root: Path, at: Progress, id: ObjectID)
    requires WellFormed(s) && Feasible(s, at) && id in at.named && at.named[id] < |s.objects[id].paths|
    ensures Feasible(s, at.(named := at.named[id := at.named[id] + 1]))
    ensures Partial(s, root, at.(named := at.named[id := at.named[id] + 1])) ==
            var p := s.objects[id].paths[at.named[id]];
            if Within(root, p) then Record(Partial(s, root, at), Regular(p, s.objects[id].meta))
              else Partial(s, root, at)
  {
    hide Below; hide IssuesBelow; hide AddObject; hide PartialObjects; hide PartialPaths;
    var k := at.named[id];
    var p, named := s.objects[id].paths[k], at.named[id := k + 1];
    ObjectsStep(s, root, at.named, id);
    PathsStep(s, root, at.named, id);
    assert p in s.objects[id].paths;
  }

  lemma BelowSnoc(root: Path, paths: seq<Path>, k: nat)
    requires k < |paths|
    ensures Below(root, paths[..k + 1]) == Below(root, paths[..k]) + if Within(root, paths[k]) then [paths[k]] else []
  {
    assert paths[..k + 1][..k] == paths[..k];
  }

  lemma ObjectsStep(s: Snapshot, root: Path, named: map<ObjectID, nat>, id: ObjectID)
    requires WellFormed(s) && Feasible(s, Progress({}, named, 0)) && id in named && named[id] < |s.objects[id].paths|
    ensures var p, v := s.objects[id].paths[named[id]], PartialObjects(s, root, named);
            PartialObjects(s, root, named[id := named[id] + 1]) == if Within(root, p)
              then AddObject(v, p, s.objects[id].meta) else v
  {
    hide Below;
    var k, all := named[id], s.objects[id].paths;
    var p, v, w := all[k], PartialObjects(s, root, named), PartialObjects(s, root, named[id := k + 1]);
    var u := if Within(root, p) then AddObject(v, p, s.objects[id].meta) else v;
    BelowSnoc(root, all, k);
    forall j
      ensures j in w <==> j in u
      ensures j in u ==> w[j] == u[j]
    {
      if j != id && j in named {
        assert named[id := k + 1][j] == named[j];
      }
    }
    assert w.Keys == u.Keys;
  }

  lemma PathsStep(s: Snapshot, root: Path, named: map<ObjectID, nat>, id: ObjectID)
    requires WellFormed(s) && Feasible(s, Progress({}, named, 0)) && id in named && named[id] < |s.objects[id].paths|
    ensures var p, v, w :=
      s.objects[id].paths[named[id]], PartialPaths(s, root, named), PartialPaths(s, root, named[id := named[id] + 1]);
            w == if Within(root, p) then v[p := id] else v
  {
    var k, all := named[id], s.objects[id].paths;
    var p, next := all[k], named[id := k + 1];
    assert all[..k + 1] == all[..k] + [p];
    assert p in all && s.paths[p] == id;
    forall q ensures Visited(s, next, q) <==> Visited(s, named, q) || q == p {
      if q in s.paths && s.paths[q] == id {
        assert q in all[..k + 1] <==> q in all[..k] || q == p;
      }
    }
  }
}
