/** The file system as the organizer uses it: names, objects, and atomic link and unlink steps. */
module Namespace {

  /** A clean absolute path, as its components below the file-system root. */
  type Path = seq<string>

  datatype ObjectID = ObjectID(device: nat, inode: nat)

  const NO_OBJECT := ObjectID(0, 0)

  /** What a name denotes without following links: a regular file, or something that is not one. */
  datatype Node = File(id: ObjectID) | Other

  type Names = map<Path, Node>

  predicate Within(root: Path, path: Path) {
    root <= path
  }

  predicate StrictlyWithin(root: Path, path: Path) {
    root < path
  }

  predicate DisjointTrees(a: Path, b: Path) {
    !Within(a, b) && !Within(b, a)
  }

  predicate Denotes(names: Names, path: Path, id: ObjectID) {
    path in names && names[path] == File(id)
  }

  /** `Undo` is the unverified unlink that takes a fresh link back; `node` is what that link had named. */
  datatype Op =
    | Environment
    | Stat(path: Path)
    | Link(path: Path, node: Node)
    | Undo(path: Path, node: Node)
    | Unlink(path: Path, id: ObjectID)

  /** One atomic step of the history, with the namespace before and after it. */
  datatype Step = Step(before: Names, after: Names, op: Op)

  /** The effect each of our own operations may have. Other actors may do anything. */
  ghost predicate Lawful(s: Step) {
    match s.op
    case Environment => true
    case Stat(_) => s.after == s.before
    case Link(p, node) =>
      p !in s.before && s.after == s.before[p := node] && exists q :: q in s.before && s.before[q] == node
    case Undo(p, _) => s.after == s.before || s.after == s.before - {p}
    case Unlink(p, id) => Denotes(s.before, p, id) && s.after == s.before - {p}
  }

  ghost predicate Chained(trace: seq<Step>, names: Names) {
    && (forall i :: 0 <= i < |trace| ==> Lawful(trace[i]))
    && (forall i :: 0 <= i < |trace| - 1 ==> trace[i].after == trace[i + 1].before)
    && (trace != [] ==> trace[|trace| - 1].after == names)
  }

  /** The step looked at the name and found the node. */
  ghost predicate Saw(s: Step, p: Path, node: Node) {
    s.op == Stat(p) && p in s.before && s.before[p] == node
  }

  /** Another actor's step took the name away from the object. */
  ghost predicate TakesAway(s: Step, p: Path, id: ObjectID) {
    s.op == Environment && Denotes(s.before, p, id) && !Denotes(s.after, p, id)
  }

  /** Just before step `i` another actor took the source name away from the object. */
  ghost predicate Rebound(trace: seq<Step>, from: nat, i: nat, source: Path, id: ObjectID) {
    from < i <= |trace| && TakesAway(trace[i - 1], source, id)
  }

  /** We linked the name at step `l`, and only other actors took steps since. */
  ghost predicate LinkedAt(trace: seq<Step>, l: nat, i: nat, p: Path, node: Node) {
    l < i <= |trace| && trace[l].op == Link(p, node) && forall j :: l < j < i ==> trace[j].op == Environment
  }

  /** What one step of LinkObserved may be. */
  ghost predicate LinkStep(trace: seq<Step>, from: nat, i: nat, source: Path, target: Path, expected: ObjectID)
    requires i < |trace|
  {
    match trace[i].op
    case Environment => true
    case Link(p, node) => p == target && (node == File(expected) || Rebound(trace, from, i, source, expected))
    case Undo(p, node) => p == target && exists l :: from <= l < i && LinkedAt(trace, l, i, p, node)
    case _ => false
  }

  ghost predicate LinkSteps(trace: seq<Step>, from: nat, source: Path, target: Path, expected: ObjectID) {
    forall i :: from <= i < |trace| ==> LinkStep(trace, from, i, source, target, expected)
  }

  /** Steps after a link: others act, and the link may be taken back. */
  ghost predicate AfterLink(trace: seq<Step>, linked: nat, target: Path, node: Node) {
    forall i :: linked < i < |trace| ==>
      trace[i].op == Environment || (trace[i].op == Undo(target, node) && LinkedAt(trace, linked, i, target, node))
  }

  /** Only other actors took steps between the two histories. */
  ghost predicate OnlyOthers(a: seq<Step>, b: seq<Step>) {
    a <= b && forall i :: |a| <= i < |b| ==> b[i].op == Environment
  }

  /** A link of the expected object is only taken back after another actor took the name away from it. */
  ghost predicate Provoked(trace: seq<Step>, from: nat, target: Path, expected: ObjectID) {
    forall i :: from <= i < |trace| && trace[i].op == Undo(target, File(expected)) ==>
      exists j :: from <= j < i && TakesAway(trace[j], target, expected)
  }

  lemma LinkedAndAfter(start: seq<Step>, a: seq<Step>, b: seq<Step>, source: Path, target: Path, expected: ObjectID,
                       node: Node)
    requires OnlyOthers(start, a) && |a| < |b| && a <= b
    requires b[|a|].op == Link(target, node) && AfterLink(b, |a|, target, node)
    requires node == File(expected) || Rebound(a, |start|, |a|, source, expected)
    ensures LinkSteps(b, |start|, source, target, expected)
    ensures Provoked(b, |a|, target, expected) ==> Provoked(b, |start|, target, expected)
  {
    assert forall i :: |start| <= i < |a| ==> b[i].op == Environment;
  }

  datatype LinkOutcome = Created | Present | Occupied | Failed

  class FileSystem {
    var names: Names
    /** Whether other actors may change the namespace between our system calls. */
    const shared: bool
    /** Whether system calls only fail for reasons visible in the namespace. */
    const reliable: bool
    ghost var trace: seq<Step>

    constructor (names: Names, shared: bool, reliable: bool)
      ensures Valid() && this.names == names && this.shared == shared && this.reliable == reliable && trace == []
    {
      this.names, this.shared, this.reliable, trace := names, shared, reliable, [];
    }

    ghost predicate Valid()
      reads this
    {
      Chained(trace, names)
    }

    /** Other actors take some steps. */
    method Interfere()
      requires Valid()
      modifies this
      ensures Valid() && old(trace) <= trace
      ensures forall i :: |old(trace)| <= i < |trace| ==> trace[i].op == Environment
      ensures trace == old(trace) + if |trace| == |old(trace)| then [] else [Step(old(names), names, Environment)]
      ensures |trace| == |old(trace)| ==> names == old(names)
      ensures !shared ==> names == old(names)
    {
      if shared {
        var after: Names := *;
        trace := trace + [Step(names, after, Environment)];
        names := after;
      }
    }

    /** Lstat: what the name denotes now, if anything. An unreliable stat may fail. */
    method Lstat(path: Path) returns (found: bool, node: Node)
      requires Valid()
      modifies this
      ensures Valid() && old(trace) <= trace
      ensures forall i :: |old(trace)| <= i < |trace| ==> trace[i].op in {Environment, Stat(path)}
      ensures !shared ==> names == old(names)
      ensures found ==> exists i :: |old(trace)| <= i < |trace| && Saw(trace[i], path, node)
      ensures !shared && reliable ==> found == (path in names) && (found ==> node == names[path])
    {
      Interfere();
      ghost var step := Step(names, names, Stat(path));
      trace := trace + [step];
      assert trace[|trace| - 1] == step;
      found, node := path in names, if path in names then names[path] else Other;
      var fault: bool := *;
      if !reliable && fault {
        found := false;
      }
    }

    /**
     * LinkObserved: the source is checked, the link is made without replacing anything, the new name is verified,
     * and taken back without another look if it does not name the expected object. Other actors may run in between.
     */
    method LinkObserved(sourceRoot: Path, source: Path, targetRoot: Path, target: Path, expected: ObjectID)
      returns (r: LinkOutcome)
      requires Valid()
      modifies this
      ensures Valid() && old(trace) <= trace
      ensures LinkSteps(trace, |old(trace)|, source, target, expected)
      ensures trace != old(trace) ==> StrictlyWithin(targetRoot, target)
      ensures !shared && reliable ==>
        var ok := StrictlyWithin(sourceRoot, source) && StrictlyWithin(targetRoot, target) &&
          Denotes(old(names), source, expected);
        && names == (if ok && target !in old(names) then old(names)[target := File(expected)] else old(names))
        && (r == Created <==> ok && target !in old(names))
        && (r == Present <==> ok && Denotes(old(names), target, expected))
        && (r == Occupied <==> ok && target in old(names) && !Denotes(old(names), target, expected))
      ensures r == Created || r == Present ==> Denotes(names, target, expected)
      ensures reliable ==> Provoked(trace, |old(trace)|, target, expected)
    {
      if !StrictlyWithin(sourceRoot, source) || !StrictlyWithin(targetRoot, target) {
        return Failed;
      }
      hide Chained;
      hide LinkSteps;
      hide AfterLink;
      hide Provoked;
      hide Rebound;
      var ready := CheckSource(source, expected);
      if !ready {
        return Failed;
      }
      ghost var before := trace;
      if target in names {
        Interfere();
        return if Denotes(names, target, expected) then Present else Occupied;
      }
      var node := names[source];
      Linkat(source, target);
      r := VerifyLink(target, node, expected);
      LinkedAndAfter(old(trace), before, trace, source, target, expected, node);
    }

    /** The source is opened and checked; what it names by the time of the link may be another node already. */
    method CheckSource(source: Path, expected: ObjectID) returns (ready: bool)
      requires Valid()
      modifies this
      ensures Valid() && OnlyOthers(old(trace), trace)
      ensures ready ==> source in names
      ensures ready ==> names[source] == File(expected) || Rebound(trace, |old(trace)|, |trace|, source, expected)
      ensures !shared ==> names == old(names)
      ensures !shared && reliable ==> (ready <==> Denotes(names, source, expected))
    {
      Interfere();
      var fault: bool := *;
      if (!reliable && fault) || !Denotes(names, source, expected) {
        return false;
      }
      Interfere();
      var linkable: bool := *;
      ready := source in names && (names[source].File? || linkable);
    }

    /** The link itself: a second name for whatever the source names now. */
    method Linkat(source: Path, target: Path)
      requires Valid() && source in names && target !in names
      modifies this
      ensures Valid() && trace == old(trace) + [Step(old(names), names, Link(target, old(names)[source]))]
      ensures names == old(names)[target := old(names)[source]]
    {
      ghost var step := Step(names, names[target := names[source]], Link(target, names[source]));
      trace := trace + [step];
      names := names[target := names[source]];
    }

    /** The end of LinkObserved: the new name is verified, and taken back if it does not name the expected object. */
    method VerifyLink(target: Path, node: Node, expected: ObjectID) returns (r: LinkOutcome)
      requires Valid() && trace != [] && trace[|trace| - 1].op == Link(target, node)
      requires target in names && names[target] == node
      modifies this
      ensures Valid() && old(trace) <= trace && AfterLink(trace, |old(trace)| - 1, target, node)
      ensures r == Created || (r == Failed && trace[|trace| - 1].op == Undo(target, node)) || (r == Failed && !reliable)
      ensures r == Created ==> Denotes(names, target, expected)
      ensures !shared && reliable && node == File(expected) ==> r == Created && names == old(names)
      ensures reliable ==> Provoked(trace, |old(trace)| - 1, target, expected)
    {
      ghost var linked := |trace| - 1;
      Interfere();
      var unreadable: bool := *;
      if (reliable || !unreadable) && Denotes(names, target, expected) {
        var unsynced: bool := *;
        return if reliable || !unsynced then Created else Failed;
      }
      ghost var verified := trace;
      if reliable && node == File(expected) {
        assert TakesAway(verified[linked + 1], target, expected);
      }
      Interfere();
      TakeBack(target, node, linked);
      assert reliable && node == File(expected) ==> trace[linked + 1] == verified[linked + 1];
      return Failed;
    }

    /** The undo of LinkObserved: whatever the name denotes now goes, unless it is a directory or already gone. */
    method TakeBack(target: Path, node: Node, ghost linked: nat)
      requires Valid() && linked < |trace| && LinkedAt(trace, linked, |trace|, target, node)
      modifies this
      ensures Valid() && |trace| == |old(trace)| + 1 && old(trace) <= trace &&
        trace[|old(trace)|].op == Undo(target, node)
    {
      var removable: bool := *;
      var after := if target in names && (names[target].File? || removable) then names - {target} else names;
      ghost var step := Step(names, after, Undo(target, node));
      trace := trace + [step];
      names := after;
    }

    /** RemoveObservedLink: verify and unlink as one step. A name that is already gone counts as removed. */
    method RemoveObservedLink(root: Path, path: Path, expected: ObjectID) returns (ok: bool)
      requires Valid()
      modifies this
      ensures Valid() && old(trace) <= trace
      ensures forall i :: |old(trace)| <= i < |trace| ==> trace[i].op in {Environment, Unlink(path, expected)}
      ensures forall i :: |old(trace)| <= i < |trace| && trace[i].op == Unlink(path, expected) ==>
        StrictlyWithin(root, path)
      ensures !shared && reliable ==>
        && names == (if StrictlyWithin(root, path) && Denotes(old(names), path, expected) then old(names) - {path}
             else old(names))
        && (ok <==> StrictlyWithin(root, path) && (path !in old(names) || Denotes(old(names), path, expected)))
    {
      if !StrictlyWithin(root, path) {
        return false;
      }
      Interfere();
      var fault: bool := *;
      if !reliable && fault {
        return false;
      }
      if path !in names {
        return true;
      }
      if names[path] != File(expected) {
        return false;
      }
      ghost var step := Step(names, names - {path}, Unlink(path, expected));
      trace := trace + [step];
      names := names - {path};
      var unsynced: bool := *;
      return reliable || !unsynced;
    }
  }
}
