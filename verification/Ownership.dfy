/** Which Entries own a downloader task's objects: the observed relation, and the inverse index kept beside it. */
module Ownership {
  import opened Options
  import opened Namespace
  import opened Snapshots
  import opened SortedKeys
  import opened Sets

  datatype Entry = Entry(key: string, declarationPath: Option<Path>)

  /** The current source namespace of every Entry. */
  type Sources = map<string, Snapshot>

  // ---- ownership as a relation ------------------------------------------------------------------------

  /** The Entries whose source namespace contains every object of the task; an empty task has none. */
  ghost function OwnersOf(sources: Sources, task: set<ObjectID>): set<string> {
    if task == {} then {} else set k | k in sources && task <= sources[k].objects.Keys
  }

  ghost function UncertainIn(sources: Sources): set<string> {
    set k | k in sources && sources[k].issues != []
  }

  /** The graph's own definition, narrowing a candidate set object by object. */
  method SourceOwners(sources: Sources, task: set<ObjectID>) returns (out: seq<string>)
    ensures Sorted(out) && KeysOf(out) == OwnersOf(sources, task)
    ensures forall k :: k in KeysOf(out) <==> task != {} && k in sources && forall id :: id in task ==>
      id in sources[k].objects
  {
    var candidates: Option<set<string>> := None;
    var left := task;
    while left != {}
      invariant left <= task
      invariant candidates == None <==> left == task
      invariant candidates.Some? ==> forall k :: k in candidates.value <==>
        k in sources && task - left <= sources[k].objects.Keys
      decreases left
    {
      var id :| id in left;
      var next := set k | k in sources && id in sources[k].objects && (candidates == None || k in candidates.value);
      assert task - (left - {id}) == (task - left) + {id};
      left := left - {id};
      candidates := Some(next);
      assert OwnersOf(sources, task) <= next;
      if next == {} {
        return [];
      }
    }
    assert task - left == task;
    out := SortKeys(if candidates == None then {} else candidates.value);
  }

  // ---- the inverse index ----------------------------------------------------------------------------------

  predicate Owns(owners: map<ObjectID, seq<string>>, id: ObjectID, k: string) {
    id in owners && k in owners[id]
  }

  /** The owner lists are exactly the objects of the namespaces: no owner missing, repeated or left over. */
  ghost predicate Exact(owners: map<ObjectID, seq<string>>, sources: Sources) {
    && (forall id, k :: Owns(owners, id, k) <==> k in sources && id in sources[k].objects)
    && (forall id :: id in owners ==> owners[id] != [] && NoRepeats(owners[id]))
  }

  function Without(s: seq<string>, k: string): seq<string> {
    if s == [] then [] else Without(s[..|s| - 1], k) + if s[|s| - 1] == k then [] else [s[|s| - 1]]
  }

  lemma {:induction false} WithoutMeaning(s: seq<string>, k: string)
    ensures forall x :: x in Without(s, k) <==> x in s && x != k
    ensures NoRepeats(s) ==> NoRepeats(Without(s, k))
  {
    if s != [] {
      var n := |s| - 1;
      WithoutMeaning(s[..n], k);
      assert s == s[..n] + [s[n]];
      if NoRepeats(s) {
        assert s[n] !in s[..n];
      }
    }
  }

  lemma UncertainAfter(sources: Sources, key: string, snapshot: Snapshot)
    ensures UncertainIn(sources[key := snapshot]) == UncertainIn(sources) - {key} + if snapshot.issues == [] then {}
      else {key}
  {
  }

  lemma EmptyOwnsNothing(owners: map<ObjectID, seq<string>>, sources: Sources, key: string)
    requires Exact(owners, sources - {key})
    ensures Exact(owners, sources[key := EMPTY])
  {
    var rest, now := sources - {key}, sources[key := EMPTY];
    forall id, k ensures Owns(owners, id, k) <==> k in now && id in now[k].objects {
      assert Owns(owners, id, k) <==> k in rest && id in rest[k].objects;
    }
  }

  class SourceIndex {
    var entries: map<string, Entry>
    var owners: map<ObjectID, seq<string>>
    var uncertain: set<string>

    constructor ()
      ensures entries == map[] && owners == map[] && uncertain == {}
    {
      entries, owners, uncertain := map[], map[], {};
    }

    /** The index agrees with these namespaces, one for every indexed Entry. */
    ghost predicate Reflects(sources: Sources)
      reads this
    {
      && Exact(owners, sources) && uncertain == UncertainIn(sources)
      && entries.Keys == sources.Keys && forall k :: k in entries ==> entries[k].key == k
    }

    /** Files every object of one namespace under its Entry. */
    method AddOwner(key: string, snapshot: Snapshot, ghost sources: Sources)
      requires Exact(owners, sources) && key !in sources
      modifies this`owners
      ensures Exact(owners, sources[key := snapshot])
    {
      var before := owners;
      var left := snapshot.objects.Keys;
      while left != {}
        invariant left <= snapshot.objects.Keys
        invariant forall id, k :: Owns(owners, id, k) <==>
          Owns(before, id, k) || (k == key && id in snapshot.objects && id !in left)
        invariant forall id :: id in owners ==> owners[id] != [] && NoRepeats(owners[id])
        decreases left
      {
        var id :| id in left;
        left := left - {id};
        var was := if id in owners then owners[id] else [];
        ghost var prior := owners;
        assert key !in was by {
          assert Owns(prior, id, key) <==> id in prior && key in was;
        }
        owners := owners[id := was + [key]];
        forall x, k ensures Owns(owners, x, k) <==> Owns(prior, x, k) || (x == id && k == key) {
          assert x == id ==> (k in was + [key] <==> k in was || k == key);
        }
      }
    }

    /** Takes one Entry out of every owner list, dropping lists that become empty. */
    method DropOwner(key: string, ghost sources: Sources)
      requires Exact(owners, sources)
      modifies this`owners
      ensures Exact(owners, sources - {key})
    {
      var before := owners;
      var left := before.Keys;
      while left != {}
        invariant left <= before.Keys && owners.Keys <= before.Keys
        invariant forall id :: id in left ==> id in owners && owners[id] == before[id]
        invariant forall id :: id in owners ==> owners[id] != [] && NoRepeats(owners[id])
        invariant forall id, k :: id !in left ==> (Owns(owners, id, k) <==> Owns(before, id, k) && k != key)
        decreases left
      {
        var id :| id in left;
        left := left - {id};
        var next := Without(owners[id], key);
        WithoutMeaning(owners[id], key);
        ghost var prior := owners;
        if next == [] {
          owners := owners - {id};
        } else {
          owners := owners[id := next];
        }
        forall k ensures Owns(owners, id, k) <==> Owns(before, id, k) && k != key {
          assert k in next <==> k in before[id] && k != key;
        }
        forall x, k | x != id && x !in left ensures Owns(owners, x, k) <==> Owns(prior, x, k) {}
      }
    }

    /** Indexes one Entry's namespace as the graph observed it. */
    method IndexEntry(w: Entry, snapshot: Snapshot, ghost sources: Sources)
      requires Reflects(sources) && w.key !in sources
      modifies this
      ensures Reflects(sources[w.key := snapshot]) && entries == old(entries)[w.key := w]
    {
      entries := entries[w.key := w];
      if snapshot.issues != [] {
        uncertain := uncertain + {w.key};
      }
      AddOwner(w.key, snapshot, sources);
    }

    /**
     * Replaces one Entry's facts by a new observation of its source tree; without a declared path the Entry has
     * no source tree.
     */
    method RefreshEntry(w: Entry, observed: Snapshot, ghost sources: Sources)
      requires Reflects(sources)
      modifies this
      ensures Reflects(sources[w.key := if w.declarationPath == None then EMPTY else observed])
      ensures entries == old(entries)[w.key := w]
    {
      hide Exact;
      hide UncertainIn;
      UncertainAfter(sources, w.key, if w.declarationPath == None then EMPTY else observed);
      DropOwner(w.key, sources);
      uncertain := uncertain - {w.key};
      entries := entries[w.key := w];
      ghost var rest := sources - {w.key};
      if w.declarationPath == None {
        EmptyOwnsNothing(owners, sources, w.key);
        return;
      }
      if observed.issues != [] {
        uncertain := uncertain + {w.key};
      }
      AddOwner(w.key, observed, rest);
      assert rest[w.key := observed] == sources[w.key := observed];
    }

    /**
     * The Entries that own every object of the task, or the report that this cannot be known: some uncertain
     * Entry lies outside them. Map and set iteration order is arbitrary.
     */
    method PhysicalOwners(task: set<ObjectID>, ghost sources: Sources) returns (out: seq<Entry>, unknown: bool)
      requires Reflects(sources)
      ensures unknown <==> !(UncertainIn(sources) <= OwnersOf(sources, task))
      ensures unknown ==> out == []
      ensures var keys := seq(|out|, i requires 0 <= i < |out| => out[i].key);
              !unknown ==> Sorted(keys) && KeysOf(keys) == OwnersOf(sources, task)
      ensures forall w :: w in out ==> w.key in entries && entries[w.key] == w
    {
      var candidates: Option<set<string>> := None;
      var left := task;
      while left != {}
        invariant left <= task
        invariant candidates == None <==> left == task
        invariant candidates.Some? ==> forall k :: k in candidates.value <==>
          k in sources && task - left <= sources[k].objects.Keys
        decreases left
      {
        var id :| id in left;
        var list := if id in owners then owners[id] else [];
        var next := set k | k in list && (candidates == None || k in candidates.value);
        forall k ensures k in list <==> k in sources && id in sources[k].objects {
          assert Owns(owners, id, k) <==> k in list;
        }
        assert task - (left - {id}) == (task - left) + {id};
        left := left - {id};
        candidates := Some(next);
        assert OwnersOf(sources, task) <= next;
        if next == {} {
          return [], uncertain != {};
        }
      }
      assert task - left == task;
      var chosen := if candidates == None then {} else candidates.value;
      assert chosen == OwnersOf(sources, task);
      if !(uncertain <= chosen) {
        return [], true;
      }
      var ids := SortKeys(chosen);
      forall i | 0 <= i < |ids| ensures ids[i] in entries {
        assert ids[i] in KeysOf(ids);
      }
      var known := entries;
      out := seq(|ids|, i requires 0 <= i < |ids| && ids[i] in known => known[ids[i]]);
      unknown := false;
      forall i | 0 <= i < |out|
        ensures out[i].key in entries && entries[out[i].key] == out[i] && out[i].key == ids[i] {}
      assert seq(|out|, i requires 0 <= i < |out| => out[i].key) == ids;
    }
  }

  // ---- a whole index, and its history -------------------------------------------------------------------

  /** A graph without a namespace for the Entry gives it an empty one. */
  function NamespaceOf(graph: Sources, key: string): Snapshot {
    if key in graph then graph[key] else EMPTY
  }

  function EntryKeys(ws: seq<Entry>): seq<string> {
    seq(|ws|, i requires 0 <= i < |ws| => ws[i].key)
  }

  /** The namespaces a graph has for these Entries. */
  function NamespacesOf(graph: Sources, ws: seq<Entry>): Sources {
    map k | k in EntryKeys(ws) :: NamespaceOf(graph, k)
  }

  lemma NamespacesSnoc(graph: Sources, ws: seq<Entry>, w: Entry)
    ensures NamespacesOf(graph, ws + [w]) == NamespacesOf(graph, ws)[w.key := NamespaceOf(graph, w.key)]
  {
    assert EntryKeys(ws + [w]) == EntryKeys(ws) + [w.key];
  }

  /** Builds the index from the observed graph. Entries are given in sorted order. */
  method BuildSourceIndexFromGraph(graph: Sources, ws: seq<Entry>) returns (index: SourceIndex)
    requires NoRepeats(EntryKeys(ws))
    ensures fresh(index) && index.Reflects(NamespacesOf(graph, ws))
    ensures forall w :: w in ws ==> w.key in index.entries && index.entries[w.key] == w
  {
    hide Exact;
    index := new SourceIndex();
    NothingOwned();
    for i := 0 to |ws|
      invariant fresh(index) && index.Reflects(NamespacesOf(graph, ws[..i]))
      invariant forall j :: 0 <= j < i ==> ws[j].key in index.entries && index.entries[ws[j].key] == ws[j]
    {
      assert ws[..i + 1] == ws[..i] + [ws[i]];
      NamespacesSnoc(graph, ws[..i], ws[i]);
      forall j | 0 <= j < i ensures ws[j].key != ws[i].key {
        assert EntryKeys(ws)[j] != EntryKeys(ws)[i];
      }
      index.IndexEntry(ws[i], NamespaceOf(graph, ws[i].key), NamespacesOf(graph, ws[..i]));
    }
    assert ws[..|ws|] == ws;
  }

  lemma NothingOwned()
    ensures Exact(map[], map[])
  {
  }

  /** A refresh of one Entry with what its source tree was observed to hold. */
  datatype Refresh = Refresh(entry: Entry, observed: Snapshot)

  /** The namespaces after these refreshes, in order. */
  function Refreshed(sources: Sources, refreshes: seq<Refresh>): Sources {
    if refreshes == [] then sources
    else
      var last := refreshes[|refreshes| - 1];
      Refreshed(sources, refreshes[..|refreshes| - 1])[last.entry.key :=
        if last.entry.declarationPath == None then EMPTY else last.observed]
  }

  method RefreshAll(index: SourceIndex, refreshes: seq<Refresh>, ghost sources: Sources)
    requires index.Reflects(sources)
    modifies index
    ensures index.Reflects(Refreshed(sources, refreshes))
  {
    hide Exact;
    for i := 0 to |refreshes|
      invariant index.Reflects(Refreshed(sources, refreshes[..i]))
    {
      assert refreshes[..i + 1][..i] == refreshes[..i];
      index.RefreshEntry(refreshes[i].entry, refreshes[i].observed, Refreshed(sources, refreshes[..i]));
    }
    assert refreshes[..|refreshes|] == refreshes;
  }

  lemma AllNamespaces(graph: Sources, ws: seq<Entry>)
    requires KeysOf(EntryKeys(ws)) == graph.Keys
    ensures NamespacesOf(graph, ws) == graph
  {
    assert forall k :: k in EntryKeys(ws) <==> k in KeysOf(EntryKeys(ws));
  }

  /**
   * An index built from a graph and then refreshed any number of times has the owners, object by object, and the
   * uncertain Entries of an index built from the current namespaces.
   */
  method RefreshesMatchRebuild(graph: Sources, ws: seq<Entry>, refreshes: seq<Refresh>, current: seq<Entry>)
    returns (refreshed: SourceIndex, rebuilt: SourceIndex)
    requires NoRepeats(EntryKeys(ws)) && NoRepeats(EntryKeys(current))
    requires KeysOf(EntryKeys(current)) == Refreshed(NamespacesOf(graph, ws), refreshes).Keys
    ensures refreshed.uncertain == rebuilt.uncertain && refreshed.owners.Keys == rebuilt.owners.Keys
    ensures forall id :: id in refreshed.owners ==>
      KeysOf(refreshed.owners[id]) == KeysOf(rebuilt.owners[id]) && |refreshed.owners[id]| == |rebuilt.owners[id]|
  {
    hide Exact;
    hide UncertainIn;
    hide Refreshed;
    hide NamespacesOf;
    hide KeysOf;
    hide EntryKeys;
    hide NoRepeats;
    var now := Refreshed(NamespacesOf(graph, ws), refreshes);
    refreshed := BuildSourceIndexFromGraph(graph, ws);
    RefreshAll(refreshed, refreshes, NamespacesOf(graph, ws));
    rebuilt := BuildSourceIndexFromGraph(now, current);
    AllNamespaces(now, current);
    ExactIsUnique(refreshed.owners, rebuilt.owners, now);
  }

  // ---- what the index is worth ----------------------------------------------------------------------------

  /** Indexes of the same namespaces have the same owners, whatever refreshes they went through. */
  lemma ExactIsUnique(a: map<ObjectID, seq<string>>, b: map<ObjectID, seq<string>>, sources: Sources)
    requires Exact(a, sources) && Exact(b, sources)
    ensures a.Keys == b.Keys && forall id :: id in a ==> KeysOf(a[id]) == KeysOf(b[id]) && |a[id]| == |b[id]|
  {
    forall id ensures id in a <==> id in b {
      if id in a { assert Owns(a, id, a[id][0]); }
      if id in b { assert Owns(b, id, b[id][0]); }
    }
    forall id | id in a ensures KeysOf(a[id]) == KeysOf(b[id]) && |a[id]| == |b[id]| {
      forall k ensures k in a[id] <==> k in b[id] {
        assert Owns(a, id, k) <==> Owns(b, id, k);
      }
      ListSize(a[id]);
      ListSize(b[id]);
    }
  }

  lemma {:induction false} ListSize(s: seq<string>)
    requires NoRepeats(s)
    ensures |KeysOf(s)| == |s|
  {
    if s == [] {
      assert KeysOf(s) == {};
    } else {
      var n := |s| - 1;
      ListSize(s[..n]);
      assert s == s[..n] + [s[n]];
      assert KeysOf(s) == KeysOf(s[..n]) + {s[n]};
      assert s[n] !in s[..n];
    }
  }

  /** What the disk really holds: an observed namespace is complete unless it has an issue. */
  ghost predicate Observes(sources: Sources, truth: Sources) {
    && sources.Keys == truth.Keys
    && forall k :: k in sources ==>
         && sources[k].objects.Keys <= truth[k].objects.Keys
         && (sources[k].issues == [] ==> sources[k].objects.Keys == truth[k].objects.Keys)
  }

  /** Whenever owners are reported, they are the true owners, despite everything that could not be observed. */
  lemma ReportedOwnersAreTrue(sources: Sources, truth: Sources, task: set<ObjectID>)
    requires Observes(sources, truth) && UncertainIn(sources) <= OwnersOf(sources, task)
    ensures OwnersOf(truth, task) == OwnersOf(sources, task)
  {
  }

  /** And the report is withheld only when needed: an unobserved subtree could have changed the answer. */
  lemma WithheldOwnersCouldDiffer(sources: Sources, task: set<ObjectID>) returns (truth: Sources)
    requires task != {} && !(UncertainIn(sources) <= OwnersOf(sources, task))
    ensures Observes(sources, truth) && OwnersOf(truth, task) != OwnersOf(sources, task)
  {
    var k :| k in UncertainIn(sources) && k !in OwnersOf(sources, task);
    var hidden := map id | id in task :: Object(Metadata(id, 0, 1), [[]]);
    truth := sources[k := sources[k].(objects := sources[k].objects + hidden)];
    assert truth[k].objects.Keys == sources[k].objects.Keys + task;
    assert k in OwnersOf(truth, task);
  }
}
