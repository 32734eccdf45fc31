/** The bounded metainfo cache: byte accounting, capacity, hash lookups, and eviction by (expiry, key). */
module MetadataCache {
  import opened Sets
  import Text
  import opened Options
  import opened TorrentMeta

  const TTL := 6 * 60 * 60
  const MAX_ENTRIES: nat := 2048
  const MAX_BYTES: nat := 0x100_0000

  /** Times are integer instants in seconds. */
  datatype Cached = Cached(value: Metadata, expires: int, size: nat)

  type Entries = map<string, Cached>

  function FilesSize(files: seq<string>): nat {
    if files == [] then 0 else FilesSize(files[..|files| - 1]) + |files[|files| - 1]| + 16
  }

  function SizeOf(key: string, value: Metadata): nat {
    |key| + |value.name| + |value.infoHash| + 128 + FilesSize(value.files)
  }

  function Flat(files: seq<string>): string {
    if files == [] then "" else Flat(files[..|files| - 1]) + files[|files| - 1]
  }

  /** The size of an entry is the length of all its texts, 16 for each file and 128 besides. */
  lemma SizeCountsTexts(key: string, value: Metadata)
    ensures SizeOf(key, value) == |key + value.name + value.infoHash + Flat(value.files)| + 16 * |value.files| + 128
  {
    FilesSizeCounts(value.files);
  }

  lemma {:induction false} FilesSizeCounts(files: seq<string>)
    ensures FilesSize(files) == |Flat(files)| + 16 * |files|
  {
    if files != [] {
      FilesSizeCounts(files[..|files| - 1]);
    }
  }

  ghost function TotalSize(entries: Entries): nat {
    if entries.Keys == {} then 0
    else var k :| k in entries.Keys; entries[k].size + TotalSize(entries - {k})
  }

  lemma {:induction false} TotalSizeRemove(entries: Entries, k: string)
    requires k in entries
    ensures TotalSize(entries) == entries[k].size + TotalSize(entries - {k})
    decreases |entries|
  {
    var j :| j in entries.Keys && TotalSize(entries) == entries[j].size + TotalSize(entries - {j});
    if j != k {
      assert (entries - {j}).Keys == entries.Keys - {j} && (entries - {k}).Keys == entries.Keys - {k};
      TotalSizeRemove(entries - {j}, k);
      TotalSizeRemove(entries - {k}, j);
      assert entries - {j} - {k} == entries - {k} - {j};
    }
  }

  lemma TotalSizeAdd(entries: Entries, k: string, c: Cached)
    requires k !in entries
    ensures TotalSize(entries[k := c]) == TotalSize(entries) + c.size
    ensures |entries[k := c]| == |entries| + 1
  {
    TotalSizeRemove(entries[k := c], k);
    assert entries[k := c] - {k} == entries;
  }

  // ---- which entry is evicted ---------------------------------------------------------------------------

  /** Earlier expiry first, then the lesser key. */
  predicate Sooner(entries: Entries, a: string, b: string)
    requires a in entries && b in entries
  {
    entries[a].expires < entries[b].expires || (entries[a].expires == entries[b].expires && Text.Less(a, b))
  }

  ghost predicate Least(entries: Entries, k: string) {
    k in entries && forall j :: j in entries && j != k ==> Sooner(entries, k, j)
  }

  lemma SoonerTotal(entries: Entries, a: string, b: string)
    requires a in entries && b in entries
    ensures !(Sooner(entries, a, b) && Sooner(entries, b, a))
    ensures a != b ==> Sooner(entries, a, b) || Sooner(entries, b, a)
  {
    Text.Trichotomy(a, b);
  }

  lemma SoonerTransitive(entries: Entries, a: string, b: string, c: string)
    requires a in entries && b in entries && c in entries && Sooner(entries, a, b) && Sooner(entries, b, c)
    ensures Sooner(entries, a, c)
  {
    if Text.Less(a, b) && Text.Less(b, c) {
      Text.Transitive(a, b, c);
    }
  }

  /** One step of the search: the empty key doubles as "none found yet". */
  function Pick(entries: Entries, oldest: string, k: string): string
    requires k in entries && (oldest != "" ==> oldest in entries)
  {
    if oldest == "" || Sooner(entries, k, oldest) then k else oldest
  }

  /** The entry the search ends with when it visits the keys in this order. */
  function Search(entries: Entries, order: seq<string>): (r: string)
    requires forall k :: k in order ==> k in entries
    ensures order != [] ==> r in order
    ensures r != "" ==> r in order
  {
    if order == [] then ""
    else
      var n := |order| - 1;
      assert order == order[..n] + [order[n]];
      assert forall k :: k in order[..n] ==> k in order;
      Pick(entries, Search(entries, order[..n]), order[n])
  }

  /** Among non-empty keys the search finds the least one. */
  lemma {:induction false} SearchFindsLeast(entries: Entries, order: seq<string>, k: string)
    requires forall j :: j in order ==> j in entries
    requires forall i, j :: 0 <= i < j < |order| ==> order[i] != order[j]
    requires k in order && k != "" && forall j :: j in order && j != k ==> Sooner(entries, k, j)
    ensures Search(entries, order) == k
  {
    var n := |order| - 1;
    var rest := order[..n];
    assert order == rest + [order[n]];
    SoonerTotal(entries, k, k);
    if order[n] == k {
      var r := Search(entries, rest);
      assert r != "" ==> r in rest;
      if r != "" {
        assert k !in rest;
      }
    } else {
      assert k in rest;
      SearchFindsLeast(entries, rest, k);
      SoonerTotal(entries, k, order[n]);
    }
  }

  /** Every non-empty cache has a least entry. */
  lemma {:induction false} LeastExists(entries: Entries, keys: set<string>) returns (k: string)
    requires keys <= entries.Keys && keys != {}
    ensures k in keys && forall j :: j in keys && j != k ==> Sooner(entries, k, j)
  {
    var i :| i in keys;
    k := i;
    var rest := keys - {i};
    if rest != {} {
      var j := LeastExists(entries, rest);
      SoonerTotal(entries, i, j);
      if Sooner(entries, j, i) {
        k := j;
      } else {
        forall x | x in keys && x != i ensures Sooner(entries, i, x) {
          if x != j {
            SoonerTransitive(entries, i, j, x);
          }
        }
      }
    }
  }

  lemma {:induction false} Enumeration(keys: set<string>) returns (order: seq<string>)
    ensures Enumerates(order, keys)
  {
    if keys == {} {
      order := [];
    } else {
      var k :| k in keys;
      var rest := Enumeration(keys - {k});
      order := [k] + rest;
      EnumerationWith(keys - {k}, k, rest);
      assert keys - {k} + {k} == keys;
    }
  }

  lemma EnumerationWith(keys: set<string>, k: string, rest: seq<string>)
    requires Enumerates(rest, keys) && k !in keys
    ensures Enumerates([k] + rest, keys + {k})
  {
  }

  lemma LastIsNotEmpty(entries: Entries, order: seq<string>)
    requires Enumerates(order, entries.Keys) && |order| >= 2 && order[0] == ""
    ensures Search(entries, order) != ""
  {
  }

  /** An order that starts with the empty key never ends on it. */
  lemma EmptyKeyIsPassedOver(entries: Entries) returns (order: seq<string>)
    requires "" in entries && |entries| >= 2
    ensures Enumerates(order, entries.Keys) && Search(entries, order) != ""
  {
    var others := entries.Keys - {""};
    assert entries.Keys == others + {""};
    assert |others| >= 1;
    var rest := Enumeration(others);
    order := [""] + rest;
    EnumerationWith(others, "", rest);
    var some := Member(others);
    assert some in rest;
    LastIsNotEmpty(entries, order);
  }

  /**
   * The search finds the least (expiry, key) in every map order if and only if the least entry is not an empty key
   * with company: the empty key is the search's own mark for "none yet" and would be passed over. The cache never
   * holds it, see `ValidCache`, so this is what the loop relies on.
   */
  lemma EvictionIsLeastIff(entries: Entries)
    requires entries.Keys != {}
    ensures (forall order :: Enumerates(order, entries.Keys) ==> Least(entries, Search(entries, order)))
            <==> !("" in entries && |entries| >= 2 && Least(entries, ""))
  {
    var k := LeastExists(entries, entries.Keys);
    if k != "" {
      forall order | Enumerates(order, entries.Keys) ensures Least(entries, Search(entries, order)) {
        SearchFindsLeast(entries, order, k);
      }
      if "" in entries {
        SoonerTotal(entries, k, "");
      }
    } else if |entries| >= 2 {
      var order := EmptyKeyIsPassedOver(entries);
      var other := Search(entries, order);
      assert order != [] by {
        assert "" in order;
      }
      SoonerTotal(entries, "", other);
      assert !Least(entries, other);
    } else {
      OnlyKey(entries);
    }
  }

  lemma OnlyKey(entries: Entries)
    requires "" in entries && |entries| == 1
    ensures forall order :: Enumerates(order, entries.Keys) ==> Least(entries, Search(entries, order))
  {
    assert entries.Keys - {""} == {} by {
      assert |entries.Keys - {""}| == 0;
    }
    forall k | k in entries ensures k == "" {
      assert k !in entries.Keys - {""};
    }
    forall order | Enumerates(order, entries.Keys) ensures Least(entries, Search(entries, order)) {
      assert "" in order;
    }
  }

  // ---- the cache ------------------------------------------------------------------------------------------

  /** No URL is empty: a fetch of the empty URL fails before anything is stored. */
  ghost predicate ValidCache(entries: Entries, byHash: map<string, string>, bytes: int) {
    && "" !in entries
    && bytes == TotalSize(entries) && bytes <= MAX_BYTES && |entries| <= MAX_ENTRIES
    && (forall k :: k in entries ==> entries[k].size == SizeOf(k, entries[k].value))
    && (forall h :: h in byHash ==> h != "" && byHash[h] in entries && entries[byHash[h]].value.infoHash == h)
  }

  /** Why an eviction was needed: without it the new entry would have exceeded a bound. */
  ghost predicate Needed(entries: Entries, size: nat) {
    |entries| >= MAX_ENTRIES || TotalSize(entries) + size > MAX_BYTES
  }

  /** What is left of the hash index when a key is forgotten. */
  function HashWithout(entries: Entries, byHash: map<string, string>, key: string): map<string, string> {
    if key !in entries then byHash
    else
      var h := entries[key].value.infoHash;
      if h != "" && h in byHash && byHash[h] == key then byHash - {h} else byHash
  }

  lemma RemoveKeepsValid(entries: Entries, byHash: map<string, string>, bytes: int, key: string)
    requires ValidCache(entries, byHash, bytes) && key in entries
    ensures ValidCache(entries - {key}, HashWithout(entries, byHash, key), bytes - entries[key].size)
  {
    TotalSizeRemove(entries, key);
    assert (entries - {key}).Keys == entries.Keys - {key};
    assert |entries - {key}| == |entries| - 1;
  }

  lemma PutKeepsValid(entries: Entries, byHash: map<string, string>, bytes: int, key: string, c: Cached)
    requires ValidCache(entries, byHash, bytes) && key != "" && key !in entries && c.size == SizeOf(key, c.value) &&
      !Needed(entries, c.size)
    ensures ValidCache(entries[key := c], if c.value.infoHash != "" then byHash[c.value.infoHash := key]
      else byHash, bytes + c.size)
  {
    TotalSizeAdd(entries, key, c);
    var hashes := if c.value.infoHash != "" then byHash[c.value.infoHash := key] else byHash;
    forall h | h in hashes
      ensures h != "" && hashes[h] in entries[key := c] && entries[key := c][hashes[h]].value.infoHash == h {
      if h in byHash && hashes[h] == byHash[h] {
        assert byHash[h] in entries;
      }
    }
  }

  /** `b` keeps some entries of `a` unchanged. */
  ghost predicate Survivors(a: Entries, b: Entries) {
    forall k :: k in b ==> k in a && b[k] == a[k]
  }

  /** What is gone expires sooner (or as soon, with a lesser key) than everything that survives. */
  ghost predicate SoonerGone(a: Entries, b: Entries) {
    forall e, k :: e in a && e !in b && k in a && k in b ==>
      a[e].expires < a[k].expires || (a[e].expires == a[k].expires && Text.Less(e, k))
  }

  /** Something gone could not have stayed. */
  ghost predicate NeedlesslyNone(a: Entries, b: Entries, size: nat) {
    b == a || exists e :: e in a && e !in b && Needed(b[e := a[e]], size)
  }

  lemma EvictSooner(a: Entries, cur: Entries, oldest: string)
    requires Survivors(a, cur) && SoonerGone(a, cur) && Least(cur, oldest)
    ensures SoonerGone(a, cur - {oldest})
  {
    forall k | k in a && k in cur - {oldest}
      ensures a[oldest].expires < a[k].expires || (a[oldest].expires == a[k].expires && Text.Less(oldest, k)) {
      assert Sooner(cur, oldest, k);
    }
  }

  lemma EvictStep(a: Entries, cur: Entries, oldest: string, size: nat)
    requires Survivors(a, cur) && oldest in cur && Needed(cur, size)
    requires SoonerGone(a, cur) && Least(cur, oldest)
    ensures var next := cur - {oldest};
            && Survivors(a, next) && NeedlesslyNone(a, next, size) && SoonerGone(a, next)
            && |next| < |cur|
  {
    EvictSooner(a, cur, oldest);
    hide SoonerGone;
    hide Least;
    var next := cur - {oldest};
    assert next[oldest := a[oldest]] == cur;
    assert next.Keys == cur.Keys - {oldest};
  }

  /** Apart from `own`, exactly the hashes that lead to a surviving key are still known, and lead there. */
  ghost predicate HashesKept(was: map<string, string>, now: map<string, string>, entries: Entries, own: string) {
    forall h :: h != own ==>
      (h in now <==> h in was && was[h] in entries) && (h in now ==> now[h] == was[h])
  }

  lemma RemoveKeepsHashes(entries: Entries, byHash: map<string, string>, bytes: int, key: string)
    requires ValidCache(entries, byHash, bytes)
    ensures HashesKept(byHash, HashWithout(entries, byHash, key), entries - {key}, "")
  {
  }

  lemma HashesKeptTwice(a: map<string, string>, b: map<string, string>, c: map<string, string>, entries: Entries,
                        next: Entries)
    requires HashesKept(a, b, entries, "") && HashesKept(b, c, next, "") && next.Keys <= entries.Keys
    requires "" !in a && "" !in b && "" !in c
    ensures HashesKept(a, c, next, "")
  {
  }

  lemma HashStored(was: map<string, string>, now: map<string, string>, entries: Entries, key: string, hash: string)
    requires HashesKept(was, now, entries, "") && "" !in was && "" !in now
    ensures HashesKept(was, if hash != "" then now[hash := key] else now, entries, hash)
  {
  }

  lemma NoEmptyHash(entries: Entries, byHash: map<string, string>, bytes: int)
    requires ValidCache(entries, byHash, bytes)
    ensures "" !in byHash && HashesKept(byHash, byHash, entries, "")
  {
  }

  class Cache {
    var entries: Entries
    var byHash: map<string, string>
    var bytes: int

    constructor ()
      ensures Valid() && entries == map[]
    {
      entries, byHash, bytes := map[], map[], 0;
    }

    ghost predicate Valid()
      reads this
    {
      ValidCache(entries, byHash, bytes)
    }

    /** Forgets one key, and its hash if the hash led to it. */
    method Remove(key: string)
      requires Valid()
      modifies this
      ensures Valid() && entries == old(entries) - {key} && byHash == HashWithout(old(entries), old(byHash), key)
      ensures HashesKept(old(byHash), byHash, entries, "")
    {
      hide ValidCache;
      RemoveKeepsHashes(entries, byHash, bytes, key);
      if key !in entries {
        assert entries - {key} == entries;
        return;
      }
      RemoveKeepsValid(entries, byHash, bytes, key);
      var entry := entries[key];
      bytes := bytes - entry.size;
      entries := entries - {key};
      if entry.value.infoHash != "" && entry.value.infoHash in byHash && byHash[entry.value.infoHash] == key {
        byHash := byHash - {entry.value.infoHash};
      }
    }

    /** An unexpired entry; an expired one is forgotten. */
    method Lookup(key: string, now: int) returns (r: Option<Metadata>)
      requires Valid()
      modifies this
      ensures Valid()
      ensures r.Some? <==> key in old(entries) && now < old(entries)[key].expires
      ensures r.Some? ==> r.value == old(entries)[key].value && entries == old(entries) && byHash == old(byHash)
      ensures r == None ==> entries == old(entries) - {key} && byHash == HashWithout(old(entries), old(byHash), key)
    {
      if key !in entries {
        assert entries - {key} == entries;
        return None;
      }
      if !(now < entries[key].expires) {
        Remove(key);
        return None;
      }
      return Some(entries[key].value);
    }

    /**
     * A hash lookup finds the metainfo exactly if the hash is known and its entry has not expired, and only ever
     * returns metainfo with that hash.
     */
    method CachedByHash(infoHash: string, now: int) returns (r: Option<Metadata>)
      requires Valid()
      modifies this
      ensures Valid()
      ensures r.Some? <==>
        infoHash in old(byHash) && old(byHash)[infoHash] in old(entries) &&
        now < old(entries)[old(byHash)[infoHash]].expires
      ensures r.Some? ==> r.value.infoHash == infoHash && r.value == old(entries)[old(byHash)[infoHash]].value
      ensures r.Some? ==> entries == old(entries) && byHash == old(byHash)
      ensures r.Some? ==> exists k :: k in entries && entries[k].value == r.value && now < entries[k].expires
      ensures Survivors(old(entries), entries)
    {
      if infoHash == "" || infoHash !in byHash {
        return None;
      }
      var key := byHash[infoHash];
      r := Lookup(key, now);
      if r == None {
        byHash := byHash - {infoHash};
      } else {
        assert key in entries && entries[key].value == r.value;
      }
    }

    /** The search for the entry to evict: the least one, though the map is visited in arbitrary order. */
    method Oldest() returns (oldest: string)
      requires Valid() && entries.Keys != {}
      ensures Least(entries, oldest)
    {
      oldest := "";
      ghost var order: seq<string> := [];
      var left := entries.Keys;
      while left != {}
        invariant left <= entries.Keys
        invariant Enumerates(order, entries.Keys - left)
        invariant oldest == Search(entries, order)
        decreases left
      {
        var k :| k in left;
        left := left - {k};
        oldest := Pick(entries, oldest, k);
        assert (order + [k])[..|order|] == order;
        forall x ensures x in order + [k] <==> x in entries.Keys - left {
          assert x in order + [k] <==> x in order || x == k;
        }
        order := order + [k];
      }
      assert entries.Keys - left == entries.Keys;
      assert order != [] by {
        var k :| k in entries.Keys;
        assert k in order;
      }
      EvictionIsLeastIff(entries);
    }

    /** Makes room for an entry of this size, least entry first. */
    method Evict(size: nat)
      requires Valid() && size <= MAX_BYTES
      modifies this
      ensures Valid() && !Needed(entries, size)
      ensures Survivors(old(entries), entries) && NeedlesslyNone(old(entries), entries, size)
      ensures SoonerGone(old(entries), entries) && HashesKept(old(byHash), byHash, entries, "")
    {
      hide HashesKept;
      NoEmptyHash(entries, byHash, bytes);
      while |entries| >= MAX_ENTRIES || bytes + size > MAX_BYTES
        invariant Valid()
        invariant Survivors(old(entries), entries) && NeedlesslyNone(old(entries), entries, size)
        invariant SoonerGone(old(entries), entries) && HashesKept(old(byHash), byHash, entries, "")
        decreases |entries|
      {
        assert entries.Keys != {};
        var oldest := Oldest();
        EvictStep(old(entries), entries, oldest, size);
        ghost var was, known := entries, byHash;
        NoEmptyHash(entries, byHash, bytes);
        Remove(oldest);
        NoEmptyHash(entries, byHash, bytes);
        HashesKeptTwice(old(byHash), known, byHash, was, entries);
      }
    }

    /** Forgets the key's own entry, then evicts what has to go. */
    method MakeRoom(key: string, size: nat)
      requires Valid() && size <= MAX_BYTES
      modifies this
      ensures Valid() && !Needed(entries, size) && key !in entries
      ensures Survivors(old(entries) - {key}, entries) && NeedlesslyNone(old(entries) - {key}, entries, size)
      ensures SoonerGone(old(entries) - {key}, entries)
      ensures HashesKept(old(byHash), byHash, entries, "") && "" !in old(byHash) && "" !in byHash
    {
      hide ValidCache;
      hide SoonerGone;
      hide HashesKept;
      NoEmptyHash(entries, byHash, bytes);
      Remove(key);
      ghost var was, known := entries, byHash;
      NoEmptyHash(entries, byHash, bytes);
      Evict(size);
      NoEmptyHash(entries, byHash, bytes);
      HashesKeptTwice(old(byHash), known, byHash, was, entries);
    }

    /**
     * Stores metainfo unless it alone exceeds the byte bound. Room is made by evicting, besides the key's own old
     * entry, no more than is needed, sooner expiries first.
     */
    method Put(key: string, value: Metadata, now: int)
      requires Valid() && key != ""
      modifies this
      ensures Valid()
      ensures SizeOf(key, value) > MAX_BYTES ==> entries == old(entries) && byHash == old(byHash) && bytes == old(bytes)
      ensures SizeOf(key, value) <= MAX_BYTES ==>
        && key in entries && entries[key] == Cached(value, now + TTL, SizeOf(key, value))
        && (value.infoHash != "" ==> value.infoHash in byHash && byHash[value.infoHash] == key)
        && var others := old(entries) - {key};
        && Survivors(others, entries - {key}) && NeedlesslyNone(others, entries - {key}, SizeOf(key, value))
        && SoonerGone(others, entries - {key})
      ensures SizeOf(key, value) <= MAX_BYTES ==> HashesKept(old(byHash), byHash, entries - {key}, value.infoHash)
    {
      hide ValidCache;
      hide Survivors;
      hide SoonerGone;
      hide HashesKept;
      hide NeedlesslyNone;
      hide SizeOf;
      var size := SizeOf(key, value);
      if size > MAX_BYTES {
        return;
      }
      MakeRoom(key, size);
      var c := Cached(value, now + TTL, size);
      PutKeepsValid(entries, byHash, bytes, key, c);
      assert entries[key := c] - {key} == entries;
      HashStored(old(byHash), byHash, entries, key, value.infoHash);
      entries := entries[key := c];
      if value.infoHash != "" {
        byHash := byHash[value.infoHash := key];
      }
      bytes := bytes + size;
    }
  }
}
