/** Strictly ascending lists of keys, as sorting a set or a duplicate-free list of strings yields them. */
module SortedKeys {
  import Text
  import opened Sets

  ghost predicate Sorted(s: seq<string>) {
    forall a, b :: 0 <= a < b < |s| ==> Text.Less(s[a], s[b])
  }

  ghost function KeysOf(s: seq<string>): set<string> {
    set k | k in s
  }

  function Insert(s: seq<string>, k: string): seq<string> {
    if s == [] || Text.Less(k, s[0]) then [k] + s else [s[0]] + Insert(s[1..], k)
  }

  lemma {:induction false} InsertSorts(s: seq<string>, k: string)
    requires Sorted(s) && k !in s
    ensures Sorted(Insert(s, k)) && KeysOf(Insert(s, k)) == KeysOf(s) + {k}
  {
    if s == [] {
    } else if Text.Less(k, s[0]) {
      forall b | 0 <= b < |s| ensures Text.Less(k, s[b]) {
        if b > 0 {
          Text.Transitive(k, s[0], s[b]);
        }
      }
    } else {
      InsertSorts(s[1..], k);
      var t := Insert(s[1..], k);
      assert s == [s[0]] + s[1..];
      forall b | 0 <= b < |t| ensures Text.Less(s[0], t[b]) {
        assert t[b] in KeysOf(t);
        if t[b] == k {
          Text.Trichotomy(s[0], k);
        } else {
          assert t[b] in s[1..];
        }
      }
    }
  }

  method SortKeys(keys: set<string>) returns (s: seq<string>)
    ensures Sorted(s) && KeysOf(s) == keys
  {
    s := [];
    var left := keys;
    while left != {}
      invariant left <= keys && Sorted(s) && KeysOf(s) == keys - left
      decreases left
    {
      var k :| k in left;
      left := left - {k};
      assert k !in KeysOf(s);
      InsertSorts(s, k);
      s := Insert(s, k);
    }
  }

  lemma EmptyKeys(s: seq<string>)
    ensures KeysOf(s) == {} <==> s == []
  {
    if s != [] {
      assert s[0] in KeysOf(s);
    }
  }

  /** A set of keys has one sorted list. */
  lemma {:induction false} SortedUnique(a: seq<string>, b: seq<string>)
    requires Sorted(a) && Sorted(b) && KeysOf(a) == KeysOf(b)
    ensures a == b
  {
    if a == [] || b == [] {
      EmptyKeys(a);
      EmptyKeys(b);
    } else {
      assert a[0] in KeysOf(b) && b[0] in KeysOf(a);
      var i :| 0 <= i < |b| && b[i] == a[0];
      var j :| 0 <= j < |a| && a[j] == b[0];
      Text.Trichotomy(a[0], b[0]);
      assert a[0] == b[0];
      forall k ensures k in KeysOf(a[1..]) <==> k in KeysOf(b[1..]) {
        TailKeys(a, k);
        TailKeys(b, k);
      }
      SortedUnique(a[1..], b[1..]);
      assert a == [a[0]] + a[1..] && b == [b[0]] + b[1..];
    }
  }

  lemma TailKeys(a: seq<string>, k: string)
    requires Sorted(a) && a != []
    ensures k in KeysOf(a[1..]) <==> k in KeysOf(a) && k != a[0]
  {
    Text.Trichotomy(a[0], a[0]);
    assert a == [a[0]] + a[1..];
  }

  /** The sorted list of a list without repeats. */
  function SortIDs(s: seq<string>): seq<string> {
    if s == [] then [] else Insert(SortIDs(s[..|s| - 1]), s[|s| - 1])
  }

  lemma {:induction false} SortIDsSorts(s: seq<string>)
    requires NoRepeats(s)
    ensures Sorted(SortIDs(s)) && KeysOf(SortIDs(s)) == KeysOf(s)
  {
    if s != [] {
      var n := |s| - 1;
      SortIDsSorts(s[..n]);
      assert s == s[..n] + [s[n]];
      assert s[n] !in KeysOf(s[..n]);
      InsertSorts(SortIDs(s[..n]), s[n]);
    }
  }

  lemma SortedHasNoRepeats(s: seq<string>)
    requires Sorted(s)
    ensures NoRepeats(s)
  {
    forall i, j | 0 <= i < j < |s| ensures s[i] != s[j] {
      Text.Trichotomy(s[i], s[j]);
    }
  }

  /** Sorting a sorted list changes nothing. */
  lemma SortIDsIdle(s: seq<string>)
    requires Sorted(s)
    ensures SortIDs(s) == s
  {
    SortedHasNoRepeats(s);
    SortIDsSorts(s);
    SortedUnique(SortIDs(s), s);
  }
}
