/** Finite sets, and lists without repeats, as visiting a Go map in arbitrary order yields them. */
module Sets {

  predicate NoRepeats<T(==)>(s: seq<T>) {
    forall i, j :: 0 <= i < j < |s| ==> s[i] != s[j]
  }

  /** The list visits every member of the set exactly once. */
  ghost predicate Enumerates<T(!new)>(order: seq<T>, members: set<T>) {
    (forall x :: x in order <==> x in members) && NoRepeats(order)
  }

  /** A member of a non-empty set, as a witness that one can be chosen. */
  lemma Member<T>(s: set<T>) returns (t: T)
    requires s != {}
    ensures t in s
  {
    t :| t in s;
  }

  lemma Missing<T>(a: set<T>, b: set<T>) returns (x: T)
    requires a < b
    ensures x in b && x !in a
  {
    x :| x in b && x !in a;
  }

  lemma {:induction false} SubsetSize<T>(a: set<T>, b: set<T>)
    requires a <= b
    ensures |a| <= |b|
  {
    if a != {} {
      var x := Member(a);
      SubsetSize(a - {x}, b - {x});
    }
  }
}
