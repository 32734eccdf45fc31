/** Byte-string comparison as Go's `<` on strings performs it: first differing byte, then length. */
module Text {

  predicate Less(a: string, b: string) {
    if b == "" then false
    else if a == "" then true
    else if a[0] != b[0] then a[0] < b[0]
    else Less(a[1..], b[1..])
  }

  /** Exactly one of `a < b`, `b < a`, `a == b` holds. */
  lemma {:induction false} Trichotomy(a: string, b: string)
    ensures Less(a, b) || Less(b, a) || a == b
    ensures !(Less(a, b) && Less(b, a))
    ensures a == b ==> !Less(a, b)
    decreases a
  {
    if a != "" && b != "" && a[0] == b[0] {
      Trichotomy(a[1..], b[1..]);
      assert a == [a[0]] + a[1..] && b == [b[0]] + b[1..];
    }
  }

  lemma {:induction false} Transitive(a: string, b: string, c: string)
    requires Less(a, b) && Less(b, c)
    ensures Less(a, c)
    decreases a
  {
    if a != "" && a[0] == b[0] == c[0] {
      Transitive(a[1..], b[1..], c[1..]);
    }
  }

  /** The texts agree up to position k, where `a` ends or has the lesser byte. */
  ghost predicate LesserAt(a: string, b: string, k: nat) {
    k <= |a| && k < |b| && a[..k] == b[..k] && (k == |a| || a[k] < b[k])
  }

  /** `a` is less exactly if at the first difference it ends or has the lesser byte. */
  lemma {:induction false} LessIff(a: string, b: string)
    ensures Less(a, b) <==> exists k: nat :: LesserAt(a, b, k)
    decreases a
  {
    if a == "" {
      assert b != "" ==> LesserAt(a, b, 0);
    } else if b != "" {
      LessIff(a[1..], b[1..]);
      if a[0] < b[0] {
        assert LesserAt(a, b, 0);
      }
      if Less(a, b) && a[0] == b[0] {
        var k: nat :| LesserAt(a[1..], b[1..], k);
        assert a[..k + 1] == [a[0]] + a[1..][..k] && b[..k + 1] == [b[0]] + b[1..][..k];
        assert LesserAt(a, b, k + 1);
      }
      if exists k: nat :: LesserAt(a, b, k) {
        var k: nat :| LesserAt(a, b, k);
        if k > 0 {
          assert a[0] == a[..k][0] == b[..k][0] == b[0];
          assert a[1..][..k - 1] == a[..k][1..] && b[1..][..k - 1] == b[..k][1..];
          assert LesserAt(a[1..], b[1..], k - 1);
        }
      }
    }
  }
}
