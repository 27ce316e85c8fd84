/**
  Go's ordering of strings, and the sorted list of a set of keys that
  sort.Strings and etcd's range queries produce.
 */
module Sorting {
  import opened Strings

  /** Go's ordering of strings: byte by byte, a proper prefix first. */
  predicate Less(a: Bytes, b: Bytes)
  {
    if |a| == 0 then |b| > 0
    else if |b| == 0 then false
    else if a[0] != b[0] then a[0] < b[0]
    else Less(a[1..], b[1..])
  }

  lemma {:induction false} LessAsymmetric(a: Bytes, b: Bytes)
    ensures !(Less(a, b) && Less(b, a))
  {
    if |a| > 0 && |b| > 0 && a[0] == b[0] {
      LessAsymmetric(a[1..], b[1..]);
    }
  }

  lemma {:induction false} LessTransitive(a: Bytes, b: Bytes, c: Bytes)
    requires Less(a, b) && Less(b, c)
    ensures Less(a, c)
  {
    if |a| > 0 && a[0] == b[0] && b[0] == c[0] {
      LessTransitive(a[1..], b[1..], c[1..]);
    }
  }

  lemma {:induction false} LessTotal(a: Bytes, b: Bytes)
    ensures a == b || Less(a, b) || Less(b, a)
  {
    if |a| > 0 && |b| > 0 && a[0] == b[0] {
      LessTotal(a[1..], b[1..]);
      if a[1..] == b[1..] {
        assert a == [a[0]] + a[1..] && b == [b[0]] + b[1..];
      }
    }
  }

  /** `k` is the smallest element of `ks`. */
  predicate IsLeast(k: Bytes, ks: set<Bytes>)
  {
    k in ks && forall k' :: k' in ks && k' != k ==> Less(k, k')
  }

  lemma {:induction false} LeastExists(ks: set<Bytes>)
    requires ks != {}
    ensures exists k :: IsLeast(k, ks)
    decreases |ks|
  {
    var x :| x in ks;
    var rest := ks - {x};
    if rest == {} {
      assert ks == {x};
      assert IsLeast(x, ks);
    } else {
      LeastExists(rest);
      var m :| IsLeast(m, rest);
      LessTotal(x, m);
      if Less(x, m) {
        forall k' | k' in ks && k' != x ensures Less(x, k') {
          if k' != m { LessTransitive(x, m, k'); }
        }
        assert IsLeast(x, ks);
      } else {
        assert IsLeast(m, ks);
      }
    }
  }

  lemma LeastUnique()
    ensures forall k1, k2, ks :: IsLeast(k1, ks) && IsLeast(k2, ks) ==> k1 == k2
  {
    forall k1, k2, ks | IsLeast(k1, ks) && IsLeast(k2, ks) ensures k1 == k2 {
      LessAsymmetric(k1, k2);
    }
  }

  predicate StrictlySorted(r: seq<Bytes>)
  {
    forall i, j :: 0 <= i < j < |r| ==> Less(r[i], r[j])
  }

  /** The elements of a set of strings in increasing order (what sort.Strings produces). */
  function SortedKeys(ks: set<Bytes>): (r: seq<Bytes>)
    ensures StrictlySorted(r)
    ensures forall k :: k in r <==> k in ks
    ensures |r| == |ks|
    decreases ks
  {
    if ks == {} then []
    else
      LeastExists(ks);
      LeastUnique();
      var k :| IsLeast(k, ks);
      [k] + SortedKeys(ks - {k})
  }

  /** A strictly sorted sequence has no repeated element. */
  lemma SortedDistinct(r: seq<Bytes>)
    requires StrictlySorted(r)
    ensures forall i, j :: 0 <= i < j < |r| ==> r[i] != r[j]
  {
    forall i, j | 0 <= i < j < |r| ensures r[i] != r[j] {
      LessAsymmetric(r[i], r[j]);
    }
  }
}
