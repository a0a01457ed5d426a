/** Byte strings in lexicographic order, as Go compares strings, and lists sorted by any order. */
module ByteOrder {
  import opened Framing

  predicate Less(a: Bytes, b: Bytes) {
    if b == [] then false
    else if a == [] then true
    else if a[0] != b[0] then a[0] < b[0]
    else Less(a[1..], b[1..])
  }

  lemma {:induction false} LessAsymmetric(a: Bytes, b: Bytes)
    ensures !(Less(a, b) && Less(b, a))
  {
    if a != [] && b != [] && a[0] == b[0] { LessAsymmetric(a[1..], b[1..]); }
  }

  lemma {:induction false} LessTransitive(a: Bytes, b: Bytes, c: Bytes)
    requires Less(a, b) && Less(b, c)
    ensures Less(a, c)
  {
    if a != [] && a[0] == b[0] && b[0] == c[0] { LessTransitive(a[1..], b[1..], c[1..]); }
  }

  lemma {:induction false} LessTotal(a: Bytes, b: Bytes)
    ensures Less(a, b) || a == b || Less(b, a)
  {
    if a != [] && b != [] && a[0] == b[0] {
      LessTotal(a[1..], b[1..]);
      assert a == [a[0]] + a[1..] && b == [b[0]] + b[1..];
    }
  }

  /** The order itself: at the first place where the two differ, one has ended or has the smaller byte. */
  lemma {:induction false} LessMeans(a: Bytes, b: Bytes)
    ensures Less(a, b) <==> exists k: nat :: SmallerAt(a, b, k)
  {
    if a != [] && b != [] && a[0] == b[0] {
      LessMeans(a[1..], b[1..]);
      if Less(a, b) {
        var k: nat :| SmallerAt(a[1..], b[1..], k);
        assert a[..k + 1] == [a[0]] + a[1..][..k] && b[..k + 1] == [b[0]] + b[1..][..k];
        assert SmallerAt(a, b, k + 1);
      }
      if k: nat :| SmallerAt(a, b, k) {
        assert k > 0;
        assert a[1..][..k - 1] == a[..k][1..] && b[1..][..k - 1] == b[..k][1..];
        assert SmallerAt(a[1..], b[1..], k - 1);
      }
    } else {
      if k: nat :| SmallerAt(a, b, k) {
        SameStart(a, b, k);
      }
      if Less(a, b) { assert SmallerAt(a, b, 0); }
    }
  }

  lemma SameStart(a: Bytes, b: Bytes, k: nat)
    ensures SmallerAt(a, b, k) && k > 0 ==> a != [] && a[0] == b[0]
  {
    if SmallerAt(a, b, k) && k > 0 { assert a[..k][0] == b[..k][0]; }
  }

  ghost predicate SmallerAt(a: Bytes, b: Bytes, k: nat) {
    k <= |a| && k < |b| && a[..k] == b[..k] && (k == |a| || a[k] < b[k])
  }

  // ----- sorted lists -----

  ghost predicate Sorted<T>(ts: seq<T>, less: (T, T) -> bool) {
    forall i, j :: 0 <= i < j < |ts| ==> less(ts[i], ts[j])
  }

  /** Two sorted lists with the same elements are equal. */
  lemma {:induction false} SortedUnique<T(!new)>(a: seq<T>, b: seq<T>, less: (T, T) -> bool)
    requires forall x, y :: !(less(x, y) && less(y, x))
    requires Sorted(a, less) && Sorted(b, less) && forall x :: x in a <==> x in b
    ensures a == b
  {
    assert b != [] ==> b[0] in b;
    if a != [] {
      assert a[0] in a && a[0] in b;
      var j :| 0 <= j < |b| && b[j] == a[0];
      assert b[0] in b && b[0] in a;
      var i :| 0 <= i < |a| && a[i] == b[0];
      assert a[0] == b[0];
      SortedTail(a, less);
      SortedTail(b, less);
      SortedUnique(a[1..], b[1..], less);
      assert a == [a[0]] + a[1..] && b == [b[0]] + b[1..];
    }
  }

  lemma SortedTail<T(!new)>(a: seq<T>, less: (T, T) -> bool)
    requires forall x, y :: !(less(x, y) && less(y, x))
    requires a != [] && Sorted(a, less)
    ensures Sorted(a[1..], less) && forall x :: x in a[1..] <==> x in a && x != a[0]
  {
    assert forall x :: x in a[1..] ==> x in a && x != a[0];
    assert forall x :: x in a && x != a[0] ==> x in a[1..];
  }

  ghost predicate Distinct<T, K>(ts: seq<T>, key: T -> K) {
    forall i, j :: 0 <= i < j < |ts| ==> key(ts[i]) != key(ts[j])
  }

  lemma DistinctRearranged<T, K>(ts: seq<T>, other: seq<T>, key: T -> K)
    requires Distinct(ts, key) && multiset(other) == multiset(ts)
    ensures Distinct(other, key)
  {
    forall i, j | 0 <= i < j < |other| ensures key(other[i]) != key(other[j]) {
      var x, y := other[i], other[j];
      assert x in multiset(ts) && y in multiset(ts);
      if x == y {
        CountTwice(other, i, j);
        CountOnce(ts, x, key);
      }
    }
  }

  lemma CountTwice<T>(ts: seq<T>, i: nat, j: nat)
    requires i < j < |ts| && ts[i] == ts[j]
    ensures multiset(ts)[ts[i]] >= 2
  {
    var a, b := ts[..j], ts[j..];
    assert ts == a + b && a[i] == ts[i] && b[0] == ts[j];
    assert ts[i] in a && ts[j] in b;
    assert multiset(ts) == multiset(a) + multiset(b);
  }

  lemma CountOnce<T, K>(ts: seq<T>, t: T, key: T -> K)
    requires Distinct(ts, key) && t in ts
    ensures multiset(ts)[t] == 1
  {
    var i :| 0 <= i < |ts| && ts[i] == t;
    var a, b := ts[..i], ts[i + 1..];
    assert ts == a + [t] + b;
    assert t !in a && t !in b;
    assert multiset(ts) == multiset(a) + multiset([t]) + multiset(b);
  }
}
