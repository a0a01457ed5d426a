/** Folding lists with a commutative, associative join, and folding them group by group. */
module Folding {
  function Fold<T>(join: (T, T) -> T, unit: T, ts: seq<T>): T {
    if ts == [] then unit else join(Fold(join, unit, ts[..|ts| - 1]), ts[|ts| - 1])
  }

  ghost predicate Associative<T(!new)>(join: (T, T) -> T) {
    forall a, b, c {:trigger join(join(a, b), c), join(b, c)} :: join(join(a, b), c) == join(a, join(b, c))
  }

  ghost predicate Exchanges<T(!new)>(join: (T, T) -> T) {
    forall a, b, c {:trigger join(join(a, b), c), join(a, c)} :: join(join(a, b), c) == join(join(a, c), b)
  }

  ghost predicate Neutral<T(!new)>(join: (T, T) -> T, unit: T) {
    forall a :: join(a, unit) == a
  }

  lemma {:induction false} FoldConcat<T(!new)>(join: (T, T) -> T, unit: T, a: seq<T>, b: seq<T>)
    requires Associative(join) && Neutral(join, unit)
    ensures Fold(join, unit, a + b) == join(Fold(join, unit, a), Fold(join, unit, b))
    decreases |b|
  {
    if b == [] {
      assert a + b == a;
    } else {
      var n := |b| - 1;
      FoldConcat(join, unit, a, b[..n]);
      assert (a + b)[..|a + b| - 1] == a + b[..n];
    }
  }

  /** Starting from a seed instead of nothing joins the seed in front. */
  lemma {:induction false} FoldSeed<T(!new)>(join: (T, T) -> T, unit: T, seed: T, ts: seq<T>)
    requires Associative(join) && Neutral(join, unit)
    ensures Fold(join, seed, ts) == join(seed, Fold(join, unit, ts))
  {
    if ts != [] { FoldSeed(join, unit, seed, ts[..|ts| - 1]); }
  }

  /** Adding to one element of a list adds to the whole. */
  lemma {:induction false} FoldUpdate<T(!new)>(join: (T, T) -> T, unit: T, ts: seq<T>, k: nat, t: T)
    requires Associative(join) && Exchanges(join) && k < |ts|
    ensures Fold(join, unit, ts[k := join(ts[k], t)]) == join(Fold(join, unit, ts), t)
  {
    var n := |ts| - 1;
    var ts' := ts[k := join(ts[k], t)];
    if k == n {
      assert ts'[..n] == ts[..n];
    } else {
      FoldUpdate(join, unit, ts[..n], k, t);
      assert ts'[..n] == ts[..n][k := join(ts[..n][k], t)];
    }
  }

  lemma {:induction false} FoldUnits<T(!new)>(join: (T, T) -> T, unit: T, ts: seq<T>)
    requires Neutral(join, unit) && forall i :: 0 <= i < |ts| ==> ts[i] == unit
    ensures Fold(join, unit, ts) == unit
  {
    if ts != [] { FoldUnits(join, unit, ts[..|ts| - 1]); }
  }

  // ----- grouping by a key -----

  /** The fold of the elements with one key. */
  function GroupFold<O, T>(join: (T, T) -> T, unit: T, of: O -> T, key: O -> int, k: int, os: seq<O>): T {
    if os == [] then unit
    else
      var g, o := GroupFold(join, unit, of, key, k, os[..|os| - 1]), os[|os| - 1];
      if key(o) == k then join(g, of(o)) else g
  }

  function Groups<O, T>(join: (T, T) -> T, unit: T, of: O -> T, key: O -> int, ks: seq<int>, os: seq<O>): (r: seq<T>)
    ensures |r| == |ks| && forall i :: 0 <= i < |ks| ==> r[i] == GroupFold(join, unit, of, key, ks[i], os)
  {
    seq(|ks|, i requires 0 <= i < |ks| => GroupFold(join, unit, of, key, ks[i], os))
  }

  function Each<O, T>(of: O -> T, os: seq<O>): (r: seq<T>)
    ensures |r| == |os| && forall i :: 0 <= i < |os| ==> r[i] == of(os[i])
  {
    seq(|os|, i requires 0 <= i < |os| => of(os[i]))
  }

  ghost predicate Distinct(ks: seq<int>) {
    forall i, j :: 0 <= i < j < |ks| ==> ks[i] != ks[j]
  }

  /** The last element has changed exactly one group. */
  lemma {:induction false} LastGroup<O, T>(join: (T, T) -> T, unit: T, of: O -> T, key: O -> int,
                                           ks: seq<int>, os: seq<O>) returns (k: nat)
    requires os != [] && Distinct(ks) && key(os[|os| - 1]) in ks
    ensures k < |ks|
    ensures var before := Groups(join, unit, of, key, ks, os[..|os| - 1]);
      Groups(join, unit, of, key, ks, os) == before[k := join(before[k], of(os[|os| - 1]))]
  {
    k :| 0 <= k < |ks| && ks[k] == key(os[|os| - 1]);
  }

  /** Nothing is lost and nothing counted twice: folding group by group folds everything. */
  lemma {:induction false} GroupingConserves<O, T(!new)>(join: (T, T) -> T, unit: T, of: O -> T, key: O -> int,
                                                        ks: seq<int>, os: seq<O>)
    requires Associative(join) && Exchanges(join) && Neutral(join, unit)
    requires Distinct(ks) && forall i :: 0 <= i < |os| ==> key(os[i]) in ks
    ensures Fold(join, unit, Groups(join, unit, of, key, ks, os)) == Fold(join, unit, Each(of, os))
    decreases |os|
  {
    if os == [] {
      FoldUnits(join, unit, Groups(join, unit, of, key, ks, os));
    } else {
      var n := |os| - 1;
      GroupingConserves(join, unit, of, key, ks, os[..n]);
      var k := LastGroup(join, unit, of, key, ks, os);
      FoldUpdate(join, unit, Groups(join, unit, of, key, ks, os[..n]), k, of(os[n]));
      assert Each(of, os)[..n] == Each(of, os[..n]);
    }
  }
}
