/** Sorting the timestamps of the bucket map. */
module Timestamps {
  ghost predicate Ascending(ts: seq<int>) {
    forall i, j :: 0 <= i < j < |ts| ==> ts[i] < ts[j]
  }

  function Insert(t: int, ts: seq<int>): seq<int> {
    if ts == [] || t < ts[0] then [t] + ts else [ts[0]] + Insert(t, ts[1..])
  }

  lemma {:induction false} InsertKeeps(t: int, ts: seq<int>)
    requires Ascending(ts) && t !in ts
    ensures Ascending(Insert(t, ts))
    ensures forall x :: x in Insert(t, ts) <==> x == t || x in ts
  {
    if ts != [] && t > ts[0] {
      InsertKeeps(t, ts[1..]);
      var rest := Insert(t, ts[1..]);
      assert forall x :: x in ts <==> x == ts[0] || x in ts[1..];
      forall i | 0 <= i < |rest| ensures rest[i] > ts[0] {
        assert rest[i] in rest;
        if rest[i] != t {
          var k :| 0 <= k < |ts[1..]| && ts[1..][k] == rest[i];
          assert ts[1..][k] == ts[k + 1];
        }
      }
    }
  }

  /** Map iteration delivers the keys in no particular order. */
  method Pick<T>(keys: set<T>) returns (key: T)
    requires keys != {}
    ensures key in keys
  {
    key :| key in keys;
  }

  /** The keys of the bucket map in ascending order. */
  method SortedKeys(keys: set<int>) returns (ts: seq<int>)
    ensures Ascending(ts) && forall t :: t in ts <==> t in keys
  {
    ts := [];
    var todo := keys;
    while todo != {}
      invariant Ascending(ts)
      invariant forall t :: t in keys <==> t in todo || t in ts
      invariant forall t :: t in ts ==> t !in todo
      decreases |todo|
    {
      var t := Pick(todo);
      InsertKeeps(t, ts);
      ts := Insert(t, ts);
      todo := todo - {t};
    }
  }
}

/** Points of a quota history response: one per time bucket, in order of time
    (controller/channel-billing.go). */
module HistoryPoints {
  import opened Folding
  import opened History
  import opened Timestamps
  import opened Options

  datatype Point = Point(timestamp: int, periodStart: int, selected: Snapshot, tally: Tally, rate: Option<real>)

  /** Average consumption per minute, when there is any. */
  function RateOf(u: Usage): Option<real> {
    if u.consumption.Some? && u.seconds > 0 then Some(u.consumption.value / (u.seconds as real / 60.0)) else None
  }

  function PointOf(b: BucketValue): Point
    requires b.selected.Some?
  {
    Point(b.timestamp, b.timestamp, b.selected.value, b.tally, RateOf(b.tally.usage))
  }

  function TalliesOf(points: seq<Point>): (r: seq<Tally>)
    ensures |r| == |points| && forall i :: 0 <= i < |points| ==> r[i] == points[i].tally
  {
    seq(|points|, i requires 0 <= i < |points| => points[i].tally)
  }

  /** Without consumption there are no seconds and no intervals. */
  predicate Balanced(u: Usage) {
    u.consumption.None? ==> u.seconds == 0 && u.intervals == 0
  }

  // ----- from observations to points -----

  function StartOf(o: Observation, start: int -> int): int {
    start(o.snapshot.observedAt)
  }

  /** The buckets that observations fall into. */
  function Starts(obs: seq<Observation>, start: int -> int): set<int> {
    if obs == [] then {} else Starts(obs[..|obs| - 1], start) + {StartOf(obs[|obs| - 1], start)}
  }

  lemma {:induction false} StartsAll(obs: seq<Observation>, start: int -> int)
    ensures forall i :: 0 <= i < |obs| ==> StartOf(obs[i], start) in Starts(obs, start)
    decreases |obs|
  {
    if obs != [] {
      var init := obs[..|obs| - 1];
      StartsAll(init, start);
      forall i | 0 <= i < |obs| ensures StartOf(obs[i], start) in Starts(obs, start) {
        if i < |init| { assert init[i] == obs[i]; }
      }
    }
  }

  lemma {:induction false} FillSelects(t: int, obs: seq<Observation>, start: int -> int)
    ensures t in Starts(obs, start) ==> Fill(t, obs, start).selected.Some?
    ensures t !in Starts(obs, start) ==> Fill(t, obs, start) == Empty(t)
    decreases |obs|
  {
    if obs != [] { FillSelects(t, obs[..|obs| - 1], start); }
  }

  lemma JoinBalanced(a: Tally, o: Observation)
    requires Balanced(a.usage)
    ensures Balanced(Join(a, Of(o)).usage)
  {
  }

  lemma {:induction false} FillBalanced(t: int, obs: seq<Observation>, start: int -> int)
    ensures Fill(t, obs, start).timestamp == t && Balanced(Fill(t, obs, start).tally.usage)
    decreases |obs|
  {
    if obs != [] {
      FillBalanced(t, obs[..|obs| - 1], start);
      JoinBalanced(Fill(t, obs[..|obs| - 1], start).tally, obs[|obs| - 1]);
    }
  }

  /** One bucket per key, each with its content. */
  ghost predicate Holds(buckets: map<int, Bucket>, keys: set<int>, content: int -> BucketValue) {
    buckets.Keys == keys && forall t :: t in buckets ==> View(buckets[t]) == content(t)
  }

  function Content(obs: seq<Observation>, start: int -> int): int -> BucketValue {
    (t: int) => Fill(t, obs, start)
  }

  /** The map of buckets after some observations. */
  ghost predicate Filled(buckets: map<int, Bucket>, obs: seq<Observation>, start: int -> int) {
    Holds(buckets, Starts(obs, start), Content(obs, start))
  }

  lemma HoldsNext(buckets: map<int, Bucket>, keys: set<int>, before: int -> BucketValue, after: int -> BucketValue,
                  t: int, bucket: Bucket)
    requires Holds(buckets, keys, before) && View(bucket) == after(t) && forall u :: u != t ==> after(u) == before(u)
    ensures Holds(buckets[t := bucket], keys + {t}, after)
  {
  }

  method FillBuckets(obs: seq<Observation>, start: int -> int) returns (buckets: map<int, Bucket>)
    ensures Filled(buckets, obs, start)
  {
    buckets := map[];
    for i := 0 to |obs|
      invariant Filled(buckets, obs[..i], start)
    {
      assert obs[..i + 1][..i] == obs[..i];
      buckets := FillOne(buckets, obs[..i + 1], start);
    }
    assert obs[..|obs|] == obs;
  }

  /** An observation changes no bucket but its own. */
  lemma OtherBuckets(u: int, obs: seq<Observation>, start: int -> int)
    ensures obs != [] && u != StartOf(obs[|obs| - 1], start) ==>
      Fill(u, obs, start) == Fill(u, obs[..|obs| - 1], start)
  {
  }

  /** One turn of the loop: the last observation goes into its bucket, new or not. */
  method FillOne(buckets: map<int, Bucket>, obs: seq<Observation>, start: int -> int)
    returns (r: map<int, Bucket>)
    requires obs != [] && Filled(buckets, obs[..|obs| - 1], start)
    ensures Filled(r, obs, start)
  {
    var o := obs[|obs| - 1];
    var t := StartOf(o, start);
    FillSelects(t, obs[..|obs| - 1], start);
    var bucket := if t in buckets then buckets[t] else NewBucket(t);
    assert View(bucket) == Fill(t, obs[..|obs| - 1], start);
    bucket := AddObservation(bucket, o);
    forall u | u != t ensures Content(obs, start)(u) == Content(obs[..|obs| - 1], start)(u) {
      OtherBuckets(u, obs, start);
    }
    HoldsNext(buckets, Starts(obs[..|obs| - 1], start), Content(obs[..|obs| - 1], start), Content(obs, start), t,
              bucket);
    r := buckets[t := bucket];
  }

  /** The point shows everything its bucket holds. */
  ghost predicate IsPoint(p: Point, obs: seq<Observation>, start: int -> int) {
    var b := Fill(p.timestamp, obs, start);
    b.selected.Some? && p == PointOf(b)
  }

  /** quotaHistoryPointsFromObservations for a bucketed granularity: strictly ascending buckets, each
      point the whole content of its bucket, and together the whole content of the observations. */
  method PointsFromObservations(obs: seq<Observation>, start: int -> int) returns (points: seq<Point>)
    ensures forall i, j :: 0 <= i < j < |points| ==> points[i].timestamp < points[j].timestamp
    ensures forall i :: 0 <= i < |points| ==> IsPoint(points[i], obs, start)
    ensures forall i :: 0 <= i < |points| ==> Balanced(points[i].tally.usage)
    ensures JoinAll(TalliesOf(points)) == JoinAll(Each(Of, obs))
  {
    var buckets := FillBuckets(obs, start);
    var ts := SortedKeys(buckets.Keys);
    points := PointsAt(buckets, ts, obs, start);
    StartsAll(obs, start);
    BucketingConserves(ts, obs, start, TalliesOf(points));
    forall i | 0 <= i < |points| ensures Balanced(points[i].tally.usage) { FillBalanced(ts[i], obs, start); }
  }

  method PointsAt(buckets: map<int, Bucket>, ts: seq<int>, ghost obs: seq<Observation>, ghost start: int -> int)
    returns (points: seq<Point>)
    requires Filled(buckets, obs, start) && forall t :: t in ts ==> t in buckets
    ensures |points| == |ts|
    ensures forall i :: 0 <= i < |ts| ==> points[i].timestamp == ts[i] && IsPoint(points[i], obs, start)
  {
    points := [];
    for i := 0 to |ts|
      invariant |points| == i
      invariant forall k :: 0 <= k < i ==> points[k].timestamp == ts[k] && IsPoint(points[k], obs, start)
    {
      var t := ts[i];
      assert t in ts;
      FillSelects(t, obs, start);
      FillBalanced(t, obs, start);
      points := points + [PointOf(View(buckets[t]))];
    }
  }

  /** The point of a single observation. */
  ghost predicate Shows(p: Point, o: Observation) {
    p.timestamp == o.snapshot.observedAt && p.selected == o.snapshot && p.tally == Of(o) && Balanced(p.tally.usage)
  }

  lemma JoinFromNothing(t: Tally)
    ensures Join(NOTHING, t) == t
  {
  }

  lemma FirstOfBucket(t: int, o: Observation)
    ensures AddTo(Empty(t), o) == BucketValue(t, Some(o.snapshot), Of(o)) && Balanced(Of(o).usage)
  {
    JoinFromNothing(Of(o));
  }

  method RawPoint(o: Observation) returns (p: Point)
    ensures Shows(p, o)
  {
    var bucket := AddObservation(NewBucket(o.snapshot.observedAt), o);
    FirstOfBucket(o.snapshot.observedAt, o);
    p := PointOf(View(bucket));
  }

  /** The raw granularity: every observation is a bucket of its own, in the given order. */
  method RawPoints(obs: seq<Observation>) returns (points: seq<Point>)
    ensures |points| == |obs| && forall i :: 0 <= i < |obs| ==> Shows(points[i], obs[i])
    ensures JoinAll(TalliesOf(points)) == JoinAll(Each(Of, obs))
  {
    points := [];
    for i := 0 to |obs|
      invariant |points| == i && forall k :: 0 <= k < i ==> Shows(points[k], obs[k])
    {
      var p := RawPoint(obs[i]);
      points := points + [p];
    }
    assert TalliesOf(points) == Each(Of, obs) by {
      assert forall i :: 0 <= i < |obs| ==> Shows(points[i], obs[i]);
    }
  }
}
