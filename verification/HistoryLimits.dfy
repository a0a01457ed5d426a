/** Compacting the points of a quota history response to a limit (controller/channel-billing.go). */
module HistoryLimits {
  import opened Folding
  import opened History
  import opened HistoryPoints
  import opened Options
  import opened Quotients

  /** What a member adds to its group: seconds and intervals only along with a consumption. */
  function Effective(t: Tally): Tally {
    if t.usage.consumption.None? then t.(usage := t.usage.(seconds := 0, intervals := 0)) else t
  }

  function EffectiveOf(points: seq<Point>): (r: seq<Tally>)
    ensures |r| == |points| && forall i :: 0 <= i < |points| ==> r[i] == Effective(points[i].tally)
  {
    seq(|points|, i requires 0 <= i < |points| => Effective(points[i].tally))
  }

  /** The last point of the group, reaching back to the group's start, with the whole group's content. */
  function Compacted(group: seq<Point>): Point
    requires group != []
  {
    var last := group[|group| - 1];
    var tally := JoinAll(EffectiveOf(group));
    last.(periodStart := group[0].periodStart, tally := tally, rate := RateOf(tally.usage))
  }

  /** The inner loop over one group. */
  method Compact(group: seq<Point>) returns (point: Point)
    requires group != []
    ensures point == Compacted(group)
  {
    var last := group[|group| - 1];
    var seed := Tally(NO_COUNTS, NO_USAGE, last.tally.flags);
    var tally := seed;
    for i := 0 to |group|
      invariant tally == Fold(Join, seed, EffectiveOf(group[..i]))
    {
      assert EffectiveOf(group[..i + 1])[..i] == EffectiveOf(group[..i]);
      tally := AddMember(tally, group[i].tally);
    }
    assert group[..|group|] == group;
    JoinLaws();
    FoldSeed(Join, NOTHING, seed, EffectiveOf(group));
    LastFlags(group);
    point := last.(periodStart := group[0].periodStart, tally := tally, rate := RateOf(tally.usage));
  }

  method AddMember(sum: Tally, m: Tally) returns (t: Tally)
    ensures t == Join(sum, Effective(m))
  {
    var usage := sum.usage;
    if m.usage.consumption.Some? {
      if usage.consumption.None? { usage := usage.(consumption := Some(0.0)); }
      usage := usage.(consumption := Some(usage.consumption.value + m.usage.consumption.value));
      usage := usage.(seconds := usage.seconds + m.usage.seconds, intervals := usage.intervals + m.usage.intervals);
    }
    if m.usage.peak.Some? && (usage.peak.None? || m.usage.peak.value > usage.peak.value) {
      usage := usage.(peak := m.usage.peak);
    }
    t := Tally(JoinCounts(sum.counts, m.counts), usage, JoinFlags(sum.flags, m.flags));
  }

  lemma FlagsAbsorbed(a: Tally, b: Tally)
    ensures var all := Join(a, b); Join(Tally(NO_COUNTS, NO_USAGE, b.flags), all) == all
  {
  }

  /** The flags the copied last point brings along are among the group's anyway. */
  lemma {:induction false} LastFlags(group: seq<Point>)
    requires group != []
    ensures var all := JoinAll(EffectiveOf(group));
      Join(Tally(NO_COUNTS, NO_USAGE, group[|group| - 1].tally.flags), all) == all
  {
    var ts := EffectiveOf(group);
    FlagsAbsorbed(JoinAll(ts[..|ts| - 1]), ts[|ts| - 1]);
  }

  /** Boundaries of consecutive nonempty groups that cover n points. */
  ghost predicate Cuts(cut: nat -> nat, groups: nat, n: nat) {
    && cut(0) == 0 && cut(groups) == n
    && forall i: nat, j: nat :: i < j <= groups ==> cut(i) < cut(j)
  }

  /** The i-th limited point is the compaction of the i-th group. */
  ghost predicate GroupPoint(points: seq<Point>, cut: nat -> nat, i: nat, p: Point) {
    cut(i) < cut(i + 1) <= |points| && p == Compacted(points[cut(i)..cut(i + 1)])
  }

  /** The outer loop over the groups. */
  method CompactGroups(points: seq<Point>, cut: nat -> nat, groups: nat) returns (limited: seq<Point>)
    requires Cuts(cut, groups, |points|)
    ensures |limited| == groups && forall i :: 0 <= i < groups ==> GroupPoint(points, cut, i, limited[i])
    ensures JoinAll(TalliesOf(limited)) == JoinAll(EffectiveOf(points))
  {
    limited := [];
    for i := 0 to groups
      invariant |limited| == i
      invariant forall k :: 0 <= k < i ==> GroupPoint(points, cut, k, limited[k])
    {
      var start, end := cut(i), cut(i + 1);
      assert end <= |points| by { if i + 1 < groups { assert cut(i + 1) < cut(groups); } }
      var point := Compact(points[start..end]);
      assert GroupPoint(points, cut, i, point);
      limited := limited + [point];
    }
    GroupsJoin(points, cut, groups, limited, groups);
    assert points[..|points|] == points && limited[..groups] == limited;
  }

  /** The first i groups hold exactly the points up to the i-th boundary. */
  lemma {:induction false} GroupsJoin(points: seq<Point>, cut: nat -> nat, groups: nat, limited: seq<Point>, i: nat)
    requires i <= groups == |limited| && cut(0) == 0
    requires forall k :: 0 <= k < groups ==> GroupPoint(points, cut, k, limited[k])
    ensures cut(i) <= |points|
    ensures JoinAll(TalliesOf(limited[..i])) == JoinAll(EffectiveOf(points[..cut(i)]))
  {
    if i == 0 {
      assert TalliesOf(limited[..0]) == [] && EffectiveOf(points[..0]) == [];
    } else {
      var k := i - 1;
      GroupsJoin(points, cut, groups, limited, k);
      assert GroupPoint(points, cut, k, limited[k]);
      assert limited[..i] == limited[..k] + [limited[k]];
      GroupJoins(points, cut(k), cut(i), limited[..k], limited[k]);
    }
  }

  lemma {:induction false} GroupJoins(points: seq<Point>, start: nat, end: nat, limited: seq<Point>, point: Point)
    requires start < end <= |points| && point == Compacted(points[start..end])
    requires JoinAll(TalliesOf(limited)) == JoinAll(EffectiveOf(points[..start]))
    ensures JoinAll(TalliesOf(limited + [point])) == JoinAll(EffectiveOf(points[..end]))
  {
    TalliesJoin(limited, point);
    EffectiveJoin(points, start, end);
  }

  lemma {:induction false} TalliesJoin(limited: seq<Point>, point: Point)
    ensures JoinAll(TalliesOf(limited + [point])) == Join(JoinAll(TalliesOf(limited)), point.tally)
  {
    assert TalliesOf(limited + [point])[..|limited|] == TalliesOf(limited);
  }

  lemma {:induction false} EffectiveJoin(points: seq<Point>, start: nat, end: nat)
    requires start <= end <= |points|
    ensures JoinAll(EffectiveOf(points[..end]))
         == Join(JoinAll(EffectiveOf(points[..start])), JoinAll(EffectiveOf(points[start..end])))
  {
    var a, b := EffectiveOf(points[..start]), EffectiveOf(points[start..end]);
    assert EffectiveOf(points[..end]) == a + b;
    JoinLaws();
    FoldConcat(Join, NOTHING, a, b);
  }

  /** limitQuotaHistoryPoints: too many points become `limit` points, each the compaction of a
      nonempty group of neighbours, and nothing they hold is lost. */
  method LimitPoints(points: seq<Point>, limit: nat) returns (limited: seq<Point>, truncated: bool)
    ensures truncated <==> |points| > limit
    ensures !truncated ==> limited == points
    ensures truncated ==> |limited| == limit
    ensures truncated && limit > 0 ==>
      && Cuts(i => Cut(i, |points|, limit), limit, |points|)
      && (forall i :: 0 <= i < limit ==> GroupPoint(points, i => Cut(i, |points|, limit), i, limited[i]))
      && JoinAll(TalliesOf(limited)) == JoinAll(EffectiveOf(points))
  {
    if |points| <= limit { return points, false; }
    if limit == 0 { return [], true; }
    var n := |points|;
    CutEnds(n, limit);
    forall i: nat, j: nat | i < j <= limit ensures Cut(i, n, limit) < Cut(j, n, limit) { CutOrder(i, j, n, limit); }
    limited := CompactGroups(points, i => Cut(i, n, limit), limit);
    truncated := true;
  }

  /** The whole response pipeline: what the returned points say in total is what the observations
      say in total, for every granularity, time zone and positive limit. */
  method HistoryResponse(obs: seq<Observation>, g: Granularity, offsetMinutes: int, limit: nat)
    returns (points: seq<Point>)
    requires limit > 0
    ensures |points| <= limit
    ensures JoinAll(TalliesOf(points)) == JoinAll(Each(Of, obs))
  {
    var all;
    if g.Raw? {
      all := RawPoints(obs);
      assert forall i :: 0 <= i < |obs| ==> Shows(all[i], obs[i]);
    } else {
      all := PointsFromObservations(obs, t => BucketStart(t, g, offsetMinutes));
    }
    var truncated;
    points, truncated := LimitPoints(all, limit);
    assert EffectiveOf(all) == TalliesOf(all);
  }
}
