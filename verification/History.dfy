/** Quota history: observations are gathered into time buckets, buckets become points, and too
    many points are compacted (controller/channel-billing.go).  Floating-point amounts are reals. */
module History {
  import opened Folding
  import opened Options
  import opened Quotients

  // ----- what must not get lost -----

  datatype Counts = Counts(samples: int, successes: int, failures: int, unsupported: int)

  datatype Usage = Usage(consumption: Option<real>, seconds: int, intervals: int, peak: Option<real>)

  datatype Flags = Flags(reset: bool, broken: bool, gap: bool, recovery: bool, baseline: bool)

  /** The additive content of an observation, a bucket or a point. */
  datatype Tally = Tally(counts: Counts, usage: Usage, flags: Flags)

  const NO_COUNTS := Counts(0, 0, 0, 0)
  const NO_USAGE := Usage(None, 0, 0, None)
  const NO_FLAGS := Flags(false, false, false, false, false)
  const NOTHING := Tally(NO_COUNTS, NO_USAGE, NO_FLAGS)

  function Add(a: Option<real>, b: Option<real>): Option<real> {
    if b.None? then a else if a.None? then b else Some(a.value + b.value)
  }

  function Peak(a: Option<real>, b: Option<real>): Option<real> {
    if b.Some? && (a.None? || b.value > a.value) then b else a
  }

  function JoinCounts(a: Counts, b: Counts): Counts {
    Counts(a.samples + b.samples, a.successes + b.successes, a.failures + b.failures, a.unsupported + b.unsupported)
  }

  function JoinUsage(a: Usage, b: Usage): Usage {
    Usage(Add(a.consumption, b.consumption), a.seconds + b.seconds, a.intervals + b.intervals, Peak(a.peak, b.peak))
  }

  function JoinFlags(a: Flags, b: Flags): Flags {
    Flags(a.reset || b.reset, a.broken || b.broken, a.gap || b.gap, a.recovery || b.recovery, a.baseline || b.baseline)
  }

  /** Sums of counts and amounts, maximum of the peaks, disjunction of the boundary flags. */
  function Join(a: Tally, b: Tally): Tally {
    Tally(JoinCounts(a.counts, b.counts), JoinUsage(a.usage, b.usage), JoinFlags(a.flags, b.flags))
  }

  /** Everything a list of tallies holds. */
  function JoinAll(ts: seq<Tally>): Tally {
    Fold(Join, NOTHING, ts)
  }

  lemma JoinLaws()
    ensures Associative(Join) && Exchanges(Join) && Neutral(Join, NOTHING)
  {
    forall a, b, c ensures Join(Join(a, b), c) == Join(a, Join(b, c)) { JoinAssociative(a, b, c); }
    forall a, b, c ensures Join(Join(a, b), c) == Join(Join(a, c), b) { JoinExchanges(a, b, c); }
  }

  lemma JoinAssociative(a: Tally, b: Tally, c: Tally)
    ensures Join(Join(a, b), c) == Join(a, Join(b, c))
  {
  }

  lemma JoinExchanges(a: Tally, b: Tally, c: Tally)
    ensures Join(Join(a, b), c) == Join(Join(a, c), b)
  {
  }

  // ----- observations and buckets -----

  datatype Status = Success | Unsupported | Other

  datatype Snapshot = Snapshot(observedAt: int, id: int, status: Status, usable: bool)

  datatype Observation = Observation(
    snapshot: Snapshot, reset: bool, broken: bool, gap: bool, recovery: bool, baseline: bool,
    consumption: Option<real>, seconds: int, rate: Option<real>)

  /** A success whose balance is not usable counts as an error. */
  function StatusOf(s: Snapshot): Status {
    if s.status.Success? && !s.usable then Other else s.status
  }

  function CountsOf(status: Status): Counts {
    Counts(1, if status.Success? then 1 else 0, if status.Other? then 1 else 0, if status.Unsupported? then 1 else 0)
  }

  function UsageOf(o: Observation): Usage {
    if o.consumption.None? then NO_USAGE else Usage(o.consumption, o.seconds, 1, o.rate)
  }

  /** What one observation contributes. */
  function Of(o: Observation): Tally {
    var status := StatusOf(o.snapshot);
    Tally(CountsOf(status), UsageOf(o),
          Flags(o.reset, o.broken || o.reset || !status.Success?, o.gap, o.recovery, o.baseline))
  }

  /** quotaHistorySnapshotIsNewer. */
  predicate Newer(candidate: Snapshot, selected: Snapshot) {
    candidate.observedAt > selected.observedAt
    || (candidate.observedAt == selected.observedAt && candidate.id >= selected.id)
  }

  datatype BucketValue = BucketValue(timestamp: int, selected: Option<Snapshot>, tally: Tally)

  function Empty(timestamp: int): BucketValue {
    BucketValue(timestamp, None, NOTHING)
  }

  function AddTo(b: BucketValue, o: Observation): BucketValue {
    BucketValue(b.timestamp,
                if b.selected.None? || Newer(o.snapshot, b.selected.value) then Some(o.snapshot) else b.selected,
                Join(b.tally, Of(o)))
  }

  /** The bucket record; resets are counted, the other boundaries only marked. */
  datatype Bucket = Bucket(
    timestamp: int, selected: Option<Snapshot>, counts: Counts, resets: nat, usage: Usage,
    broken: bool, gap: bool, recovery: bool, baseline: bool)

  function NewBucket(timestamp: int): Bucket {
    Bucket(timestamp, None, NO_COUNTS, 0, NO_USAGE, false, false, false, false)
  }

  function FlagsIn(b: Bucket): Flags {
    Flags(b.resets > 0, b.broken, b.gap, b.recovery, b.baseline)
  }

  function View(b: Bucket): BucketValue {
    BucketValue(b.timestamp, b.selected, Tally(b.counts, b.usage, FlagsIn(b)))
  }

  /** add: the counters, the reset mark and the selected row. */
  method AddSnapshot(bucket: Bucket, snapshot: Snapshot, reset: bool) returns (b: Bucket)
    ensures b.counts == JoinCounts(bucket.counts, CountsOf(StatusOf(snapshot)))
    ensures b.selected == if bucket.selected.None? || Newer(snapshot, bucket.selected.value)
                          then Some(snapshot) else bucket.selected
    ensures b.resets > 0 <==> bucket.resets > 0 || reset
    ensures b.broken <==> bucket.broken || reset || !StatusOf(snapshot).Success?
    ensures b == bucket.(counts := b.counts, selected := b.selected, resets := b.resets, broken := b.broken)
  {
    var counts := bucket.counts;
    counts := counts.(samples := counts.samples + 1);
    var broken, resets := bucket.broken, bucket.resets;
    match StatusOf(snapshot) {
      case Success => counts := counts.(successes := counts.successes + 1);
      case Unsupported => counts, broken := counts.(unsupported := counts.unsupported + 1), true;
      case Other => counts, broken := counts.(failures := counts.failures + 1), true;
    }
    if reset { resets, broken := resets + 1, true; }
    b := bucket.(counts := counts, resets := resets, broken := broken);
    if b.selected.None? || Newer(snapshot, b.selected.value) { b := b.(selected := Some(snapshot)); }
  }

  /** The consumption part of addObservation. */
  method AddUsage(usage: Usage, o: Observation) returns (u: Usage)
    ensures u == JoinUsage(usage, UsageOf(o))
  {
    u := usage;
    if o.consumption.None? { return; }
    if u.consumption.None? { u := u.(consumption := Some(0.0)); }
    u := u.(consumption := Some(u.consumption.value + o.consumption.value));
    u := u.(seconds := u.seconds + o.seconds, intervals := u.intervals + 1);
    if o.rate.Some? && (u.peak.None? || o.rate.value > u.peak.value) { u := u.(peak := o.rate); }
  }

  /** The boundary marks of addObservation, the reset and the status included. */
  method AddMarks(bucket: Bucket, ghost before: Bucket, o: Observation) returns (b: Bucket)
    requires bucket.resets > 0 <==> before.resets > 0 || o.reset
    requires bucket.broken <==> before.broken || o.reset || !StatusOf(o.snapshot).Success?
    requires bucket.gap == before.gap && bucket.recovery == before.recovery && bucket.baseline == before.baseline
    ensures FlagsIn(b) == JoinFlags(FlagsIn(before), Of(o).flags)
    ensures b == bucket.(broken := b.broken, gap := b.gap, recovery := b.recovery, baseline := b.baseline)
  {
    b := bucket.(broken := bucket.broken || o.broken, gap := bucket.gap || o.gap,
                 recovery := bucket.recovery || o.recovery, baseline := bucket.baseline || o.baseline);
  }

  method AddObservation(bucket: Bucket, o: Observation) returns (b: Bucket)
    ensures View(b) == AddTo(View(bucket), o)
  {
    b := AddSnapshot(bucket, o.snapshot, o.reset);
    b := AddMarks(b, bucket, o);
    var usage := AddUsage(b.usage, o);
    b := b.(usage := usage);
  }

  // ----- time buckets -----

  datatype Granularity = Raw | Minute | FiveMinutes | FifteenMinutes | Hour | Day | Week

  const DAY := 86400

  function Width(g: Granularity): (w: int)
    ensures w > 0
  {
    match g
    case Raw => 1
    case Minute => 60
    case FiveMinutes => 300
    case FifteenMinutes => 900
    case Hour => 3600
    case Day => DAY
    case Week => 7 * DAY
  }

  /** quotaHistoryBucketStart: truncate in local time; weeks start on Monday (day 0 of the Unix
      epoch is a Thursday). */
  function BucketStart(t: int, g: Granularity, offsetMinutes: int): int {
    var offset := offsetMinutes * 60;
    var local := t + offset;
    match g
    case Raw => t
    case Day => local / DAY * DAY - offset
    case Week => (local / DAY - (local / DAY + 3) % 7) * DAY - offset
    case _ => local / Width(g) * Width(g) - offset
  }

  /** How far the local clock is past a bucket boundary at time 0. */
  function Phase(g: Granularity, offsetMinutes: int): int {
    if g.Raw? then 0 else offsetMinutes * 60 + if g.Week? then 3 * DAY else 0
  }

  lemma WeekAligned(local: int)
    ensures (local / DAY - (local / DAY + 3) % 7) * DAY == (local + 3 * DAY) / (7 * DAY) * (7 * DAY) - 3 * DAY
  {
    var day := local / DAY;
    assert day - (day + 3) % 7 == (day + 3) / 7 * 7 - 3;
    assert (local + 3 * DAY) / DAY == day + 3;
    assert (local + 3 * DAY) / (7 * DAY) == (day + 3) / 7;
  }

  /** Every granularity cuts time into windows of its width. */
  lemma BucketAligned(t: int, g: Granularity, offsetMinutes: int)
    ensures BucketStart(t, g, offsetMinutes)
         == (t + Phase(g, offsetMinutes)) / Width(g) * Width(g) - Phase(g, offsetMinutes)
  {
    if g.Week? { WeekAligned(t + offsetMinutes * 60); }
  }

  /** A time lies in the window that begins at its bucket start, and the start in its own bucket. */
  lemma BucketWindow(t: int, g: Granularity, offsetMinutes: int)
    ensures var start := BucketStart(t, g, offsetMinutes);
      start <= t < start + Width(g) && BucketStart(start, g, offsetMinutes) == start
  {
    var p := Phase(g, offsetMinutes);
    var start := BucketStart(t, g, offsetMinutes);
    BucketAligned(t, g, offsetMinutes);
    BucketAligned(start, g, offsetMinutes);
    FloorWindow(t + p, Width(g));
    assert start + p == (t + p) / Width(g) * Width(g);
  }

  lemma InSeconds(g: Granularity, offsetMinutes: int)
    ensures Width(g) == match g
      case Raw => 1 case Minute => 60 case FiveMinutes => 300 case FifteenMinutes => 900 case Hour => 3600
      case Day => 86400 case Week => 604800
    ensures !g.Raw? ==> Phase(g, offsetMinutes) == 60 * offsetMinutes + if g.Week? then 259200 else 0
  {
  }

  /** In local time buckets start at multiples of their width; weeks start three days before the first
      Thursday of the Unix epoch, on Mondays. */
  lemma BucketLocal(t: int, g: Granularity, offsetMinutes: int)
    ensures var start, p, w := BucketStart(t, g, offsetMinutes), Phase(g, offsetMinutes), Width(g);
      start <= t < start + w && (start + p) % w == 0
  {
    var p, w := Phase(g, offsetMinutes), Width(g);
    BucketWindow(t, g, offsetMinutes);
    BucketAligned(t, g, offsetMinutes);
    MultipleMod((t + p) / w, w);
  }

  /** Buckets keep the order of time. */
  lemma BucketsInOrder(t: int, u: int, g: Granularity, offsetMinutes: int)
    requires t <= u
    ensures BucketStart(t, g, offsetMinutes) <= BucketStart(u, g, offsetMinutes)
  {
    BucketAligned(t, g, offsetMinutes);
    BucketAligned(u, g, offsetMinutes);
    FloorOrder(t + Phase(g, offsetMinutes), u + Phase(g, offsetMinutes), Width(g));
  }

  // ----- bucketing -----

  /** The bucket of one timestamp after the observations that fall into it. */
  function Fill(t: int, obs: seq<Observation>, start: int -> int): BucketValue {
    if obs == [] then Empty(t)
    else
      var b, o := Fill(t, obs[..|obs| - 1], start), obs[|obs| - 1];
      if start(o.snapshot.observedAt) == t then AddTo(b, o) else b
  }

  function KeyOf(start: int -> int): Observation -> int {
    (o: Observation) => start(o.snapshot.observedAt)
  }

  lemma {:induction false} FillTally(t: int, obs: seq<Observation>, start: int -> int)
    ensures Fill(t, obs, start).tally == GroupFold(Join, NOTHING, Of, KeyOf(start), t, obs)
    decreases |obs|
  {
    if obs != [] { FillTally(t, obs[..|obs| - 1], start); }
  }

  lemma {:induction false} FillTallies(ts: seq<int>, obs: seq<Observation>, start: int -> int, tallies: seq<Tally>)
    requires |tallies| == |ts| && forall i :: 0 <= i < |ts| ==> tallies[i] == Fill(ts[i], obs, start).tally
    ensures tallies == Groups(Join, NOTHING, Of, KeyOf(start), ts, obs)
  {
    forall i | 0 <= i < |ts| ensures tallies[i] == GroupFold(Join, NOTHING, Of, KeyOf(start), ts[i], obs) {
      FillTally(ts[i], obs, start);
    }
  }

  /** Whatever assigns times to buckets, the buckets together hold exactly what the observations hold. */
  lemma {:induction false} BucketingConserves(ts: seq<int>, obs: seq<Observation>, start: int -> int,
                                              tallies: seq<Tally>)
    requires Distinct(ts) && forall i :: 0 <= i < |obs| ==> start(obs[i].snapshot.observedAt) in ts
    requires |tallies| == |ts| && forall i :: 0 <= i < |ts| ==> tallies[i] == Fill(ts[i], obs, start).tally
    ensures JoinAll(tallies) == JoinAll(Each(Of, obs))
  {
    FillTallies(ts, obs, start, tallies);
    JoinLaws();
    GroupingConserves(Join, NOTHING, Of, KeyOf(start), ts, obs);
  }

  // ----- the selected row -----

  predicate KeyAtMost(a: Snapshot, b: Snapshot) {
    a.observedAt < b.observedAt || (a.observedAt == b.observedAt && a.id <= b.id)
  }

  predicate SameKey(a: Snapshot, b: Snapshot) {
    a.observedAt == b.observedAt && a.id == b.id
  }

  ghost predicate In(o: Observation, obs: seq<Observation>, t: int, start: int -> int) {
    o in obs && start(o.snapshot.observedAt) == t
  }

  /** The row a bucket shows is its greatest by (ObservedAt, Id). */
  lemma {:induction false} SelectedIsGreatest(t: int, obs: seq<Observation>, start: int -> int)
    ensures var s := Fill(t, obs, start).selected;
      && (s.None? ==> forall o :: !In(o, obs, t, start))
      && (s.Some? ==> (exists o :: In(o, obs, t, start) && o.snapshot == s.value)
                      && forall o :: In(o, obs, t, start) ==> KeyAtMost(o.snapshot, s.value))
    decreases |obs|
  {
    if obs != [] {
      var init, last := obs[..|obs| - 1], obs[|obs| - 1];
      SelectedIsGreatest(t, init, start);
      forall o ensures In(o, obs, t, start) <==> In(o, init, t, start) || (o == last && In(last, [last], t, start)) {
        assert obs == init + [last];
      }
      var s := Fill(t, init, start).selected;
      if s.Some? {
        var o :| In(o, init, t, start) && o.snapshot == s.value;
        assert In(o, obs, t, start);
      }
      if start(last.snapshot.observedAt) == t {
        assert In(last, [last], t, start) && In(last, obs, t, start);
      }
    }
  }

  /** It does not depend on the order of the observations, rows being unique by (ObservedAt, Id). */
  lemma {:induction false} SelectionIgnoresOrder(t: int, a: seq<Observation>, b: seq<Observation>, start: int -> int)
    requires forall o :: o in a <==> o in b
    requires forall o, p :: o in a && p in a && SameKey(o.snapshot, p.snapshot) ==> o.snapshot == p.snapshot
    ensures Fill(t, a, start).selected == Fill(t, b, start).selected
  {
    SelectedIsGreatest(t, a, start);
    SelectedIsGreatest(t, b, start);
    var r, s := Fill(t, a, start).selected, Fill(t, b, start).selected;
    assert forall o :: In(o, a, t, start) <==> In(o, b, t, start);
    if r.Some? && s.Some? {
      var o :| In(o, a, t, start) && o.snapshot == r.value;
      var p :| In(p, b, t, start) && p.snapshot == s.value;
      assert KeyAtMost(o.snapshot, s.value) && KeyAtMost(p.snapshot, r.value);
    }
  }
}
