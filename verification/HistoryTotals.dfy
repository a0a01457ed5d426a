/** What the tallies of a quota history say about the observations behind them, counter by counter
    (controller/channel-billing.go). */
module HistoryTotals {
  import opened Counting
  import opened Folding
  import opened History
  import opened HistoryPoints
  import opened HistoryLimits
  import opened Options

  // ----- one observation -----

  /** A success counts only while its balance is usable. */
  predicate Succeeded(o: Observation) {
    o.snapshot.status.Success? && o.snapshot.usable
  }

  predicate Unsupports(o: Observation) {
    o.snapshot.status.Unsupported?
  }

  predicate Fails(o: Observation) {
    !Succeeded(o) && !Unsupports(o)
  }

  predicate Consumes(o: Observation) {
    o.consumption.Some?
  }

  predicate Rates(o: Observation) {
    o.consumption.Some? && o.rate.Some?
  }

  function Consumption(obs: seq<Observation>): real {
    if obs == [] then 0.0
    else Consumption(obs[..|obs| - 1]) + if Consumes(obs[|obs| - 1]) then obs[|obs| - 1].consumption.value else 0.0
  }

  function Seconds(obs: seq<Observation>): int {
    if obs == [] then 0
    else Seconds(obs[..|obs| - 1]) + if Consumes(obs[|obs| - 1]) then obs[|obs| - 1].seconds else 0
  }

  function Total(obs: seq<Observation>): Tally {
    JoinAll(Each(Of, obs))
  }

  lemma TotalSnoc(obs: seq<Observation>)
    requires obs != []
    ensures Total(obs) == Join(Total(obs[..|obs| - 1]), Of(obs[|obs| - 1]))
  {
    assert Each(Of, obs)[..|obs| - 1] == Each(Of, obs[..|obs| - 1]);
  }

  // ----- all counters -----

  lemma {:induction false} CountsExactly(obs: seq<Observation>)
    ensures var c := Total(obs).counts;
      && c.samples == |obs| && c.successes == HowMany(obs, Succeeded)
      && c.unsupported == HowMany(obs, Unsupports) && c.failures == HowMany(obs, Fails)
  {
    if obs != [] {
      CountsExactly(obs[..|obs| - 1]);
      TotalSnoc(obs);
    }
  }

  lemma {:induction false} UsageExactly(obs: seq<Observation>)
    ensures var u := Total(obs).usage;
      && u.intervals == HowMany(obs, Consumes) && u.seconds == Seconds(obs)
      && u.consumption == (if HowMany(obs, Consumes) == 0 then None else Some(Consumption(obs)))
      && (HowMany(obs, Consumes) == 0 ==> Consumption(obs) == 0.0)
  {
    if obs != [] {
      UsageExactly(obs[..|obs| - 1]);
      TotalSnoc(obs);
    }
  }

  /** The peak is the greatest rate of an interval with consumption. */
  ghost predicate IsPeak(peak: Option<real>, obs: seq<Observation>) {
    && (peak.None? ==> forall i :: 0 <= i < |obs| ==> !Rates(obs[i]))
    && (peak.Some? ==> exists i :: 0 <= i < |obs| && Rates(obs[i]) && obs[i].rate == peak)
    && (peak.Some? ==> forall i :: 0 <= i < |obs| && Rates(obs[i]) ==> obs[i].rate.value <= peak.value)
  }

  lemma PeakSnoc(peak: Option<real>, obs: seq<Observation>)
    requires obs != [] && IsPeak(peak, obs[..|obs| - 1])
    ensures IsPeak(Peak(peak, UsageOf(obs[|obs| - 1]).peak), obs)
  {
    var init, last := obs[..|obs| - 1], obs[|obs| - 1];
    var more := Peak(peak, UsageOf(last).peak);
    if peak.Some? {
      var i :| 0 <= i < |init| && Rates(init[i]) && init[i].rate == peak;
      assert obs[i] == init[i];
    }
    if more.Some? { assert (Rates(last) && last.rate == more) || more == peak; }
    forall i | 0 <= i < |obs| && Rates(obs[i]) ensures more.Some? && obs[i].rate.value <= more.value {
      if i < |init| { assert obs[i] == init[i]; }
    }
  }

  lemma {:induction false} PeakExactly(obs: seq<Observation>)
    ensures IsPeak(Total(obs).usage.peak, obs)
  {
    if obs != [] {
      PeakExactly(obs[..|obs| - 1]);
      TotalSnoc(obs);
      PeakSnoc(Total(obs[..|obs| - 1]).usage.peak, obs);
    }
  }

  predicate Resets(o: Observation) {
    o.reset
  }

  /** Continuity ends at a marked break, a reset, or anything but a success. */
  predicate Breaks(o: Observation) {
    o.broken || o.reset || !Succeeded(o)
  }

  predicate Gaps(o: Observation) {
    o.gap
  }

  predicate Recovers(o: Observation) {
    o.recovery
  }

  predicate Rebases(o: Observation) {
    o.baseline
  }

  lemma {:induction false} FlagsExactly(obs: seq<Observation>)
    ensures var f := Total(obs).flags;
      && (f.reset <==> HowMany(obs, Resets) > 0) && (f.broken <==> HowMany(obs, Breaks) > 0)
      && (f.gap <==> HowMany(obs, Gaps) > 0) && (f.recovery <==> HowMany(obs, Recovers) > 0)
      && (f.baseline <==> HowMany(obs, Rebases) > 0)
  {
    if obs != [] {
      FlagsExactly(obs[..|obs| - 1]);
      TotalSnoc(obs);
    }
  }

  // ----- one bucket -----

  /** The observations of one bucket. */
  function Within(obs: seq<Observation>, t: int, start: int -> int): seq<Observation> {
    if obs == [] then []
    else
      var rest, o := Within(obs[..|obs| - 1], t, start), obs[|obs| - 1];
      if start(o.snapshot.observedAt) == t then rest + [o] else rest
  }

  lemma {:induction false} BucketIsTotal(t: int, obs: seq<Observation>, start: int -> int)
    ensures Fill(t, obs, start).tally == Total(Within(obs, t, start))
    decreases |obs|
  {
    if obs != [] {
      BucketIsTotal(t, obs[..|obs| - 1], start);
      var rest, all := Within(obs[..|obs| - 1], t, start), Within(obs, t, start);
      if all != rest {
        assert all[..|all| - 1] == rest;
        TotalSnoc(all);
      }
    }
  }

  /** A rate is consumption per minute of observed time. */
  ghost predicate PerMinute(rate: Option<real>, u: Usage) {
    && (rate.Some? <==> u.consumption.Some? && u.seconds > 0)
    && (rate.Some? ==> rate.value * (u.seconds as real) == 60.0 * u.consumption.value)
  }

  lemma Divided(c: real, s: real)
    requires s > 0.0
    ensures c / (s / 60.0) * s == 60.0 * c
  {
    var m := s / 60.0;
    assert s == 60.0 * m && m > 0.0;
    assert c / m * m == c;
    assert c / m * (60.0 * m) == 60.0 * (c / m * m);
  }

  lemma RateExactly(u: Usage)
    ensures PerMinute(RateOf(u), u)
  {
    if u.consumption.Some? && u.seconds > 0 { Divided(u.consumption.value, u.seconds as real); }
  }

  /** A point of the response: its bucket's start, the greatest row, the total of exactly the
      observations in the bucket, and their rate. */
  lemma PointExactly(p: Point, obs: seq<Observation>, start: int -> int)
    requires IsPoint(p, obs, start)
    ensures p.periodStart == p.timestamp && p.tally == Total(Within(obs, p.timestamp, start))
    ensures PerMinute(p.rate, p.tally.usage)
    ensures exists o :: In(o, obs, p.timestamp, start) && o.snapshot == p.selected
    ensures forall o :: In(o, obs, p.timestamp, start) ==> KeyAtMost(o.snapshot, p.selected)
  {
    var b := Fill(p.timestamp, obs, start);
    FillBalanced(p.timestamp, obs, start);
    BucketIsTotal(p.timestamp, obs, start);
    SelectedIsGreatest(p.timestamp, obs, start);
    RateExactly(b.tally.usage);
  }

  /** A compacted point ends where its group ends, begins where it begins, and has the group's rate. */
  lemma CompactedExactly(group: seq<Point>)
    requires group != []
    ensures var p := Compacted(group);
      && p.timestamp == group[|group| - 1].timestamp && p.selected == group[|group| - 1].selected
      && p.periodStart == group[0].periodStart && p.tally == JoinAll(EffectiveOf(group))
      && PerMinute(p.rate, p.tally.usage)
  {
    RateExactly(Compacted(group).tally.usage);
  }
}
