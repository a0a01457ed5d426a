/** Request and Allow on keys with reservations: what goes wrong whenever the discipline is not kept,
    and a form of it that a caller can check without knowing what the limiter has pruned. */
module RateLimitMixing {
  import opened RateLimit
  import opened RateLimitLog
  import opened RateLimitTheorems
  import opened Sets

  // ----- an undisciplined Request -----

  ghost predicate CommitsHeld(run: seq<Timed>, s: State, key: Key, now: int) {
    forall i :: 0 <= i < |run| ==>
      run[i].now == now && run[i].op.Commit? && run[i].op.r.key == key
      && run[i].op.r.id in Reservations(s, key)
  }

  lemma CommitOne(s: State, policy: Key -> Policy, key: Key, id: nat, now: int)
    requires policy(key).max > 0 && policy(key).duration > 0 && id != 0 && id in Reservations(s, key)
    ensures var s' := LimiterStep(s, policy, Timed(Commit(Reservation(key, id)), now)).0;
      && Reservations(s', key) == Reservations(s, key) - {id}
      && Prune(Queue(s', key), now, policy(key).duration) == Prune(Queue(s, key), now, policy(key).duration) + [now]
  {
    var s' := LimiterStep(s, policy, Timed(Commit(Reservation(key, id)), now)).0;
    CommitCell(s, Reservation(key, id), policy(key), now);
    assert Queue(s', key) == CellOf(s', key).queue && Reservations(s', key) == CellOf(s', key).held;
    PruneAppend(Queue(s, key), now, now, policy(key).duration);
  }

  /** Committing every stored reservation adds one event for each. */
  lemma {:induction false} CommitAll(s: State, policy: Key -> Policy, key: Key, now: int) returns (run: seq<Timed>)
    requires policy(key).max > 0 && policy(key).duration > 0 && 0 !in Reservations(s, key)
    ensures CommitsHeld(run, s, key, now)
    ensures |Prune(Queue(LimiterRun(s, policy, run).0, key), now, policy(key).duration)|
      == |Prune(Queue(s, key), now, policy(key).duration)| + |Reservations(s, key)|
    decreases |Reservations(s, key)|
  {
    run := [];
    var held := Reservations(s, key);
    if held != map[] {
      var id :| id in held;
      var t := Timed(Commit(Reservation(key, id)), now);
      CommitOne(s, policy, key, id, now);
      RemoveSize(held, id);
      var rest := CommitAll(LimiterStep(s, policy, t).0, policy, key, now);
      run := [t] + rest;
      assert run[1..] == rest;
    }
  }

  /** Whenever a Request is granted beside reservations that fill the window, committing them puts
      one event too many into it. */
  lemma MixedRequestOverfills(s: State, log: Log, policy: Key -> Policy, key: Key, now: int) returns (run: seq<Timed>)
    requires Simulates(s, log, policy, now) && !Disciplined(s, policy, Timed(Request(key), now))
    ensures var s' := LimiterStep(s, policy, Timed(Request(key), now)).0;
      CommitsHeld(run, s', key, now) &&
      |Prune(Queue(LimiterRun(s', policy, run).0, key), now, policy(key).duration)| == policy(key).max + 1
  {
    var p, c := policy(key), CellOf(s, key);
    var s' := LimiterStep(s, policy, Timed(Request(key), now)).0;
    assert KeySim(c, PageOf(log, key), p, now);
    RequestCell(s, key, p, now);
    assert Queue(s', key) == CellOf(s', key).queue && Reservations(s', key) == CellOf(s', key).held;
    PruneAppend(Prune(c.queue, now, p.duration), now, now, p.duration);
    PruneLater(c.queue, now, now, p.duration);
    run := CommitAll(s', policy, key, now);
  }

  // ----- an undisciplined Allow -----

  /** Whenever Allow strands a reservation, either nothing will ever sweep it, or a later sweep takes
      it away while it is still inside the window. */
  lemma MixedAllowStrands(s: State, log: Log, policy: Key -> Policy, key: Key, now: int)
    requires Simulates(s, log, policy, now) && !Disciplined(s, policy, Timed(Allow(key), now))
    ensures var s' := LimiterStep(s, policy, Timed(Allow(key), now)).0;
      Reservations(s', key) != map[] &&
      if key !in s'.expiresAt then forall later :: Reservations(CleanStep(s', later), key) == Reservations(s', key)
      else
        var later := s'.expiresAt[key];
        later > now && Reservations(CleanStep(s', later), key) == map[]
        && PruneReserved(Reservations(s', key), later, policy(key).duration) != map[]
  {
    var p, c := policy(key), CellOf(s, key);
    var s' := LimiterStep(s, policy, Timed(Allow(key), now)).0;
    var queue := Prune(c.queue, now, p.duration);
    assert KeySim(c, PageOf(log, key), p, now);
    AllowCell(s, key, p, now);
    assert Reservations(s', key) == CellOf(s', key).held == c.held;
    assert DeadlineOf(s', key) == CellOf(s', key).deadline;
    if queue == [] {
      forall later ensures Reservations(CleanStep(s', later), key) == c.held { CleanCell(s', later, key); }
    } else {
      var id :| id in c.held && Expiry(c.held[id], p.duration) > Expiry(Last(queue), p.duration);
      var later := Expiry(Last(queue), p.duration);
      CleanCell(s', later, key);
      LastIsLive(c, now, p.duration);
      assert id in PruneReserved(c.held, later, p.duration);
    }
  }

  lemma LastIsLive(c: Cell, now: int, duration: int)
    requires Past(c, now)
    ensures var queue := Prune(c.queue, now, duration); queue != [] ==> now - Last(queue) < duration
  {
    var queue := Prune(c.queue, now, duration);
    PruneFirst(c.queue, now, duration);
    PruneKeeps(c.queue, now, duration);
    if queue != [] { assert queue[0] in queue; }
  }

  // ----- a discipline for callers -----

  /** The unsettled reservations, lapsed or not, leave room for the event. */
  ghost predicate PageFits(l: Page, p: Policy, now: int) {
    Recent(l.events, now, p.duration) < p.max ==> |l.pending| + Recent(l.events, now, p.duration) < p.max
  }

  /** No unsettled reservation outlives the last event, which is still inside the window. */
  ghost predicate PageCovers(l: Page, p: Policy, now: int) {
    l.pending == map[]
    || (Recent(l.events, now, p.duration) > 0 && l.events != [] && Covers(l.pending, Last(l.events), p.duration))
  }

  /** What callers know: the events and the reservations they have not settled. */
  ghost predicate Cautious(log: Log, policy: Key -> Policy, t: Timed) {
    match t.op
    case Request(key) => PageFits(PageOf(log, key), policy(key), t.now)
    case Allow(key) => PageCovers(PageOf(log, key), policy(key), t.now)
    case _ => true
  }

  ghost predicate CautiousRun(log: Log, policy: Key -> Policy, run: seq<Timed>)
    decreases |run|
  {
    run == [] || (Cautious(log, policy, run[0]) && CautiousRun(LogStep(log, policy, run[0]).0, policy, run[1..]))
  }

  lemma FewerHeld(c: Cell, l: Page)
    requires c.held.Keys <= l.pending.Keys
    ensures |c.held| <= |l.pending|
  {
    Subset(c.held.Keys, l.pending.Keys);
    assert |c.held.Keys| == |c.held| && |l.pending.Keys| == |l.pending|;
  }

  lemma HeldCovered(c: Cell, l: Page, p: Policy, now: int)
    requires KeySim(c, l, p, now) && PageCovers(l, p, now)
    ensures AllowCovers(c, p, now)
  {
    var queue := Prune(c.queue, now, p.duration);
    CountsAgree(c, l, p, now);
    PruneKeeps(l.events, now, p.duration);
    LastIsLive(c, now, p.duration);
    if queue != [] {
      forall id | id in c.held ensures Expiry(c.held[id], p.duration) <= Expiry(Last(queue), p.duration) {
        if now - c.held[id] < p.duration { assert id in PruneReserved(l.pending, now, p.duration); }
      }
    }
  }

  lemma CautiousIsDisciplined(s: State, log: Log, policy: Key -> Policy, t: Timed)
    requires Simulates(s, log, policy, t.now) && Cautious(log, policy, t)
    ensures Disciplined(s, policy, t)
  {
    if t.op.Request? || t.op.Allow? {
      var c, l, p := CellOf(s, t.op.key), PageOf(log, t.op.key), policy(t.op.key);
      assert KeySim(c, l, p, t.now);
      CountsAgree(c, l, p, t.now);
      FewerHeld(c, l);
      if t.op.Allow? { HeldCovered(c, l, p, t.now); }
    }
  }

  lemma {:induction false} CautiousFrom(s: State, log: Log, policy: Key -> Policy, run: seq<Timed>, start: int)
    requires 0 <= start && Clocked(run, start) && Simulates(s, log, policy, start) && CautiousRun(log, policy, run)
    ensures DisciplinedRun(s, policy, run)
    decreases |run|
  {
    if run != [] {
      var t := run[0];
      SimulatesLater(s, log, policy, start, t.now);
      CautiousIsDisciplined(s, log, policy, t);
      StepRefines(s, log, policy, t);
      CautiousFrom(LimiterStep(s, policy, t).0, LogStep(log, policy, t).0, policy, run[1..], t.now);
    }
  }

  lemma {:induction false} CautiousEffective(log: Log, policy: Key -> Policy, run: seq<Timed>)
    requires CautiousRun(log, policy, run)
    ensures CautiousRun(log, policy, Effective(run))
    decreases |run|
  {
    if run != [] {
      CautiousEffective(LogStep(log, policy, run[0]).0, policy, run[1..]);
      if !Peeks(run[0]) { assert ([run[0]] + Effective(run[1..]))[1..] == Effective(run[1..]); }
    }
  }

  /** Callers who look only at their own events and unsettled reservations keep the discipline, with
      and without the Allow calls and cleaner ticks between. */
  lemma CautionSuffices(policy: Key -> Policy, run: seq<Timed>)
    requires Clocked(run, 0) && CautiousRun(EMPTY_LOG, policy, run)
    ensures DisciplinedRun(EMPTY, policy, run) && DisciplinedRun(EMPTY, policy, Effective(run))
  {
    CautiousFrom(EMPTY, EMPTY_LOG, policy, run, 0);
    CautiousEffective(EMPTY_LOG, policy, run);
    EffectiveMembers(run, 0);
    CautiousFrom(EMPTY, EMPTY_LOG, policy, Effective(run), 0);
  }

  // ----- concrete runs -----

  const K := Key("k")

  /** One limit per minute for every key. */
  function Always(max: int): Key -> Policy {
    _ => Policy(max, 60)
  }

  /** Request beside an unsettled reservation: the later Commit goes over the limit of one. */
  lemma MixingBreaksLimit()
    ensures var s1 := ReserveStep(EMPTY, K, 1, 60, 0).0;
      var (s2, ok) := RequestStep(s1, K, 1, 60, 0);
      && !Disciplined(s1, Always(1), Timed(Request(K), 0)) && ok
      && Queue(CommitStep(s2, Reservation(K, 1), 1, 60, 0), K) == [0, 0]
  {
    var s1 := ReserveStep(EMPTY, K, 1, 60, 0).0;
    assert Queue(s1, K) == [] && Reservations(s1, K) == map[1 := 0];
    var (s2, ok) := RequestStep(s1, K, 1, 60, 0);
    assert Queue(s2, K) == [0];
  }

  lemma StrandedCells()
    ensures var p := Policy(2, 60);
      && CellReserve(Cell([], map[], Never), p, 0, 1) == (Cell([], map[1 := 0], At(60)), true)
      && CellCommit(Cell([], map[1 := 0], At(60)), p, 0, 1) == Cell([0], map[], At(60))
      && CellReserve(Cell([0], map[], At(60)), p, 50, 2) == (Cell([0], map[2 := 50], At(110)), true)
      && CellAllow(Cell([0], map[2 := 50], At(110)), p, 55).0 == Cell([0], map[2 := 50], At(60))
      && !AllowCovers(Cell([0], map[2 := 50], At(110)), p, 55)
  {
    assert Prune([0], 50, 60) == [0] && Prune([0], 55, 60) == [0] && Prune([], 0, 60) == [];
    assert PruneReserved(map[], 0, 60) == map[] && PruneReserved(map[], 50, 60) == map[];
    assert map[1 := 0] - {1} == map[];
    assert [] + [0] == [0];
    assert 2 in map[2 := 50] && Expiry(50, 60) == 110 && Expiry(0, 60) == 60;
  }

  lemma Committed()
    ensures var s := CommitStep(ReserveStep(EMPTY, K, 2, 60, 0).0, Reservation(K, 1), 2, 60, 0);
      CellOf(s, K) == Cell([0], map[], At(60)) && s.reservationSeq == 1
  {
    var p := Policy(2, 60);
    StrandedCells();
    ReserveCell(EMPTY, K, p, 0);
    CommitCell(ReserveStep(EMPTY, K, 2, 60, 0).0, Reservation(K, 1), p, 0);
  }

  /** Reserve and Commit at 0, Reserve at 50. */
  lemma BeforeAllow()
    ensures var s := CommitStep(ReserveStep(EMPTY, K, 2, 60, 0).0, Reservation(K, 1), 2, 60, 0);
      CellOf(ReserveStep(s, K, 2, 60, 50).0, K) == Cell([0], map[2 := 50], At(110))
  {
    Committed();
    StrandedCells();
    ReserveCell(CommitStep(ReserveStep(EMPTY, K, 2, 60, 0).0, Reservation(K, 1), 2, 60, 0), K, Policy(2, 60), 50);
  }

  /** Allow beside an unsettled reservation: the key's expiry moves back to the last commit, the
      cleaner then sweeps a reservation that is still inside the window.  BeforeAllow reaches the state. */
  lemma AllowLosesReservation(s: State)
    requires CellOf(s, K) == Cell([0], map[2 := 50], At(110))
    ensures var s' := AllowStep(s, K, 2, 60, 55).0;
      && !Disciplined(s, Always(2), Timed(Allow(K), 55))
      && CellOf(s', K) == Cell([0], map[2 := 50], At(60)) && CellOf(CleanStep(s', 61), K) == Cell([], map[], Never)
  {
    StrandedCells();
    AllowCell(s, K, Policy(2, 60), 55);
    Swept(AllowStep(s, K, 2, 60, 55).0);
  }

  lemma Swept(s: State)
    requires CellOf(s, K) == Cell([0], map[2 := 50], At(60))
    ensures CellOf(CleanStep(s, 61), K) == Cell([], map[], Never)
  {
    CleanCell(s, 61, K);
  }

  /** Request at 61, Commit of the first reservation at 62; is the Request at 121 granted? */
  predicate AfterLapse(s: State) {
    var a := RequestStep(s, K, 1, 60, 61).0;
    RequestStep(CommitStep(a, Reservation(K, 1), 1, 60, 62), K, 1, 60, 121).1
  }

  lemma Windows()
    ensures Prune([61], 62, 60) == [61] && Prune([61], 121, 60) == [] && Prune([61, 62], 121, 60) == [62]
  {
    assert [61][1..] == [] && [61, 62][1..] == [62];
    assert Prune([], 121, 60) == [] && Prune([62], 121, 60) == [62];
  }

  /** The same on what is stored for the key. */
  lemma LapseCells(s: State)
    ensures var p := Policy(1, 60);
      AfterLapse(s) == CellRequest(CellCommit(CellRequest(CellOf(s, K), p, 61).0, p, 62, 1), p, 121).1
  {
    var p, r := Policy(1, 60), Reservation(K, 1);
    var a := RequestStep(s, K, 1, 60, 61).0;
    RequestCell(s, K, p, 61);
    CommitCell(a, r, p, 62);
    RequestCell(CommitStep(a, r, 1, 60, 62), K, p, 121);
  }

  lemma Lapse(c: Cell)
    requires c.queue == [] && (c.held == map[] || c.held == map[1 := 0])
    ensures var p := Policy(1, 60);
      CellRequest(CellCommit(CellRequest(c, p, 61).0, p, 62, 1), p, 121).1 <==> c.held == map[]
  {
    var p := Policy(1, 60);
    var a := CellRequest(c, p, 61).0;
    Windows();
    assert Prune([], 61, 60) == [] && [] + [61] == [61];
    assert a.queue == [61] && a.held == c.held;
    assert PruneReserved(map[], 62, 60) == map[];
    assert CellCommit(a, p, 62, 1).queue == if c.held == map[] then [61] else [61, 62];
  }

  /** The cleaner beside an undisciplined Request: one sweep of a lapsed reservation changes whether a
      Request a minute later is granted. */
  lemma CleanerIsVisible()
    ensures var s := ReserveStep(EMPTY, K, 1, 60, 0).0;
      AfterLapse(CleanStep(s, 61)) && !AfterLapse(s)
      && !Disciplined(s, Always(1), Timed(Request(K), 61))
  {
    var s := ReserveStep(EMPTY, K, 1, 60, 0).0;
    Reserved();
    CleanCell(s, 61, K);
    LapseCells(CleanStep(s, 61));
    LapseCells(s);
    Lapse(CellOf(CleanStep(s, 61), K));
    Lapse(CellOf(s, K));
  }

  lemma Reserved()
    ensures CellOf(ReserveStep(EMPTY, K, 1, 60, 0).0, K) == Cell([], map[1 := 0], At(60))
  {
    ReserveCell(EMPTY, K, Policy(1, 60), 0);
    assert PruneReserved(map[], 0, 60) == map[] && Prune([], 0, 60) == [];
  }
}
