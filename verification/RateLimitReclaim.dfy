/** Nothing is kept for ever: how long the limiter stores a key it no longer hears of, and what a
    call leaves behind. */
module RateLimitReclaim {
  import opened RateLimit
  import opened RateLimitLog
  import opened RateLimitTheorems

  /** How long an event or a reservation counts. */
  function Span(p: Policy): nat {
    if p.duration > 0 then p.duration else 0
  }

  /** No stored event lies in the future, and the expiry is at most one span ahead. */
  ghost predicate Timely(c: Cell, p: Policy, now: int) {
    && (forall x :: x in c.queue ==> x <= now)
    && (c.deadline.At? ==> c.deadline.time <= now + Span(p))
  }

  ghost predicate AllTimely(s: State, policy: Key -> Policy, now: int) {
    forall key :: Timely(CellOf(s, key), policy(key), now)
  }

  lemma ExpiryWithin(x: int, p: Policy, now: int)
    requires x <= now
    ensures Expiry(x, p.duration) <= now + Span(p)
  {
  }

  lemma RequestTimely(c: Cell, p: Policy, now: int)
    requires Timely(c, p, now)
    ensures Timely(CellRequest(c, p, now).0, p, now)
  {
    var queue := Prune(c.queue, now, p.duration);
    PruneKeeps(c.queue, now, p.duration);
    ExpiryWithin(now, p, now);
    if queue != [] {
      assert Last(queue) in queue;
      ExpiryWithin(Last(queue), p, now);
    }
  }

  lemma AllowTimely(c: Cell, p: Policy, now: int)
    requires Timely(c, p, now)
    ensures Timely(CellAllow(c, p, now).0, p, now)
  {
    var queue := Prune(c.queue, now, p.duration);
    PruneKeeps(c.queue, now, p.duration);
    if queue != [] {
      assert Last(queue) in queue;
      ExpiryWithin(Last(queue), p, now);
    }
  }

  lemma ReserveTimely(c: Cell, p: Policy, now: int, id: nat)
    requires Timely(c, p, now)
    ensures Timely(CellReserve(c, p, now, id).0, p, now)
  {
    PruneKeeps(c.queue, now, p.duration);
    ExpiryWithin(now, p, now);
  }

  lemma CommitTimely(c: Cell, p: Policy, now: int, id: nat)
    requires Timely(c, p, now)
    ensures Timely(CellCommit(c, p, now, id), p, now)
  {
    PruneKeeps(c.queue, now, p.duration);
    ExpiryWithin(now, p, now);
  }

  lemma OnlyKeyTimely(s: State, s': State, policy: Key -> Policy, key: Key, now: int)
    requires AllTimely(s, policy, now) && OnlyKey(s, s', key) && Timely(CellOf(s', key), policy(key), now)
    ensures AllTimely(s', policy, now)
  {
    forall k ensures Timely(CellOf(s', k), policy(k), now) {
      assert Timely(CellOf(s, k), policy(k), now);
    }
  }

  lemma AskTimely(s: State, policy: Key -> Policy, t: Timed)
    requires AllTimely(s, policy, t.now) && (t.op.Request? || t.op.Allow? || t.op.Reserve?)
    ensures AllTimely(LimiterStep(s, policy, t).0, policy, t.now)
  {
    var key := t.op.key;
    var p, c := policy(key), CellOf(s, key);
    assert Timely(c, p, t.now);
    if p.max > 0 {
      match t.op {
        case Request(_) => RequestCell(s, key, p, t.now); RequestTimely(c, p, t.now);
        case Allow(_) => AllowCell(s, key, p, t.now); AllowTimely(c, p, t.now);
        case Reserve(_) =>
          ReserveCell(s, key, p, t.now);
          ReserveTimely(c, p, t.now, s.reservationSeq + 1);
      }
      OnlyKeyTimely(s, LimiterStep(s, policy, t).0, policy, key, t.now);
    }
  }

  lemma SettleTimely(s: State, policy: Key -> Policy, t: Timed)
    requires AllTimely(s, policy, t.now) && (t.op.Commit? || t.op.Release?)
    ensures AllTimely(LimiterStep(s, policy, t).0, policy, t.now)
  {
    var r := t.op.r;
    var p, c := policy(r.key), CellOf(s, r.key);
    assert Timely(c, p, t.now);
    if r.id != 0 && (t.op.Release? || p.max > 0) {
      match t.op {
        case Commit(_) => CommitCell(s, r, p, t.now); CommitTimely(c, p, t.now, r.id);
        case Release(_) => ReleaseCell(s, r);
      }
      OnlyKeyTimely(s, LimiterStep(s, policy, t).0, policy, r.key, t.now);
    }
  }

  lemma StepTimely(s: State, policy: Key -> Policy, t: Timed)
    requires AllTimely(s, policy, t.now)
    ensures AllTimely(LimiterStep(s, policy, t).0, policy, t.now)
  {
    match t.op
    case Request(_) => AskTimely(s, policy, t);
    case Allow(_) => AskTimely(s, policy, t);
    case Reserve(_) => AskTimely(s, policy, t);
    case Commit(_) => SettleTimely(s, policy, t);
    case Release(_) => SettleTimely(s, policy, t);
    case Clean =>
      forall k ensures Timely(CellOf(CleanStep(s, t.now), k), policy(k), t.now) {
        assert Timely(CellOf(s, k), policy(k), t.now);
        CleanCell(s, t.now, k);
      }
  }

  lemma LaterTimely(s: State, policy: Key -> Policy, now: int, later: int)
    requires AllTimely(s, policy, now) && now <= later
    ensures AllTimely(s, policy, later)
  {
    forall k ensures Timely(CellOf(s, k), policy(k), later) { assert Timely(CellOf(s, k), policy(k), now); }
  }

  lemma {:induction false} TimelyFrom(s: State, policy: Key -> Policy, run: seq<Timed>, start: int, last: int)
    requires Clocked(run, start) && AllTimely(s, policy, start)
    requires start <= last && forall i :: 0 <= i < |run| ==> run[i].now <= last
    ensures AllTimely(LimiterRun(s, policy, run).0, policy, last)
    decreases |run|
  {
    if run == [] {
      LaterTimely(s, policy, start, last);
    } else {
      LaterTimely(s, policy, start, run[0].now);
      StepTimely(s, policy, run[0]);
      TimelyFrom(LimiterStep(s, policy, run[0]).0, policy, run[1..], run[0].now, last);
    }
  }

  /** After a disciplined run whose operations end at `last`, a sweep one span later leaves nothing of
      a key in any of the three maps. */
  lemma IdleKeysDisappear(policy: Key -> Policy, run: seq<Timed>, key: Key, last: int, now: int)
    requires Clocked(run, 0) && DisciplinedRun(EMPTY, policy, run)
    requires 0 <= last && (forall i :: 0 <= i < |run| ==> run[i].now <= last) && now >= last + Span(policy(key))
    ensures var s := CleanStep(LimiterRun(EMPTY, policy, run).0, now);
      key !in s.store && key !in s.reserved && key !in s.expiresAt
  {
    var end := LimiterRun(EMPTY, policy, run).0;
    TimelyFrom(EMPTY, policy, run, 0, last);
    AccountedFrom(EMPTY, policy, run);
    assert Timely(CellOf(end, key), policy(key), last);
  }

  // ----- what a call leaves behind -----

  /** After any call that counts, no expired event is stored for its key. */
  lemma ExpiredEventsGo(s: State, policy: Key -> Policy, t: Timed)
    requires t.op.Request? || t.op.Allow? || t.op.Reserve?
    requires policy(t.op.key).max > 0
    ensures var queue := Queue(LimiterStep(s, policy, t).0, t.op.key);
      queue == [] || t.now - queue[0] < policy(t.op.key).duration || queue == [t.now]
  {
    var key := t.op.key;
    var p, s' := policy(key), LimiterStep(s, policy, t).0;
    PruneFirst(Queue(s, key), t.now, p.duration);
    match t.op {
      case Request(_) => RequestCell(s, key, p, t.now);
      case Allow(_) => AllowCell(s, key, p, t.now);
      case Reserve(_) => ReserveCell(s, key, p, t.now);
    }
    assert Queue(s', key) == CellOf(s', key).queue && Queue(s, key) == CellOf(s, key).queue;
  }

  /** A Reserve leaves no reservation from before the window. */
  lemma ExpiredReservationsGo(s: State, key: Key, p: Policy, now: int, id: nat)
    requires p.max > 0
    ensures var held := Reservations(ReserveStep(s, key, p.max, p.duration, now).0, key);
      id in held ==> now - held[id] < p.duration || held[id] == now
  {
    var s' := ReserveStep(s, key, p.max, p.duration, now).0;
    ReserveCell(s, key, p, now);
    assert Reservations(s', key) == CellOf(s', key).held;
  }

  /** A Commit that comes late leaves neither an expired event nor an expired reservation. */
  lemma LateCommitPrunes(s: State, r: Reservation, p: Policy, now: int, id: nat)
    requires r.id != 0 && p.max > 0 && r.id !in Reservations(s, r.key)
    ensures var s' := CommitStep(s, r, p.max, p.duration, now);
      var queue, held := Queue(s', r.key), Reservations(s', r.key);
      && (queue == [] || now - queue[0] < p.duration || queue == [now])
      && (id in held ==> now - held[id] < p.duration)
  {
    var s' := CommitStep(s, r, p.max, p.duration, now);
    PruneFirst(Queue(s, r.key), now, p.duration);
    CommitCell(s, r, p, now);
    assert Queue(s, r.key) == CellOf(s, r.key).queue && Reservations(s, r.key) == CellOf(s, r.key).held;
    assert Queue(s', r.key) == CellOf(s', r.key).queue && Reservations(s', r.key) == CellOf(s', r.key).held;
  }

  /** Releasing the last reservation of a key without events forgets the key at once. */
  lemma LastReleaseForgets(s: State, r: Reservation)
    requires r.id != 0 && Reservations(s, r.key).Keys == {r.id} && Queue(s, r.key) == []
    ensures var s' := ReleaseStep(s, r); r.key !in s'.store && r.key !in s'.reserved && r.key !in s'.expiresAt
  {
    assert Reservations(s, r.key) - {r.id} == map[];
  }
}
