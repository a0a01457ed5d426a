/** The limiter against a log that never forgets.

    `Log` keeps every recorded event and every unsettled reservation for ever.  Its rules are the
    documented ones, stated once over the window: Request and Reserve admit while the window has
    room, Commit records while the *other* occupants of the window leave room.  The theorems say
    that the pruned, swept maps of module RateLimit give exactly the log's answers over every
    run, and that the log itself never puts more than the limit into any window. */
module RateLimitLog {
  import opened RateLimit
  import opened Sets

  /** The limit a key is always used with. */
  datatype Policy = Policy(max: int, duration: int)

  datatype Log = Log(events: map<Key, seq<int>>, pending: map<Key, map<nat, int>>, issued: nat)

  const EMPTY_LOG := Log(map[], map[], 0)

  function Events(log: Log, key: Key): seq<int> {
    if key in log.events then log.events[key] else []
  }

  function Pending(log: Log, key: Key): map<nat, int> {
    if key in log.pending then log.pending[key] else map[]
  }

  /** How many of the events lie in the window that ends at now. */
  function Recent(events: seq<int>, now: int, duration: int): nat {
    if events == [] then 0
    else Recent(events[..|events| - 1], now, duration) +
         if now - events[|events| - 1] < duration then 1 else 0
  }

  /** How many of the reservations were made in the window that ends at now. */
  function Live(pending: map<nat, int>, now: int, duration: int): nat {
    |LiveIds(pending, now, duration)|
  }

  function LiveIds(pending: map<nat, int>, now: int, duration: int): set<nat> {
    set id | id in pending && now - pending[id] < duration
  }

  function Record(log: Log, key: Key, now: int): Log {
    log.(events := log.events[key := Events(log, key) + [now]])
  }

  function Forget(log: Log, r: Reservation): Log {
    log.(pending := log.pending[r.key := Pending(log, r.key) - {r.id}])
  }

  // ----- operations, runs and answers -----

  datatype Op = Request(key: Key) | Allow(key: Key) | Reserve(key: Key)
              | Commit(r: Reservation) | Release(r: Reservation) | Clean

  datatype Timed = Timed(op: Op, now: int)

  datatype Answer = Silent | Decision(ok: bool) | Grant(r: Reservation, ok: bool)

  function LogStep(log: Log, policy: Key -> Policy, t: Timed): (Log, Answer) {
    match t.op
    case Request(key) =>
      var p := policy(key);
      if p.max <= 0 then (log, Decision(true))
      else if Recent(Events(log, key), t.now, p.duration) < p.max then (Record(log, key, t.now), Decision(true))
      else (log, Decision(false))
    case Allow(key) =>
      var p := policy(key);
      (log, Decision(p.max <= 0 || Recent(Events(log, key), t.now, p.duration) < p.max))
    case Reserve(key) =>
      var p := policy(key);
      if p.max <= 0 then (log, Grant(NO_RESERVATION, true))
      else if Recent(Events(log, key), t.now, p.duration) + Live(Pending(log, key), t.now, p.duration) < p.max then
        var id := log.issued + 1;
        (log.(pending := log.pending[key := Pending(log, key)[id := t.now]], issued := id),
         Grant(Reservation(key, id), true))
      else (log, Grant(NO_RESERVATION, false))
    case Commit(r) =>
      var p := policy(r.key);
      if r.id == 0 || p.max <= 0 then (log, Silent)
      else
        var others := Forget(log, r);
        if Recent(Events(log, r.key), t.now, p.duration) + Live(Pending(others, r.key), t.now, p.duration) < p.max
        then (Record(others, r.key, t.now), Silent)
        else (others, Silent)
    case Release(r) => (if r.id == 0 then log else Forget(log, r), Silent)
    case Clean => (log, Silent)
  }

  function LimiterStep(s: State, policy: Key -> Policy, t: Timed): (State, Answer) {
    match t.op
    case Request(key) =>
      var (s', ok) := RequestStep(s, key, policy(key).max, policy(key).duration, t.now);
      (s', Decision(ok))
    case Allow(key) =>
      var (s', ok) := AllowStep(s, key, policy(key).max, policy(key).duration, t.now);
      (s', Decision(ok))
    case Reserve(key) =>
      var (s', r, ok) := ReserveStep(s, key, policy(key).max, policy(key).duration, t.now);
      (s', Grant(r, ok))
    case Commit(r) => (CommitStep(s, r, policy(r.key).max, policy(r.key).duration, t.now), Silent)
    case Release(r) => (ReleaseStep(s, r), Silent)
    case Clean => (CleanStep(s, t.now), Silent)
  }

  function LogRun(log: Log, policy: Key -> Policy, run: seq<Timed>): (Log, seq<Answer>)
    decreases |run|
  {
    if run == [] then (log, [])
    else
      var (log', a) := LogStep(log, policy, run[0]);
      var (end, rest) := LogRun(log', policy, run[1..]);
      (end, [a] + rest)
  }

  function LimiterRun(s: State, policy: Key -> Policy, run: seq<Timed>): (State, seq<Answer>)
    decreases |run|
  {
    if run == [] then (s, [])
    else
      var (s', a) := LimiterStep(s, policy, run[0]);
      var (end, rest) := LimiterRun(s', policy, run[1..]);
      (end, [a] + rest)
  }

  /** The clock of a run: Unix seconds that never go back. */
  ghost predicate Clocked(run: seq<Timed>, start: int) {
    && (forall i :: 0 <= i < |run| ==> start <= run[i].now < MAX_INT64)
    && (forall i, j :: 0 <= i < j < |run| ==> run[i].now <= run[j].now)
  }

  // ----- pruning is a normal form -----

  function Last(queue: seq<int>): int
    requires queue != []
  {
    queue[|queue| - 1]
  }

  /** Pruning again later forgets what the first pruning did. */
  lemma {:induction false} PruneLater(queue: seq<int>, now: int, later: int, duration: int)
    requires now <= later
    ensures Prune(Prune(queue, now, duration), later, duration) == Prune(queue, later, duration)
  {
    if queue != [] && now - queue[0] >= duration { PruneLater(queue[1..], now, later, duration); }
  }

  /** The pruned queue after an append depends only on the pruned queue before it. */
  lemma {:induction false} PruneAppend(queue: seq<int>, x: int, now: int, duration: int)
    ensures Prune(queue + [x], now, duration) ==
            if Prune(queue, now, duration) == [] && now - x >= duration then []
            else Prune(queue, now, duration) + [x]
  {
    if queue == [] {
      assert queue + [x] == [x];
      assert [x][1..] == [];
    } else if now - queue[0] >= duration {
      assert (queue + [x])[1..] == queue[1..] + [x];
      PruneAppend(queue[1..], x, now, duration);
    }
  }

  /** Pruning drops entries from the front only. */
  lemma {:induction false} PruneKeeps(queue: seq<int>, now: int, duration: int)
    ensures var rest := Prune(queue, now, duration);
      && (forall x :: x in rest ==> x in queue)
      && (rest != [] ==> queue != [] && Last(rest) == Last(queue))
  {
    if queue != [] && now - queue[0] >= duration { PruneKeeps(queue[1..], now, duration); }
  }

  lemma {:induction false} PruneFirst(queue: seq<int>, now: int, duration: int)
    ensures var rest := Prune(queue, now, duration); rest != [] ==> now - rest[0] < duration
  {
    if queue != [] && now - queue[0] >= duration { PruneFirst(queue[1..], now, duration); }
  }

  lemma {:induction false} PruneAll(queue: seq<int>, now: int, duration: int)
    requires forall x :: x in queue ==> now - x >= duration
    ensures Prune(queue, now, duration) == []
  {
    if queue != [] {
      assert queue[0] in queue && forall x :: x in queue[1..] ==> x in queue;
      PruneAll(queue[1..], now, duration);
    }
  }

  lemma PruneReservedLater(m: map<nat, int>, now: int, later: int, duration: int)
    requires now <= later
    ensures PruneReserved(PruneReserved(m, now, duration), later, duration) == PruneReserved(m, later, duration)
  {
  }

  lemma PruneReservedMinus(m: map<nat, int>, id: nat, now: int, duration: int)
    ensures PruneReserved(m - {id}, now, duration) == PruneReserved(m, now, duration) - {id}
  {
  }

  lemma PruneReservedPlus(m: map<nat, int>, id: nat, at: int, now: int, duration: int)
    ensures PruneReserved(m[id := at], now, duration) ==
            if now - at < duration then PruneReserved(m, now, duration)[id := at]
            else PruneReserved(m, now, duration) - {id}
  {
  }

  lemma PruneReservedSize(m: map<nat, int>, now: int, duration: int)
    ensures |PruneReserved(m, now, duration)| <= |m|
    ensures |PruneReserved(m, now, duration)| == Live(m, now, duration)
  {
    var rest := PruneReserved(m, now, duration);
    assert rest.Keys == LiveIds(m, now, duration);
    assert |rest| == |rest.Keys| && |m| == |m.Keys|;
    Subset(rest.Keys, m.Keys);
  }

  // ----- counting the log -----

  /** A history in order of time, none of it after the bound. */
  ghost predicate SortedTo(events: seq<int>, bound: int)
    decreases |events|
  {
    events == [] || (Last(events) <= bound && SortedTo(events[..|events| - 1], Last(events)))
  }

  lemma SortedLater(events: seq<int>, now: int, later: int)
    requires now <= later && SortedTo(events, now)
    ensures SortedTo(events, later)
  {
  }

  lemma SortedAppend(events: seq<int>, now: int)
    requires SortedTo(events, now)
    ensures SortedTo(events + [now], now)
  {
    assert (events + [now])[..|events + [now]| - 1] == events;
  }

  lemma {:induction false} PruneOld(events: seq<int>, bound: int, now: int, duration: int)
    requires SortedTo(events, bound) && now - bound >= duration
    ensures Prune(events, now, duration) == []
    decreases |events|
  {
    if events != [] {
      var init, x := events[..|events| - 1], Last(events);
      PruneOld(init, x, now, duration);
      PruneAppend(init, x, now, duration);
      assert events == init + [x];
    }
  }

  /** In a sorted history, what pruning leaves is what a count over everything finds. */
  lemma {:induction false} PruneCounts(events: seq<int>, bound: int, now: int, duration: int)
    requires SortedTo(events, bound)
    ensures |Prune(events, now, duration)| == Recent(events, now, duration)
    decreases |events|
  {
    if events != [] {
      var init, x := events[..|events| - 1], Last(events);
      PruneCounts(init, x, now, duration);
      PruneAppend(init, x, now, duration);
      assert events == init + [x];
      if now - x >= duration { PruneOld(init, x, now, duration); }
    }
  }

  // ----- the simulation relation -----

  datatype Deadline = Never | At(time: int)

  /** What the limiter stores for one key. */
  datatype Cell = Cell(queue: seq<int>, held: map<nat, int>, deadline: Deadline)

  function DeadlineOf(s: State, key: Key): Deadline {
    if key in s.expiresAt then At(s.expiresAt[key]) else Never
  }

  function CellOf(s: State, key: Key): Cell {
    Cell(Queue(s, key), Reservations(s, key), DeadlineOf(s, key))
  }

  /** What the log knows of one key. */
  datatype Page = Page(events: seq<int>, pending: map<nat, int>)

  function PageOf(log: Log, key: Key): Page {
    Page(Events(log, key), Pending(log, key))
  }

  /** Limiter and log agree on everything that is still inside the window. */
  ghost predicate SameWindow(c: Cell, l: Page, duration: int, now: int) {
    && Prune(c.queue, now, duration) == Prune(l.events, now, duration)
    && PruneReserved(c.held, now, duration) == PruneReserved(l.pending, now, duration)
    && c.held.Keys <= l.pending.Keys
  }

  /** Nothing stored lies in the future, the last entry of the queue is the latest, and every
      reservation has a number. */
  ghost predicate Past(c: Cell, now: int) {
    && (forall x :: x in c.queue ==> x <= now && x <= Last(c.queue))
    && (forall id :: id in c.held ==> c.held[id] <= now && id != 0)
  }

  /** `expiresAt` bounds every stored timestamp plus the duration; without it nothing is stored. */
  ghost predicate Bounded(c: Cell, duration: int) {
    match c.deadline
    case Never => c.queue == [] && c.held == map[]
    case At(time) =>
      && (forall x :: x in c.queue ==> Expiry(x, duration) <= time)
      && (forall id :: id in c.held ==> Expiry(c.held[id], duration) <= time)
  }

  /** Everything the limiter holds, expired reservations included, fits under the limit. */
  ghost predicate Capped(c: Cell, p: Policy, now: int) {
    p.max > 0 ==> |c.held| + |Prune(c.queue, now, p.duration)| <= p.max
  }

  ghost predicate KeySim(c: Cell, l: Page, p: Policy, now: int) {
    && SortedTo(l.events, now)
    && SameWindow(c, l, p.duration, now)
    && Past(c, now)
    && Bounded(c, p.duration)
    && Capped(c, p, now)
  }

  ghost predicate Simulates(s: State, log: Log, policy: Key -> Policy, now: int) {
    && s.reservationSeq == log.issued
    && forall key :: KeySim(CellOf(s, key), PageOf(log, key), policy(key), now)
  }

  // ----- what each kind of step does to one key -----

  lemma {:induction false} PruneShorter(queue: seq<int>, now: int, later: int, duration: int)
    requires now <= later
    ensures |Prune(queue, later, duration)| <= |Prune(queue, now, duration)|
  {
    if queue != [] && now - queue[0] >= duration {
      PruneShorter(queue[1..], now, later, duration);
    } else if queue != [] && later - queue[0] >= duration {
      PruneLength(queue[1..], later, duration);
    }
  }

  lemma {:induction false} PruneLength(queue: seq<int>, now: int, duration: int)
    ensures |Prune(queue, now, duration)| <= |queue|
  {
    if queue != [] && now - queue[0] >= duration { PruneLength(queue[1..], now, duration); }
  }

  lemma KeyLater(c: Cell, l: Page, p: Policy, now: int, later: int)
    requires now <= later && KeySim(c, l, p, now)
    ensures KeySim(c, l, p, later)
  {
    var d := p.duration;
    SortedLater(l.events, now, later);
    PruneLater(c.queue, now, later, d);
    PruneLater(l.events, now, later, d);
    PruneReservedLater(c.held, now, later, d);
    PruneReservedLater(l.pending, now, later, d);
    PruneShorter(c.queue, now, later, d);
  }

  function Pruned(c: Cell, duration: int, now: int): Cell {
    c.(queue := Prune(c.queue, now, duration), held := PruneReserved(c.held, now, duration))
  }

  /** What the limiter counts is what the log counts. */
  lemma CountsAgree(c: Cell, l: Page, p: Policy, now: int)
    requires KeySim(c, l, p, now)
    ensures |Prune(c.queue, now, p.duration)| == Recent(l.events, now, p.duration)
    ensures |PruneReserved(c.held, now, p.duration)| == Live(l.pending, now, p.duration) <= |c.held|
  {
    PruneCounts(l.events, now, now, p.duration);
    PruneReservedSize(l.pending, now, p.duration);
    PruneReservedSize(c.held, now, p.duration);
  }

  /** Dropping what has left the window keeps the relation. */
  lemma KeyPruned(c: Cell, l: Page, p: Policy, now: int)
    requires KeySim(c, l, p, now)
    ensures KeySim(Pruned(c, p.duration, now), l, p, now)
  {
    PruneLater(c.queue, now, now, p.duration);
    PruneReservedLater(c.held, now, now, p.duration);
    PruneKeeps(c.queue, now, p.duration);
    PruneReservedSize(c.held, now, p.duration);
  }

  /** Request and Allow drop expired events only. */
  lemma QueuePruned(c: Cell, l: Page, p: Policy, now: int)
    requires KeySim(c, l, p, now)
    ensures KeySim(c.(queue := Prune(c.queue, now, p.duration)), l, p, now)
  {
    PruneLater(c.queue, now, now, p.duration);
    PruneKeeps(c.queue, now, p.duration);
  }

  /** Nothing stored up to now outlives an entry made now. */
  lemma Renewed(c: Cell, l: Page, p: Policy, now: int)
    requires KeySim(c, l, p, now)
    ensures KeySim(c.(deadline := At(Expiry(now, p.duration))), l, p, now)
  {
  }

  /** No reservation outlives the expiry of this entry. */
  ghost predicate Covers(held: map<nat, int>, last: int, duration: int) {
    forall id :: id in held ==> Expiry(held[id], duration) <= Expiry(last, duration)
  }

  /** A queue is bounded by the expiry of its last entry exactly when that covers the reservations. */
  lemma RenewedByLast(c: Cell, l: Page, p: Policy, now: int)
    requires KeySim(c, l, p, now) && c.queue != []
    ensures KeySim(c.(deadline := At(Expiry(Last(c.queue), p.duration))), l, p, now)
      <==> Covers(c.held, Last(c.queue), p.duration)
  {
  }

  lemma NothingLasts(c: Cell, now: int, duration: int)
    requires Past(c, now) && duration <= 0
    ensures Prune(c.queue, now, duration) == []
  {
    PruneAll(c.queue, now, duration);
  }

  /** Recording the current second keeps the relation exactly when the window has room for it; with
      no duration there is no window. */
  lemma KeyRecorded(c: Cell, l: Page, p: Policy, now: int)
    requires p.max > 0 && KeySim(c, l, p, now)
    ensures KeySim(Cell(c.queue + [now], c.held, At(Expiry(now, p.duration))), l.(events := l.events + [now]), p, now)
      <==> p.duration <= 0 || |c.held| + |Prune(c.queue, now, p.duration)| < p.max
  {
    PruneAppend(c.queue, now, now, p.duration);
    PruneAppend(l.events, now, now, p.duration);
    SortedAppend(l.events, now);
    Appended(c, p.duration, now);
    if p.duration <= 0 { NothingLasts(c, now, p.duration); }
  }

  lemma Appended(c: Cell, duration: int, now: int)
    requires Past(c, now)
    ensures var c' := Cell(c.queue + [now], c.held, At(Expiry(now, duration))); Past(c', now) && Bounded(c', duration)
  {
    assert forall x :: x in c.queue + [now] ==> x in c.queue || x == now;
  }

  lemma UpdateSize(m: map<nat, int>, id: nat, at: int)
    ensures |m[id := at]| <= |m| + 1
  {
    var m' := m[id := at];
    assert m'.Keys == m.Keys + {id};
    assert |m'| == |m'.Keys| && |m| == |m.Keys|;
  }

  /** A new reservation keeps the relation when the window has room for it. */
  lemma KeyReserved(c: Cell, l: Page, p: Policy, now: int, id: nat)
    requires KeySim(c, l, p, now) && id != 0
    requires |c.held| + |Prune(c.queue, now, p.duration)| < p.max
    ensures KeySim(Cell(c.queue, c.held[id := now], At(Expiry(now, p.duration))),
                   l.(pending := l.pending[id := now]), p, now)
  {
    PruneReservedPlus(c.held, id, now, now, p.duration);
    PruneReservedPlus(l.pending, id, now, now, p.duration);
    UpdateSize(c.held, id, now);
    Held(c, p.duration, now, id);
  }

  lemma Held(c: Cell, duration: int, now: int, id: nat)
    requires Past(c, now) && id != 0
    ensures var c' := Cell(c.queue, c.held[id := now], At(Expiry(now, duration)));
      Past(c', now) && Bounded(c', duration)
  {
  }

  /** Settling a reservation keeps the relation whether or not the limiter still holds it. */
  lemma KeySettled(c: Cell, l: Page, p: Policy, now: int, id: nat)
    requires KeySim(c, l, p, now)
    ensures KeySim(c.(held := c.held - {id}), l.(pending := l.pending - {id}), p, now)
    ensures id in c.held ==> |c.held - {id}| == |c.held| - 1
  {
    PruneReservedMinus(c.held, id, now, p.duration);
    PruneReservedMinus(l.pending, id, now, p.duration);
    RemoveSize(c.held, id);
    if c.deadline.Never? { assert c.held - {id} == map[]; }
  }

  /** The cleaner deletes a key only after everything stored under it has left the window. */
  lemma KeyCleaned(c: Cell, l: Page, p: Policy, now: int)
    requires now < MAX_INT64 && KeySim(c, l, p, now)
    requires c.deadline.At? && c.deadline.time <= now
    ensures KeySim(Cell([], map[], Never), l, p, now)
  {
    forall x | x in c.queue ensures now - x >= p.duration {
      assert Expiry(x, p.duration) <= now;
    }
    PruneAll(c.queue, now, p.duration);
    assert PruneReserved(c.held, now, p.duration) == map[] by {
      forall id | id in c.held ensures now - c.held[id] >= p.duration {
        assert Expiry(c.held[id], p.duration) <= now;
      }
    }
  }

  // ----- the limiter's steps seen from one key -----

  function CellRequest(c: Cell, p: Policy, now: int): (Cell, bool) {
    var queue := Prune(c.queue, now, p.duration);
    if |queue| < p.max then (Cell(queue + [now], c.held, At(Expiry(now, p.duration))), true)
    else if queue == [] then (c, false)
    else (Cell(queue, c.held, At(Expiry(Last(queue), p.duration))), false)
  }

  function CellAllow(c: Cell, p: Policy, now: int): (Cell, bool) {
    var queue := Prune(c.queue, now, p.duration);
    if c.queue == [] then (c, true)
    else if queue == [] then (Cell([], c.held, Never), true)
    else (Cell(queue, c.held, At(Expiry(Last(queue), p.duration))), |queue| < p.max)
  }

  /** Taking a reservation in a pruned cell. */
  function CellTake(c: Cell, p: Policy, now: int, id: nat): (Cell, bool) {
    var q := c.(deadline := At(Expiry(now, p.duration)));
    if |q.queue| + |q.held| < p.max then (q.(held := q.held[id := now]), true) else (q, false)
  }

  function CellReserve(c: Cell, p: Policy, now: int, id: nat): (Cell, bool) {
    CellTake(Pruned(c, p.duration, now), p, now, id)
  }

  function CellCommit(c: Cell, p: Policy, now: int, id: nat): Cell {
    var full := At(Expiry(now, p.duration));
    if id in c.held then Cell(c.queue + [now], c.held - {id}, full)
    else
      var q := Pruned(c, p.duration, now);
      if |q.queue| + |q.held| < p.max then Cell(q.queue + [now], q.held, full) else q
  }

  function CellRelease(c: Cell, id: nat): Cell {
    if id !in c.held then c
    else if |c.held - {id}| == 0 && c.queue == [] then Cell([], c.held - {id}, Never)
    else c.(held := c.held - {id})
  }

  function CellClean(c: Cell, now: int): Cell {
    if c.deadline.At? && c.deadline.time <= now then Cell([], map[], Never) else c
  }

  /** Every key but one is stored exactly as before. */
  ghost predicate OnlyKey(s: State, s': State, key: Key) {
    forall k :: k != key ==> CellOf(s', k) == CellOf(s, k)
  }

  lemma RequestCell(s: State, key: Key, p: Policy, now: int)
    requires p.max > 0
    ensures var (s', ok) := RequestStep(s, key, p.max, p.duration, now);
      && OnlyKey(s, s', key) && s'.reservationSeq == s.reservationSeq
      && (CellOf(s', key), ok) == CellRequest(CellOf(s, key), p, now)
  {
    if key !in s.store {
      assert Prune([], now, p.duration) == [];
      assert [] + [now] == [now];
    }
  }

  lemma AllowCell(s: State, key: Key, p: Policy, now: int)
    requires p.max > 0
    ensures var (s', ok) := AllowStep(s, key, p.max, p.duration, now);
      && OnlyKey(s, s', key) && s'.reservationSeq == s.reservationSeq
      && (CellOf(s', key), ok) == CellAllow(CellOf(s, key), p, now)
  {
  }

  lemma PruneKeyCell(s: State, key: Key, duration: int, now: int)
    ensures CellOf(PruneKey(s, key, duration, now), key) == Pruned(CellOf(s, key), duration, now)
    ensures OnlyKey(s, PruneKey(s, key, duration, now), key)
  {
    var rest := PruneReserved(Reservations(s, key), now, duration);
    if |rest| == 0 { assert rest == map[]; }
    assert Prune([], now, duration) == [];
  }

  lemma PutReservedCell(s: State, key: Key, m: map<nat, int>)
    ensures CellOf(s.(reserved := PutReserved(s.reserved, key, m)), key) == CellOf(s, key).(held := m)
    ensures OnlyKey(s, s.(reserved := PutReserved(s.reserved, key, m)), key)
  {
    if |m| == 0 { assert m == map[]; }
  }

  lemma ReserveInCell(q: State, key: Key, p: Policy, now: int)
    ensures var (s', r, ok) := ReserveIn(q, key, p.max, p.duration, now);
      && OnlyKey(q, s', key) && s'.reservationSeq == (if ok then q.reservationSeq + 1 else q.reservationSeq)
      && (CellOf(s', key), ok) == CellTake(CellOf(q, key), p, now, q.reservationSeq + 1)
      && r == if ok then Reservation(key, q.reservationSeq + 1) else NO_RESERVATION
  {
  }

  lemma ReserveCell(s: State, key: Key, p: Policy, now: int)
    requires p.max > 0
    ensures var (s', r, ok) := ReserveStep(s, key, p.max, p.duration, now);
      && OnlyKey(s, s', key) && s'.reservationSeq == (if ok then s.reservationSeq + 1 else s.reservationSeq)
      && (CellOf(s', key), ok) == CellReserve(CellOf(s, key), p, now, s.reservationSeq + 1)
      && r == if ok then Reservation(key, s.reservationSeq + 1) else NO_RESERVATION
  {
    PruneKeyCell(s, key, p.duration, now);
    ReserveInCell(PruneKey(s, key, p.duration, now), key, p, now);
  }

  lemma CommitCell(s: State, r: Reservation, p: Policy, now: int)
    requires r.id != 0 && p.max > 0
    ensures var s' := CommitStep(s, r, p.max, p.duration, now);
      && OnlyKey(s, s', r.key) && s'.reservationSeq == s.reservationSeq
      && CellOf(s', r.key) == CellCommit(CellOf(s, r.key), p, now, r.id)
  {
    if r.id in Reservations(s, r.key) {
      PutReservedCell(s, r.key, Reservations(s, r.key) - {r.id});
    } else {
      PruneKeyCell(s, r.key, p.duration, now);
    }
  }

  lemma ForgetCell(s: State, key: Key)
    ensures var s' := s.(store := s.store - {key}, expiresAt := s.expiresAt - {key});
      OnlyKey(s, s', key) && CellOf(s', key) == CellOf(s, key).(queue := [], deadline := Never)
  {
  }

  lemma ReleaseCell(s: State, r: Reservation)
    requires r.id != 0
    ensures var s' := ReleaseStep(s, r);
      && OnlyKey(s, s', r.key) && s'.reservationSeq == s.reservationSeq
      && CellOf(s', r.key) == CellRelease(CellOf(s, r.key), r.id)
  {
    var left := Reservations(s, r.key) - {r.id};
    PutReservedCell(s, r.key, left);
    ForgetCell(s.(reserved := PutReserved(s.reserved, r.key, left)), r.key);
  }

  lemma CleanCell(s: State, now: int, key: Key)
    ensures CellOf(CleanStep(s, now), key) == CellClean(CellOf(s, key), now)
  {
  }

  // ----- the log's steps seen from one key -----

  function PageRequest(l: Page, p: Policy, now: int): (Page, bool) {
    if Recent(l.events, now, p.duration) < p.max then (l.(events := l.events + [now]), true) else (l, false)
  }

  function PageReserve(l: Page, p: Policy, now: int, id: nat): (Page, bool) {
    if Recent(l.events, now, p.duration) + Live(l.pending, now, p.duration) < p.max
    then (l.(pending := l.pending[id := now]), true) else (l, false)
  }

  function PageCommit(l: Page, p: Policy, now: int, id: nat): Page {
    var others := l.pending - {id};
    if Recent(l.events, now, p.duration) + Live(others, now, p.duration) < p.max
    then Page(l.events + [now], others) else Page(l.events, others)
  }

  // ----- one step, one key -----

  /** Request does not look at reservations: the event it records must leave them their places. */
  ghost predicate RequestFits(c: Cell, p: Policy, now: int) {
    var queue := Prune(c.queue, now, p.duration);
    p.duration > 0 && |queue| < p.max ==> |c.held| + |queue| < p.max
  }

  /** Allow moves the expiry back to the last entry, or drops it: that must not strand a reservation. */
  ghost predicate AllowCovers(c: Cell, p: Policy, now: int) {
    var queue := Prune(c.queue, now, p.duration);
    c.queue == [] || if queue == [] then c.held == map[] else Covers(c.held, Last(queue), p.duration)
  }

  /** Request always gives the log's answer, and keeps the relation exactly when its event fits. */
  lemma RequestExactly(c: Cell, l: Page, p: Policy, now: int)
    requires p.max > 0 && KeySim(c, l, p, now)
    ensures CellRequest(c, p, now).1 == PageRequest(l, p, now).1
    ensures KeySim(CellRequest(c, p, now).0, PageRequest(l, p, now).0, p, now) <==> RequestFits(c, p, now)
  {
    CountsAgree(c, l, p, now);
    QueuePruned(c, l, p, now);
    var q := c.(queue := Prune(c.queue, now, p.duration));
    PruneLater(c.queue, now, now, p.duration);
    if |q.queue| < p.max {
      KeyRecorded(q, l, p, now);
    } else {
      assert c.held == map[];
      RenewedByLast(q, l, p, now);
    }
  }

  /** Allow always gives the log's answer, and keeps the relation exactly when it strands nothing. */
  lemma AllowExactly(c: Cell, l: Page, p: Policy, now: int)
    requires p.max > 0 && KeySim(c, l, p, now)
    ensures CellAllow(c, p, now).1 <==> Recent(l.events, now, p.duration) < p.max
    ensures KeySim(CellAllow(c, p, now).0, l, p, now) <==> AllowCovers(c, p, now)
  {
    CountsAgree(c, l, p, now);
    QueuePruned(c, l, p, now);
    var q := c.(queue := Prune(c.queue, now, p.duration));
    if q.queue != [] { RenewedByLast(q, l, p, now); }
  }

  lemma KeyReserve(c: Cell, l: Page, p: Policy, now: int, id: nat)
    requires p.max > 0 && KeySim(c, l, p, now) && id != 0
    ensures CellReserve(c, p, now, id).1 == PageReserve(l, p, now, id).1
    ensures KeySim(CellReserve(c, p, now, id).0, PageReserve(l, p, now, id).0, p, now)
  {
    CountsAgree(c, l, p, now);
    KeyPruned(c, l, p, now);
    var q := Pruned(c, p.duration, now);
    PruneLater(c.queue, now, now, p.duration);
    if |q.queue| + |q.held| < p.max {
      KeyReserved(q, l, p, now, id);
    } else {
      Renewed(q, l, p, now);
    }
  }

  /** A stored reservation always finds its place, expired or not: the others leave room. */
  lemma KeyCommitHeld(c: Cell, l: Page, p: Policy, now: int, id: nat)
    requires p.max > 0 && KeySim(c, l, p, now) && id in c.held
    ensures PageCommit(l, p, now, id) == Page(l.events + [now], l.pending - {id})
    ensures KeySim(CellCommit(c, p, now, id), PageCommit(l, p, now, id), p, now)
  {
    KeySettled(c, l, p, now, id);
    var rest, others := c.(held := c.held - {id}), l.(pending := l.pending - {id});
    CountsAgree(rest, others, p, now);
    KeyRecorded(rest, others, p, now);
  }

  lemma KeyLost(c: Cell, l: Page, p: Policy, now: int, id: nat)
    requires KeySim(c, l, p, now) && id !in c.held
    ensures KeySim(c, l.(pending := l.pending - {id}), p, now)
  {
    assert c.held - {id} == c.held;
    KeySettled(c, l, p, now, id);
  }

  /** A reservation that was pruned, swept or never made is recorded only while there is room. */
  lemma KeyCommitLate(c: Cell, l: Page, p: Policy, now: int, id: nat)
    requires p.max > 0 && KeySim(c, l, p, now) && id !in c.held
    ensures KeySim(CellCommit(c, p, now, id), PageCommit(l, p, now, id), p, now)
  {
    KeyLost(c, l, p, now, id);
    var others := l.(pending := l.pending - {id});
    CountsAgree(c, others, p, now);
    KeyPruned(c, others, p, now);
    var q := Pruned(c, p.duration, now);
    PruneLater(c.queue, now, now, p.duration);
    if |q.queue| + |q.held| < p.max { KeyRecorded(q, others, p, now); }
  }

  lemma KeyRelease(c: Cell, l: Page, p: Policy, now: int, id: nat)
    requires KeySim(c, l, p, now)
    ensures KeySim(CellRelease(c, id), l.(pending := l.pending - {id}), p, now)
  {
    KeySettled(c, l, p, now, id);
    if id !in c.held { KeyLost(c, l, p, now, id); }
    else if |c.held - {id}| == 0 { assert c.held - {id} == map[]; }
  }

  // ----- the discipline -----

  /** The one thing a caller must see to: Request and Allow on a key with reservations. */
  ghost predicate Disciplined(s: State, policy: Key -> Policy, t: Timed) {
    match t.op
    case Request(key) => policy(key).max > 0 ==> RequestFits(CellOf(s, key), policy(key), t.now)
    case Allow(key) => policy(key).max > 0 ==> AllowCovers(CellOf(s, key), policy(key), t.now)
    case _ => true
  }

  ghost predicate DisciplinedRun(s: State, policy: Key -> Policy, run: seq<Timed>)
    decreases |run|
  {
    run == [] || (Disciplined(s, policy, run[0]) && DisciplinedRun(LimiterStep(s, policy, run[0]).0, policy, run[1..]))
  }

  // ----- one step of the whole limiter -----

  ghost predicate Agree(s: State, log: Log, policy: Key -> Policy, t: Timed) {
    var (s', a) := LimiterStep(s, policy, t);
    var (log', b) := LogStep(log, policy, t);
    a == b && Simulates(s', log', policy, t.now)
  }

  ghost predicate SameAnswer(s: State, log: Log, policy: Key -> Policy, t: Timed) {
    LimiterStep(s, policy, t).1 == LogStep(log, policy, t).1
  }

  ghost predicate OnlyPage(log: Log, log': Log, key: Key) {
    forall k :: k != key ==> PageOf(log', k) == PageOf(log, k)
  }

  lemma Lift(s: State, log: Log, s': State, log': Log, policy: Key -> Policy, key: Key, now: int)
    requires Simulates(s, log, policy, now)
    requires s'.reservationSeq == log'.issued
    requires OnlyKey(s, s', key) && OnlyPage(log, log', key)
    requires KeySim(CellOf(s', key), PageOf(log', key), policy(key), now)
    ensures Simulates(s', log', policy, now)
  {
    forall k ensures KeySim(CellOf(s', k), PageOf(log', k), policy(k), now) {
      if k != key { assert KeySim(CellOf(s, k), PageOf(log, k), policy(k), now); }
    }
  }

  lemma RequestPage(log: Log, policy: Key -> Policy, key: Key, now: int)
    requires policy(key).max > 0
    ensures var (log', b) := LogStep(log, policy, Timed(Request(key), now));
      && OnlyPage(log, log', key) && log'.issued == log.issued
      && b == Decision(PageRequest(PageOf(log, key), policy(key), now).1)
      && PageOf(log', key) == PageRequest(PageOf(log, key), policy(key), now).0
  {
  }

  lemma ReservePage(log: Log, policy: Key -> Policy, key: Key, now: int)
    requires policy(key).max > 0
    ensures var (log', b) := LogStep(log, policy, Timed(Reserve(key), now));
      var (l', ok) := PageReserve(PageOf(log, key), policy(key), now, log.issued + 1);
      && OnlyPage(log, log', key) && log'.issued == (if ok then log.issued + 1 else log.issued)
      && b == (if ok then Grant(Reservation(key, log.issued + 1), true) else Grant(NO_RESERVATION, false))
      && PageOf(log', key) == l'
  {
  }

  lemma CommitPage(log: Log, policy: Key -> Policy, r: Reservation, now: int)
    requires r.id != 0 && policy(r.key).max > 0
    ensures var (log', b) := LogStep(log, policy, Timed(Commit(r), now));
      && OnlyPage(log, log', r.key) && log'.issued == log.issued && b == Silent
      && PageOf(log', r.key) == PageCommit(PageOf(log, r.key), policy(r.key), now, r.id)
  {
  }

  lemma ForgetPage(log: Log, r: Reservation)
    ensures OnlyPage(log, Forget(log, r), r.key)
    ensures PageOf(Forget(log, r), r.key) == Page(Events(log, r.key), Pending(log, r.key) - {r.id})
  {
  }

  lemma RequestRefines(s: State, log: Log, policy: Key -> Policy, key: Key, now: int)
    requires 0 <= now < MAX_INT64 && Simulates(s, log, policy, now)
    ensures SameAnswer(s, log, policy, Timed(Request(key), now))
    ensures Agree(s, log, policy, Timed(Request(key), now)) <==> Disciplined(s, policy, Timed(Request(key), now))
  {
    var p, t := policy(key), Timed(Request(key), now);
    if p.max > 0 {
      var s', log' := LimiterStep(s, policy, t).0, LogStep(log, policy, t).0;
      RequestCell(s, key, p, now);
      RequestPage(log, policy, key, now);
      RequestExactly(CellOf(s, key), PageOf(log, key), p, now);
      if RequestFits(CellOf(s, key), p, now) { Lift(s, log, s', log', policy, key, now); }
      assert Simulates(s', log', policy, now) ==> KeySim(CellOf(s', key), PageOf(log', key), p, now);
    }
  }

  lemma AllowRefines(s: State, log: Log, policy: Key -> Policy, key: Key, now: int)
    requires 0 <= now < MAX_INT64 && Simulates(s, log, policy, now)
    ensures SameAnswer(s, log, policy, Timed(Allow(key), now))
    ensures Agree(s, log, policy, Timed(Allow(key), now)) <==> Disciplined(s, policy, Timed(Allow(key), now))
  {
    var p, t := policy(key), Timed(Allow(key), now);
    if p.max > 0 {
      var s' := LimiterStep(s, policy, t).0;
      AllowCell(s, key, p, now);
      AllowExactly(CellOf(s, key), PageOf(log, key), p, now);
      if AllowCovers(CellOf(s, key), p, now) { Lift(s, log, s', log, policy, key, now); }
      assert Simulates(s', log, policy, now) ==> KeySim(CellOf(s', key), PageOf(log, key), p, now);
    }
  }

  lemma ReserveLocal(s: State, l: Page, key: Key, p: Policy, now: int)
    requires p.max > 0 && KeySim(CellOf(s, key), l, p, now)
    ensures var (s', r, ok) := ReserveStep(s, key, p.max, p.duration, now);
      var (l', granted) := PageReserve(l, p, now, s.reservationSeq + 1);
      ok == granted && KeySim(CellOf(s', key), l', p, now)
  {
    ReserveCell(s, key, p, now);
    KeyReserve(CellOf(s, key), l, p, now, s.reservationSeq + 1);
  }

  lemma ReserveRefines(s: State, log: Log, policy: Key -> Policy, key: Key, now: int)
    requires 0 <= now < MAX_INT64 && Simulates(s, log, policy, now)
    ensures Agree(s, log, policy, Timed(Reserve(key), now))
  {
    var t := Timed(Reserve(key), now);
    if policy(key).max > 0 {
      ReserveCell(s, key, policy(key), now);
      ReserveLocal(s, PageOf(log, key), key, policy(key), now);
      ReservePage(log, policy, key, now);
      Lift(s, log, LimiterStep(s, policy, t).0, LogStep(log, policy, t).0, policy, key, now);
    }
  }

  lemma CommitRefines(s: State, log: Log, policy: Key -> Policy, r: Reservation, now: int)
    requires 0 <= now < MAX_INT64 && Simulates(s, log, policy, now)
    ensures Agree(s, log, policy, Timed(Commit(r), now))
  {
    var p, t := policy(r.key), Timed(Commit(r), now);
    if r.id != 0 && p.max > 0 {
      CommitCell(s, r, p, now);
      CommitPage(log, policy, r, now);
      if r.id in CellOf(s, r.key).held {
        KeyCommitHeld(CellOf(s, r.key), PageOf(log, r.key), p, now, r.id);
      } else {
        KeyCommitLate(CellOf(s, r.key), PageOf(log, r.key), p, now, r.id);
      }
      Lift(s, log, LimiterStep(s, policy, t).0, LogStep(log, policy, t).0, policy, r.key, now);
    }
  }

  lemma ReleaseRefines(s: State, log: Log, policy: Key -> Policy, r: Reservation, now: int)
    requires Simulates(s, log, policy, now)
    ensures Agree(s, log, policy, Timed(Release(r), now))
  {
    if r.id != 0 {
      ReleaseCell(s, r);
      ForgetPage(log, r);
      KeyRelease(CellOf(s, r.key), PageOf(log, r.key), policy(r.key), now, r.id);
      Lift(s, log, ReleaseStep(s, r), Forget(log, r), policy, r.key, now);
    }
  }

  lemma CleanRefines(s: State, log: Log, policy: Key -> Policy, now: int)
    requires 0 <= now < MAX_INT64 && Simulates(s, log, policy, now)
    ensures Agree(s, log, policy, Timed(Clean, now))
  {
    forall k ensures KeySim(CellOf(CleanStep(s, now), k), PageOf(log, k), policy(k), now) {
      CleanCell(s, now, k);
      var c := CellOf(s, k);
      if c.deadline.At? && c.deadline.time <= now {
        KeyCleaned(c, PageOf(log, k), policy(k), now);
      }
    }
  }

  /** In related states every operation gives the log's answer, and it leads to related states again
      exactly when it is disciplined. */
  lemma StepRefines(s: State, log: Log, policy: Key -> Policy, t: Timed)
    requires 0 <= t.now < MAX_INT64 && Simulates(s, log, policy, t.now)
    ensures SameAnswer(s, log, policy, t)
    ensures Agree(s, log, policy, t) <==> Disciplined(s, policy, t)
  {
    match t.op
    case Request(key) => RequestRefines(s, log, policy, key, t.now);
    case Allow(key) => AllowRefines(s, log, policy, key, t.now);
    case Reserve(key) => ReserveRefines(s, log, policy, key, t.now);
    case Commit(r) => CommitRefines(s, log, policy, r, t.now);
    case Release(r) => ReleaseRefines(s, log, policy, r, t.now);
    case Clean => CleanRefines(s, log, policy, t.now);
  }

  // ----- whole runs -----

  lemma SimulatesLater(s: State, log: Log, policy: Key -> Policy, now: int, later: int)
    requires now <= later && Simulates(s, log, policy, now)
    ensures Simulates(s, log, policy, later)
  {
    forall k ensures KeySim(CellOf(s, k), PageOf(log, k), policy(k), later) {
      KeyLater(CellOf(s, k), PageOf(log, k), policy(k), now, later);
    }
  }

  /** From related states, every disciplined run of the limiter gives the answers of the log. */
  lemma {:induction false} RunFrom(s: State, log: Log, policy: Key -> Policy, run: seq<Timed>, start: int)
    requires 0 <= start && Clocked(run, start) && Simulates(s, log, policy, start)
    requires DisciplinedRun(s, policy, run)
    ensures LimiterRun(s, policy, run).1 == LogRun(log, policy, run).1
    decreases |run|
  {
    if run != [] {
      var t := run[0];
      SimulatesLater(s, log, policy, start, t.now);
      StepRefines(s, log, policy, t);
      RunFrom(LimiterStep(s, policy, t).0, LogStep(log, policy, t).0, policy, run[1..], t.now);
    }
  }

  /** The main refinement: starting empty, pruning and sweeping are invisible. */
  lemma LimiterMatchesLog(policy: Key -> Policy, run: seq<Timed>)
    requires Clocked(run, 0) && DisciplinedRun(EMPTY, policy, run)
    ensures LimiterRun(EMPTY, policy, run).1 == LogRun(EMPTY_LOG, policy, run).1
  {
    RunFrom(EMPTY, EMPTY_LOG, policy, run, 0);
  }
}
