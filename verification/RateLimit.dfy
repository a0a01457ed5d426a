/** The in-memory sliding-window limiter (common/rate-limit.go).

    `InMemoryRateLimiter` is the mutable structure: three maps, pruned lazily and swept by a
    background cleaner.  Each method is proved to compute a step function on the maps; the
    module RateLimitLog compares those steps with a log that never forgets anything. */
module RateLimit {
  const MAX_INT64: int := 0x7fff_ffff_ffff_ffff

  datatype Key = Key(name: string)

  /** What Reserve hands out; id 0 is the zero value that Commit and Release ignore. */
  datatype Reservation = Reservation(key: Key, id: nat)

  const NO_RESERVATION := Reservation(Key(""), 0)

  /** The limiter's fields as one value. */
  datatype State = State(
    store: map<Key, seq<int>>,
    expiresAt: map<Key, int>,
    reserved: map<Key, map<nat, int>>,
    reservationSeq: nat)

  const EMPTY := State(map[], map[], map[], 0)

  function Expiry(now: int, duration: int): int {
    if duration <= 0 then now
    else if duration > MAX_INT64 - now then MAX_INT64
    else now + duration
  }

  /** The queue without its leading expired entries. */
  function Prune(queue: seq<int>, now: int, duration: int): seq<int> {
    if queue != [] && now - queue[0] >= duration then Prune(queue[1..], now, duration) else queue
  }

  /** The reservations still inside the window. */
  function PruneReserved(m: map<nat, int>, now: int, duration: int): map<nat, int> {
    map id | id in m && now - m[id] < duration :: m[id]
  }

  function Queue(s: State, key: Key): seq<int> {
    if key in s.store then s.store[key] else []
  }

  function Reservations(s: State, key: Key): map<nat, int> {
    if key in s.reserved then s.reserved[key] else map[]
  }

  /** Stores m under key, or drops the key when nothing is left. */
  function PutReserved(all: map<Key, map<nat, int>>, key: Key, m: map<nat, int>): map<Key, map<nat, int>> {
    if |m| == 0 then all - {key} else all[key := m]
  }

  function RequestStep(s: State, key: Key, max: int, duration: int, now: int): (State, bool) {
    if max <= 0 then (s, true)
    else if key in s.store then
      var queue := Prune(s.store[key], now, duration);
      if |queue| < max then
        (s.(store := s.store[key := queue + [now]], expiresAt := s.expiresAt[key := Expiry(now, duration)]), true)
      else
        (s.(store := s.store[key := queue],
            expiresAt := s.expiresAt[key := Expiry(queue[|queue| - 1], duration)]), false)
    else
      (s.(store := s.store[key := [now]], expiresAt := s.expiresAt[key := Expiry(now, duration)]), true)
  }

  function AllowStep(s: State, key: Key, max: int, duration: int, now: int): (State, bool) {
    if max <= 0 || Queue(s, key) == [] then (s, true)
    else
      var queue := Prune(s.store[key], now, duration);
      if queue == [] then (s.(store := s.store - {key}, expiresAt := s.expiresAt - {key}), true)
      else
        (s.(store := s.store[key := queue],
            expiresAt := s.expiresAt[key := Expiry(queue[|queue| - 1], duration)]), |queue| < max)
  }

  /** Both prunes that Reserve and a late Commit perform before they count. */
  function PruneKey(s: State, key: Key, duration: int, now: int): State {
    s.(store := if key in s.store then s.store[key := Prune(s.store[key], now, duration)] else s.store,
       reserved := if key in s.reserved
                   then PutReserved(s.reserved, key, PruneReserved(s.reserved[key], now, duration))
                   else s.reserved)
  }

  function Append(s: State, key: Key, duration: int, now: int): State {
    s.(store := s.store[key := Queue(s, key) + [now]], expiresAt := s.expiresAt[key := Expiry(now, duration)])
  }

  /** Reserving in a state whose key has just been pruned. */
  function ReserveIn(p: State, key: Key, max: int, duration: int, now: int): (State, Reservation, bool) {
    var renewed := p.(expiresAt := p.expiresAt[key := Expiry(now, duration)]);
    if |Queue(p, key)| + |Reservations(p, key)| >= max then (renewed, NO_RESERVATION, false)
    else
      var id := p.reservationSeq + 1;
      (renewed.(reserved := p.reserved[key := Reservations(p, key)[id := now]], reservationSeq := id),
       Reservation(key, id), true)
  }

  function ReserveStep(s: State, key: Key, max: int, duration: int, now: int): (State, Reservation, bool) {
    if max <= 0 then (s, NO_RESERVATION, true) else ReserveIn(PruneKey(s, key, duration, now), key, max, duration, now)
  }

  function CommitStep(s: State, r: Reservation, max: int, duration: int, now: int): State {
    if r.id == 0 || max <= 0 then s
    else if r.id in Reservations(s, r.key) then
      Append(s.(reserved := PutReserved(s.reserved, r.key, s.reserved[r.key] - {r.id})), r.key, duration, now)
    else
      var p := PruneKey(s, r.key, duration, now);
      if |Queue(p, r.key)| + |Reservations(p, r.key)| < max then Append(p, r.key, duration, now) else p
  }

  function ReleaseStep(s: State, r: Reservation): State {
    if r.id == 0 || r.id !in Reservations(s, r.key) then s
    else
      var left := s.reserved[r.key] - {r.id};
      var s' := s.(reserved := PutReserved(s.reserved, r.key, left));
      if |left| == 0 && Queue(s, r.key) == []
      then s'.(store := s.store - {r.key}, expiresAt := s.expiresAt - {r.key})
      else s'
  }

  function Sweep(s: State, gone: set<Key>): State {
    s.(store := s.store - gone, expiresAt := s.expiresAt - gone, reserved := s.reserved - gone)
  }

  function Expired(expiresAt: map<Key, int>, now: int): set<Key> {
    set key | key in expiresAt && expiresAt[key] <= now
  }

  function CleanStep(s: State, now: int): State {
    Sweep(s, Expired(s.expiresAt, now))
  }

  lemma SweepOne(s: State, gone: set<Key>, key: Key)
    ensures Sweep(Sweep(s, gone), {key}) == Sweep(s, gone + {key})
  {
    var a, b := Sweep(Sweep(s, gone), {key}), Sweep(s, gone + {key});
    assert a.store == b.store;
    assert a.expiresAt == b.expiresAt;
    assert a.reserved == b.reserved;
  }

  /** pruneRateLimitQueue: an index moves past the expired prefix. */
  method PruneQueue(queue: seq<int>, now: int, duration: int) returns (rest: seq<int>)
    ensures rest == Prune(queue, now, duration)
  {
    var firstActive := 0;
    while firstActive < |queue| && now - queue[firstActive] >= duration
      invariant 0 <= firstActive <= |queue|
      invariant Prune(queue, now, duration) == Prune(queue[firstActive..], now, duration)
    {
      assert queue[firstActive..][1..] == queue[firstActive + 1..];
      firstActive := firstActive + 1;
    }
    rest := queue[firstActive..];
  }

  /** pruneReserved: expired entries are deleted one by one, the others counted. */
  method PruneReservations(m: map<nat, int>, now: int, duration: int) returns (rest: map<nat, int>, active: nat)
    ensures rest == PruneReserved(m, now, duration)
    ensures active == |rest|
  {
    rest, active := m, 0;
    var todo := m.Keys;
    while todo != {}
      invariant todo <= rest.Keys <= m.Keys
      invariant forall id :: id in rest ==> rest[id] == m[id]
      invariant forall id :: id in m && id !in todo ==> (id in rest <==> now - m[id] < duration)
      invariant active == |rest| - |todo|
      decreases |todo|
    {
      var id :| id in todo;
      todo := todo - {id};
      if now - m[id] >= duration {
        RemoveSize(rest, id);
        rest := rest - {id};
      } else {
        active := active + 1;
      }
    }
  }

  lemma RemoveSize(m: map<nat, int>, id: nat)
    ensures |m - {id}| == if id in m then |m| - 1 else |m|
  {
    var m' := m - {id};
    assert m'.Keys == m.Keys - {id};
    assert |m'| == |m'.Keys| && |m| == |m.Keys|;
  }

  class InMemoryRateLimiter {
    var store: map<Key, seq<int>>
    var expiresAt: map<Key, int>
    var reserved: map<Key, map<nat, int>>
    var reservationSeq: nat

    ghost function View(): State
      reads this
    {
      State(store, expiresAt, reserved, reservationSeq)
    }

    constructor ()
      ensures View() == EMPTY
    {
      store, expiresAt, reserved, reservationSeq := map[], map[], map[], 0;
    }

    method Request(key: Key, max: int, duration: int, now: int) returns (ok: bool)
      modifies this
      ensures (View(), ok) == RequestStep(old(View()), key, max, duration, now)
    {
      if max <= 0 { return true; }
      if key in store {
        var queue := PruneQueue(store[key], now, duration);
        if |queue| < max {
          store, expiresAt := store[key := queue + [now]], expiresAt[key := Expiry(now, duration)];
          return true;
        }
        store := store[key := queue];
        expiresAt := expiresAt[key := Expiry(queue[|queue| - 1], duration)];
        return false;
      }
      store, expiresAt := store[key := [now]], expiresAt[key := Expiry(now, duration)];
      return true;
    }

    method Allow(key: Key, max: int, duration: int, now: int) returns (ok: bool)
      modifies this
      ensures (View(), ok) == AllowStep(old(View()), key, max, duration, now)
    {
      if max <= 0 || key !in store || |store[key]| == 0 { return true; }
      var queue := PruneQueue(store[key], now, duration);
      if |queue| == 0 {
        store, expiresAt := store - {key}, expiresAt - {key};
        return true;
      }
      store := store[key := queue];
      expiresAt := expiresAt[key := Expiry(queue[|queue| - 1], duration)];
      return |queue| < max;
    }

    method CountActive(key: Key, duration: int, now: int) returns (active: nat)
      modifies this`store, this`reserved
      ensures View() == PruneKey(old(View()), key, duration, now)
      ensures active == |Queue(View(), key)| + |Reservations(View(), key)|
    {
      active := 0;
      if key in store {
        var queue := PruneQueue(store[key], now, duration);
        store := store[key := queue];
        active := |queue|;
      }
      if key in reserved {
        var rest, n := PruneReservations(reserved[key], now, duration);
        active := active + n;
        reserved := if |rest| == 0 then reserved - {key} else reserved[key := rest];
      }
    }

    method AppendCommitted(key: Key, duration: int, now: int)
      modifies this`store, this`expiresAt
      ensures View() == Append(old(View()), key, duration, now)
    {
      var queue := if key in store then store[key] else [];
      store, expiresAt := store[key := queue + [now]], expiresAt[key := Expiry(now, duration)];
    }

    method Reserve(key: Key, max: int, duration: int, now: int) returns (r: Reservation, ok: bool)
      modifies this
      ensures (View(), r, ok) == ReserveStep(old(View()), key, max, duration, now)
    {
      if max <= 0 { return NO_RESERVATION, true; }
      var active := CountActive(key, duration, now);
      expiresAt := expiresAt[key := Expiry(now, duration)];
      if active >= max { return NO_RESERVATION, false; }
      reservationSeq := reservationSeq + 1;
      var mine := if key in reserved then reserved[key] else map[];
      reserved := reserved[key := mine[reservationSeq := now]];
      return Reservation(key, reservationSeq), true;
    }

    method Commit(r: Reservation, max: int, duration: int, now: int)
      modifies this
      ensures View() == CommitStep(old(View()), r, max, duration, now)
    {
      if r.id == 0 || max <= 0 { return; }
      if r.key in reserved && r.id in reserved[r.key] {
        var rest := reserved[r.key] - {r.id};
        reserved := if |rest| == 0 then reserved - {r.key} else reserved[r.key := rest];
        AppendCommitted(r.key, duration, now);
        return;
      }
      var active := CountActive(r.key, duration, now);
      if active < max { AppendCommitted(r.key, duration, now); }
    }

    method Release(r: Reservation)
      modifies this
      ensures View() == ReleaseStep(old(View()), r)
    {
      if r.id == 0 || r.key !in reserved || r.id !in reserved[r.key] { return; }
      var rest := reserved[r.key] - {r.id};
      if |rest| != 0 {
        reserved := reserved[r.key := rest];
        return;
      }
      reserved := reserved - {r.key};
      if r.key !in store || |store[r.key]| == 0 {
        store, expiresAt := store - {r.key}, expiresAt - {r.key};
      }
    }

    method DeleteKey(key: Key)
      modifies this`store, this`expiresAt, this`reserved
      ensures View() == Sweep(old(View()), {key})
    {
      store, expiresAt, reserved := store - {key}, expiresAt - {key}, reserved - {key};
    }

    method ClearExpiredItemsAt(now: int)
      modifies this
      ensures View() == CleanStep(old(View()), now)
    {
      var todo := expiresAt.Keys;
      ghost var start, gone := View(), {};
      ghost var expired := Expired(expiresAt, now);
      while todo != {}
        invariant forall k :: k in todo ==> k in start.expiresAt && k !in gone
        invariant forall k :: k in gone ==> k in expired
        invariant forall k :: k in expired ==> k in gone || k in todo
        invariant View() == Sweep(start, gone)
        decreases |todo|
      {
        var key :| key in todo;
        todo := todo - {key};
        assert expiresAt[key] == start.expiresAt[key];
        if expiresAt[key] <= now {
          DeleteKey(key);
          SweepOne(start, gone, key);
          gone := gone + {key};
        }
      }
      assert gone == expired;
    }
  }
}
