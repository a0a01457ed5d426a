/** What follows for whole runs of the limiter: sliding-window safety, invisibility of Allow and
    of the cleaner, and no leaked keys. */
module RateLimitTheorems {
  import opened RateLimit
  import opened RateLimitLog

  // ----- the limiter object itself -----

  lemma NextAnswer(s: State, policy: Key -> Policy, run: seq<Timed>, i: nat)
    requires i < |run|
    ensures var (s', a) := LimiterStep(s, policy, run[i]);
      LimiterRun(s, policy, run[i..]).1 == [a] + LimiterRun(s', policy, run[i + 1..]).1
  {
    assert run[i..][0] == run[i] && run[i..][1..] == run[i + 1..];
  }

  /** Driving a fresh limiter object through a run gives the answers of the log that never forgets. */
  method Drive(policy: Key -> Policy, run: seq<Timed>) returns (answers: seq<Answer>)
    requires Clocked(run, 0) && DisciplinedRun(EMPTY, policy, run)
    ensures answers == LogRun(EMPTY_LOG, policy, run).1
  {
    var limiter := new InMemoryRateLimiter();
    answers := [];
    for i := 0 to |run|
      invariant LimiterRun(EMPTY, policy, run).1 == answers + LimiterRun(limiter.View(), policy, run[i..]).1
    {
      NextAnswer(limiter.View(), policy, run, i);
      var answer := Perform(limiter, policy, run[i]);
      answers := answers + [answer];
    }
    LimiterMatchesLog(policy, run);
  }

  method Perform(limiter: InMemoryRateLimiter, policy: Key -> Policy, t: Timed) returns (answer: Answer)
    modifies limiter
    ensures (limiter.View(), answer) == LimiterStep(old(limiter.View()), policy, t)
  {
    match t.op
    case Request(_) => answer := PerformRequest(limiter, policy, t);
    case Allow(_) => answer := PerformAllow(limiter, policy, t);
    case Reserve(_) => answer := PerformReserve(limiter, policy, t);
    case Commit(_) => answer := PerformCommit(limiter, policy, t);
    case Release(_) => answer := PerformRelease(limiter, policy, t);
    case Clean => answer := PerformClean(limiter, policy, t);
  }

  method PerformRequest(limiter: InMemoryRateLimiter, policy: Key -> Policy, t: Timed) returns (answer: Answer)
    requires t.op.Request?
    modifies limiter
    ensures (limiter.View(), answer) == LimiterStep(old(limiter.View()), policy, t)
  {
    var p := policy(t.op.key);
    var ok := limiter.Request(t.op.key, p.max, p.duration, t.now);
    answer := Decision(ok);
  }

  method PerformAllow(limiter: InMemoryRateLimiter, policy: Key -> Policy, t: Timed) returns (answer: Answer)
    requires t.op.Allow?
    modifies limiter
    ensures (limiter.View(), answer) == LimiterStep(old(limiter.View()), policy, t)
  {
    var p := policy(t.op.key);
    var ok := limiter.Allow(t.op.key, p.max, p.duration, t.now);
    answer := Decision(ok);
  }

  method PerformReserve(limiter: InMemoryRateLimiter, policy: Key -> Policy, t: Timed) returns (answer: Answer)
    requires t.op.Reserve?
    modifies limiter
    ensures (limiter.View(), answer) == LimiterStep(old(limiter.View()), policy, t)
  {
    var p := policy(t.op.key);
    var r, ok := limiter.Reserve(t.op.key, p.max, p.duration, t.now);
    answer := Grant(r, ok);
  }

  method PerformCommit(limiter: InMemoryRateLimiter, policy: Key -> Policy, t: Timed) returns (answer: Answer)
    requires t.op.Commit?
    modifies limiter
    ensures (limiter.View(), answer) == LimiterStep(old(limiter.View()), policy, t)
  {
    var p := policy(t.op.r.key);
    limiter.Commit(t.op.r, p.max, p.duration, t.now);
    answer := Silent;
  }

  method PerformRelease(limiter: InMemoryRateLimiter, policy: Key -> Policy, t: Timed) returns (answer: Answer)
    requires t.op.Release?
    modifies limiter
    ensures (limiter.View(), answer) == LimiterStep(old(limiter.View()), policy, t)
  {
    limiter.Release(t.op.r);
    answer := Silent;
  }

  method PerformClean(limiter: InMemoryRateLimiter, policy: Key -> Policy, t: Timed) returns (answer: Answer)
    requires t.op.Clean?
    modifies limiter
    ensures (limiter.View(), answer) == LimiterStep(old(limiter.View()), policy, t)
  {
    limiter.ClearExpiredItemsAt(t.now);
    answer := Silent;
  }

  // ----- when a call is granted -----

  /** The positions of the events inside the window that ends now. */
  function Inside(events: seq<int>, now: int, duration: int): set<nat> {
    set i: nat | i < |events| && now - events[i] < duration
  }

  lemma {:induction false} RecentCounts(events: seq<int>, now: int, duration: int)
    ensures Recent(events, now, duration) == |Inside(events, now, duration)|
  {
    if events != [] {
      var n := |events| - 1;
      RecentCounts(events[..n], now, duration);
      assert Inside(events, now, duration)
        == Inside(events[..n], now, duration) + if now - events[n] < duration then {n} else {};
    }
  }

  /** The unsettled reservations made inside that window. */
  function Awaiting(pending: map<nat, int>, now: int, duration: int): set<nat> {
    set id | id in pending && now - pending[id] < duration
  }

  lemma LogGrants(log: Log, policy: Key -> Policy, t: Timed)
    requires t.op.Request? || t.op.Allow? || t.op.Reserve?
    ensures var p, answer := policy(t.op.key), LogStep(log, policy, t).1;
      var events := |Inside(Events(log, t.op.key), t.now, p.duration)|;
      var live := |Awaiting(Pending(log, t.op.key), t.now, p.duration)|;
      && (t.op.Reserve? ==> answer.Grant? && (answer.ok <==> p.max <= 0 || events + live < p.max))
      && (!t.op.Reserve? ==> answer.Decision? && (answer.ok <==> p.max <= 0 || events < p.max))
  {
    var pending, p := Pending(log, t.op.key), policy(t.op.key);
    RecentCounts(Events(log, t.op.key), t.now, p.duration);
    assert LiveIds(pending, t.now, p.duration) == Awaiting(pending, t.now, p.duration);
  }

  /** The limiter grants a Request or an Allow exactly while the window holds fewer events than the
      limit, and a Reserve exactly while events and reservations together are fewer. */
  lemma GrantedExactly(s: State, log: Log, policy: Key -> Policy, t: Timed)
    requires 0 <= t.now < MAX_INT64 && Simulates(s, log, policy, t.now)
    requires t.op.Request? || t.op.Allow? || t.op.Reserve?
    ensures var p, answer := policy(t.op.key), LimiterStep(s, policy, t).1;
      var events := |Inside(Events(log, t.op.key), t.now, p.duration)|;
      var live := |Awaiting(Pending(log, t.op.key), t.now, p.duration)|;
      && (t.op.Reserve? ==> answer.Grant? && (answer.ok <==> p.max <= 0 || events + live < p.max))
      && (!t.op.Reserve? ==> answer.Decision? && (answer.ok <==> p.max <= 0 || events < p.max))
  {
    StepRefines(s, log, policy, t);
    LogGrants(log, policy, t);
  }

  // ----- sliding-window safety -----

  /** Any max + 1 consecutive events span at least the duration. */
  ghost predicate Spread(events: seq<int>, p: Policy) {
    p.max > 0 ==> forall i :: 0 <= i < |events| - p.max ==> events[i + p.max] - events[i] >= p.duration
  }

  lemma {:induction false} RecentSuffix(events: seq<int>, bound: int, k: nat, now: int, duration: int)
    requires SortedTo(events, bound) && k < |events| && now - events[k] < duration
    ensures events[k] <= bound
    ensures Recent(events, now, duration) >= |events| - k
    decreases |events|
  {
    var init, x := events[..|events| - 1], Last(events);
    if k < |init| { RecentSuffix(init, x, k, now, duration); }
  }

  /** An event admitted while the window had room keeps the log spread out. */
  lemma SpreadAppend(events: seq<int>, p: Policy, now: int)
    requires p.max > 0 && SortedTo(events, now) && Spread(events, p)
    requires Recent(events, now, p.duration) < p.max
    ensures Spread(events + [now], p)
  {
    var all := events + [now];
    forall i | 0 <= i < |all| - p.max ensures all[i + p.max] - all[i] >= p.duration {
      if i + p.max == |events| && now - events[i] < p.duration {
        RecentSuffix(events, now, i, now, p.duration);
      }
    }
  }

  ghost predicate KeySafe(events: seq<int>, p: Policy, now: int) {
    SortedTo(events, now) && Spread(events, p)
  }

  ghost predicate LogSafe(log: Log, policy: Key -> Policy, now: int) {
    forall key :: KeySafe(Events(log, key), policy(key), now)
  }

  /** The log grows only by admitted events. */
  lemma Growth(log: Log, policy: Key -> Policy, t: Timed, key: Key)
    ensures var events' := Events(LogStep(log, policy, t).0, key);
      || events' == Events(log, key)
      || (events' == Events(log, key) + [t.now] && policy(key).max > 0 &&
          Recent(Events(log, key), t.now, policy(key).duration) < policy(key).max)
  {
  }

  lemma StepSafe(log: Log, policy: Key -> Policy, t: Timed)
    requires LogSafe(log, policy, t.now)
    ensures LogSafe(LogStep(log, policy, t).0, policy, t.now)
  {
    forall key ensures KeySafe(Events(LogStep(log, policy, t).0, key), policy(key), t.now) {
      var events := Events(log, key);
      assert KeySafe(events, policy(key), t.now);
      Growth(log, policy, t, key);
      if Events(LogStep(log, policy, t).0, key) != events {
        SortedAppend(events, t.now);
        SpreadAppend(events, policy(key), t.now);
      }
    }
  }

  lemma {:induction false} RunSafe(log: Log, policy: Key -> Policy, run: seq<Timed>, start: int)
    requires Clocked(run, start) && LogSafe(log, policy, start)
    ensures forall key :: Spread(Events(LogRun(log, policy, run).0, key), policy(key))
    decreases |run|
  {
    if run == [] {
      forall key ensures Spread(Events(log, key), policy(key)) {
        assert KeySafe(Events(log, key), policy(key), start);
      }
    }
    if run != [] {
      var t := run[0];
      forall key ensures KeySafe(Events(log, key), policy(key), t.now) {
        assert KeySafe(Events(log, key), policy(key), start);
        SortedLater(Events(log, key), start, t.now);
      }
      StepSafe(log, policy, t);
      RunSafe(LogStep(log, policy, t).0, policy, run[1..], t.now);
    }
  }

  /** The log itself never holds more than max events of a key in any window, whatever the run. */
  lemma LogWindowSafety(policy: Key -> Policy, run: seq<Timed>)
    requires Clocked(run, 0)
    ensures forall key :: Spread(Events(LogRun(EMPTY_LOG, policy, run).0, key), policy(key))
  {
    RunSafe(EMPTY_LOG, policy, run, 0);
  }

  function Times(queue: seq<int>, x: int): nat {
    if queue == [] then 0 else Times(queue[..|queue| - 1], x) + if Last(queue) == x then 1 else 0
  }

  lemma {:induction false} TimesTail(queue: seq<int>, x: int)
    requires queue != [] && queue[0] != x
    ensures Times(queue[1..], x) == Times(queue, x)
  {
    if |queue| > 1 {
      TimesTail(queue[..|queue| - 1], x);
      assert queue[..|queue| - 1][1..] == queue[1..][..|queue| - 2];
    }
  }

  lemma {:induction false} PruneKeepsNow(queue: seq<int>, now: int, duration: int)
    requires duration > 0
    ensures Times(Prune(queue, now, duration), now) == Times(queue, now)
  {
    if queue != [] && now - queue[0] >= duration {
      TimesTail(queue, now);
      PruneKeepsNow(queue[1..], now, duration);
    }
  }

  /** The step recorded an event: one more entry of this moment is in the key's stored queue. */
  function NewEvent(key: Key): (State, State, int) -> seq<int> {
    (s: State, s': State, now: int) => if Times(Queue(s', key), now) > Times(Queue(s, key), now) then [now] else []
  }

  /** Everything a run of the limiter yields, step by step. */
  function Yields(seen: (State, State, int) -> seq<int>, s: State, policy: Key -> Policy, run: seq<Timed>): seq<int>
    decreases |run|
  {
    if run == [] then []
    else
      var s' := LimiterStep(s, policy, run[0]).0;
      seen(s, s', run[0].now) + Yields(seen, s', policy, run[1..])
  }

  /** Every event the limiter records for the key. */
  function Recorded(policy: Key -> Policy, run: seq<Timed>, key: Key): seq<int> {
    Yields(NewEvent(key), EMPTY, policy, run)
  }

  lemma SameTimes(s: State, log: Log, policy: Key -> Policy, key: Key, now: int)
    requires Simulates(s, log, policy, now) && policy(key).duration > 0
    ensures Times(Queue(s, key), now) == Times(Events(log, key), now)
  {
    assert KeySim(CellOf(s, key), PageOf(log, key), policy(key), now);
    PruneKeepsNow(Queue(s, key), now, policy(key).duration);
    PruneKeepsNow(Events(log, key), now, policy(key).duration);
  }

  lemma OneMore(events: seq<int>, more: seq<int>, now: int)
    requires more == events || more == events + [now]
    ensures more == events + if Times(more, now) > Times(events, now) then [now] else []
  {
    assert (events + [now])[..|events|] == events;
  }

  /** A disciplined operation in related states. */
  ghost predicate Ordinary(s: State, log: Log, policy: Key -> Policy, t: Timed) {
    0 <= t.now < MAX_INT64 && Simulates(s, log, policy, t.now) && Disciplined(s, policy, t)
  }

  ghost predicate StepTold(seen: (State, State, int) -> seq<int>, s: State, log: Log, policy: Key -> Policy,
                           t: Timed, key: Key) {
    Events(LogStep(log, policy, t).0, key) == Events(log, key) + seen(s, LimiterStep(s, policy, t).0, t.now)
  }

  lemma StepRecorded(s: State, log: Log, policy: Key -> Policy, t: Timed, key: Key)
    requires Ordinary(s, log, policy, t) && policy(key).duration > 0
    ensures StepTold(NewEvent(key), s, log, policy, t, key)
  {
    StepRefines(s, log, policy, t);
    SameTimes(s, log, policy, key, t.now);
    SameTimes(LimiterStep(s, policy, t).0, LogStep(log, policy, t).0, policy, key, t.now);
    Growth(log, policy, t, key);
    OneMore(Events(log, key), Events(LogStep(log, policy, t).0, key), t.now);
  }

  /** Every step of the run tells what the log gains. */
  ghost predicate AllTold(seen: (State, State, int) -> seq<int>, s: State, log: Log, policy: Key -> Policy,
                          run: seq<Timed>, key: Key)
    decreases |run|
  {
    run == [] ||
    (StepTold(seen, s, log, policy, run[0], key)
     && AllTold(seen, LimiterStep(s, policy, run[0]).0, LogStep(log, policy, run[0]).0, policy, run[1..], key))
  }

  lemma Chain(events: seq<int>, next: seq<int>, end: seq<int>, recent: seq<int>, rest: seq<int>)
    requires next == events + recent && end == next + rest
    ensures end == events + (recent + rest)
  {
  }

  lemma {:induction false} ToldInAll(seen: (State, State, int) -> seq<int>, s: State, log: Log,
                                     policy: Key -> Policy, run: seq<Timed>, key: Key)
    requires AllTold(seen, s, log, policy, run, key)
    ensures Events(LogRun(log, policy, run).0, key) == Events(log, key) + Yields(seen, s, policy, run)
    decreases |run|
  {
    if run != [] {
      var s', log' := LimiterStep(s, policy, run[0]).0, LogStep(log, policy, run[0]).0;
      ToldInAll(seen, s', log', policy, run[1..], key);
      Chain(Events(log, key), Events(log', key), Events(LogRun(log', policy, run[1..]).0, key),
            seen(s, s', run[0].now), Yields(seen, s', policy, run[1..]));
    }
  }

  lemma {:induction false} RecordedFrom(s: State, log: Log, policy: Key -> Policy, run: seq<Timed>, start: int,
                                        key: Key)
    requires 0 <= start && Clocked(run, start) && Simulates(s, log, policy, start)
    requires DisciplinedRun(s, policy, run) && policy(key).duration > 0
    ensures AllTold(NewEvent(key), s, log, policy, run, key)
    decreases |run|
  {
    if run != [] {
      var t := run[0];
      SimulatesLater(s, log, policy, start, t.now);
      StepRefines(s, log, policy, t);
      StepRecorded(s, log, policy, t, key);
      RecordedFrom(LimiterStep(s, policy, t).0, LogStep(log, policy, t).0, policy, run[1..], t.now, key);
    }
  }

  lemma NewEventIs(key: Key, s: State, s': State, now: int)
    ensures NewEvent(key)(s, s', now) == [] || NewEvent(key)(s, s', now) == [now]
  {
  }

  lemma {:induction false} RecordedInOrder(s: State, policy: Key -> Policy, run: seq<Timed>, start: int, key: Key)
    requires Clocked(run, start)
    ensures InOrder(Yields(NewEvent(key), s, policy, run), start)
    decreases |run|
  {
    if run != [] {
      var s' := LimiterStep(s, policy, run[0]).0;
      RecordedInOrder(s', policy, run[1..], run[0].now, key);
      NewEventIs(key, s, s', run[0].now);
    }
  }

  ghost predicate InOrder(events: seq<int>, start: int) {
    && (forall i :: 0 <= i < |events| ==> start <= events[i])
    && (forall i, j :: 0 <= i < j < |events| ==> events[i] <= events[j])
  }

  lemma RecordedIsLogged(policy: Key -> Policy, run: seq<Timed>, key: Key)
    requires Clocked(run, 0) && DisciplinedRun(EMPTY, policy, run) && policy(key).duration > 0
    ensures Recorded(policy, run, key) == Events(LogRun(EMPTY_LOG, policy, run).0, key)
  {
    var events := Yields(NewEvent(key), EMPTY, policy, run);
    RecordedFrom(EMPTY, EMPTY_LOG, policy, run, 0, key);
    ToldInAll(NewEvent(key), EMPTY, EMPTY_LOG, policy, run, key);
    assert Events(EMPTY_LOG, key) == [] && [] + events == events;
  }

  /** Over every disciplined run, late commits included, the limiter records the log's events, and
      any max + 1 consecutive ones span at least the duration. */
  lemma WindowSafety(policy: Key -> Policy, run: seq<Timed>, key: Key)
    requires Clocked(run, 0) && DisciplinedRun(EMPTY, policy, run)
    ensures policy(key).duration > 0 ==> Recorded(policy, run, key) == Events(LogRun(EMPTY_LOG, policy, run).0, key)
    ensures Spread(Recorded(policy, run, key), policy(key))
  {
    if policy(key).duration > 0 {
      LogWindowSafety(policy, run);
      RecordedIsLogged(policy, run, key);
    } else {
      RecordedInOrder(EMPTY, policy, run, 0, key);
    }
  }

  /** Committed events plus in-flight reservations never exceed the limit at any moment of a run. */
  lemma {:induction false} OccupancyFrom(s: State, log: Log, policy: Key -> Policy, run: seq<Timed>, start: int,
                                         later: int)
    requires 0 <= start && Clocked(run, start) && Simulates(s, log, policy, start)
    requires DisciplinedRun(s, policy, run)
    requires start <= later && forall i :: 0 <= i < |run| ==> run[i].now <= later
    ensures forall key :: policy(key).max > 0 ==>
      var end := LogRun(log, policy, run).0;
      Recent(Events(end, key), later, policy(key).duration) + Live(Pending(end, key), later, policy(key).duration)
        <= policy(key).max
    decreases |run|
  {
    if run == [] {
      forall key | policy(key).max > 0
        ensures Recent(Events(log, key), later, policy(key).duration)
              + Live(Pending(log, key), later, policy(key).duration) <= policy(key).max
      {
        KeyLater(CellOf(s, key), PageOf(log, key), policy(key), start, later);
        CountsAgree(CellOf(s, key), PageOf(log, key), policy(key), later);
      }
    } else {
      var t := run[0];
      SimulatesLater(s, log, policy, start, t.now);
      StepRefines(s, log, policy, t);
      OccupancyFrom(LimiterStep(s, policy, t).0, LogStep(log, policy, t).0, policy, run[1..], t.now, later);
    }
  }

  lemma OccupancyNeverExceedsLimit(policy: Key -> Policy, run: seq<Timed>, key: Key, later: int)
    requires Clocked(run, 0) && DisciplinedRun(EMPTY, policy, run) && policy(key).max > 0
    requires 0 <= later && forall i :: 0 <= i < |run| ==> run[i].now <= later
    ensures var end := LogRun(EMPTY_LOG, policy, run).0;
      Recent(Events(end, key), later, policy(key).duration) + Live(Pending(end, key), later, policy(key).duration)
        <= policy(key).max
  {
    OccupancyFrom(EMPTY, EMPTY_LOG, policy, run, 0, later);
  }

  // ----- Allow and the cleaner are invisible -----

  predicate Peeks(t: Timed) {
    t.op.Allow? || t.op.Clean?
  }

  /** The run without its Allow calls and cleaner ticks. */
  function Effective(run: seq<Timed>): seq<Timed> {
    if run == [] then []
    else if Peeks(run[0]) then Effective(run[1..])
    else [run[0]] + Effective(run[1..])
  }

  /** The answers given to the remaining operations. */
  function EffectiveAnswers(run: seq<Timed>, answers: seq<Answer>): seq<Answer>
    requires |answers| == |run|
  {
    if run == [] then []
    else if Peeks(run[0]) then EffectiveAnswers(run[1..], answers[1..])
    else [answers[0]] + EffectiveAnswers(run[1..], answers[1..])
  }

  lemma {:induction false} AnswerCount(log: Log, policy: Key -> Policy, run: seq<Timed>)
    ensures |LogRun(log, policy, run).1| == |run|
    decreases |run|
  {
    if run != [] { AnswerCount(LogStep(log, policy, run[0]).0, policy, run[1..]); }
  }

  lemma {:induction false} EffectiveLog(log: Log, policy: Key -> Policy, run: seq<Timed>)
    ensures |LogRun(log, policy, run).1| == |run|
    ensures LogRun(log, policy, Effective(run)).0 == LogRun(log, policy, run).0
    ensures LogRun(log, policy, Effective(run)).1 == EffectiveAnswers(run, LogRun(log, policy, run).1)
    decreases |run|
  {
    AnswerCount(log, policy, run);
    if run != [] {
      var (log', a) := LogStep(log, policy, run[0]);
      EffectiveLog(log', policy, run[1..]);
      assert ([a] + LogRun(log', policy, run[1..]).1)[1..] == LogRun(log', policy, run[1..]).1;
      if !Peeks(run[0]) {
        assert ([run[0]] + Effective(run[1..]))[1..] == Effective(run[1..]);
      }
    }
  }

  lemma {:induction false} EffectiveMembers(run: seq<Timed>, start: int)
    requires Clocked(run, start)
    ensures Clocked(Effective(run), start)
  {
    if run != [] {
      EffectiveMembers(run[1..], run[0].now);
    }
  }

  /** Allow never changes the answer of any later call, and neither does the cleaner: dropping all
      of them from a run leaves every other answer of the limiter as it was.  Both runs must keep the
      discipline, since a sweep can make room that only expired reservations took. */
  lemma PeekingIsInvisible(policy: Key -> Policy, run: seq<Timed>)
    requires Clocked(run, 0) && DisciplinedRun(EMPTY, policy, run) && DisciplinedRun(EMPTY, policy, Effective(run))
    ensures |LimiterRun(EMPTY, policy, run).1| == |run|
    ensures LimiterRun(EMPTY, policy, Effective(run)).1 == EffectiveAnswers(run, LimiterRun(EMPTY, policy, run).1)
  {
    EffectiveLog(EMPTY_LOG, policy, run);
    EffectiveMembers(run, 0);
    LimiterMatchesLog(policy, run);
    LimiterMatchesLog(policy, Effective(run));
  }

  // ----- no key is leaked -----

  /** Every stored key has an expiry the cleaner can act on. */
  ghost predicate Accounted(s: State) {
    && (forall key :: key in s.store || key in s.reserved ==> key in s.expiresAt)
    && (forall key :: key in s.reserved ==> s.reserved[key] != map[])
  }

  lemma PruneKeyAccounted(s: State, key: Key, duration: int, now: int)
    requires Accounted(s)
    ensures Accounted(PruneKey(s, key, duration, now))
  {
  }

  lemma AppendAccounted(s: State, key: Key, duration: int, now: int)
    requires Accounted(s)
    ensures Accounted(Append(s, key, duration, now))
  {
  }

  lemma ReserveInAccounted(p: State, key: Key, max: int, duration: int, now: int)
    requires Accounted(p)
    ensures Accounted(ReserveIn(p, key, max, duration, now).0)
  {
    var id := p.reservationSeq + 1;
    assert id in Reservations(p, key)[id := now];
  }

  lemma ReserveAccounted(s: State, key: Key, max: int, duration: int, now: int)
    requires Accounted(s)
    ensures Accounted(ReserveStep(s, key, max, duration, now).0)
  {
    PruneKeyAccounted(s, key, duration, now);
    ReserveInAccounted(PruneKey(s, key, duration, now), key, max, duration, now);
  }

  lemma PutAccounted(s: State, key: Key, m: map<nat, int>)
    requires Accounted(s) && key in s.reserved
    ensures Accounted(s.(reserved := PutReserved(s.reserved, key, m)))
  {
  }

  lemma CommitAccounted(s: State, r: Reservation, max: int, duration: int, now: int)
    requires Accounted(s)
    ensures Accounted(CommitStep(s, r, max, duration, now))
  {
    if r.id in Reservations(s, r.key) {
      var left := s.reserved[r.key] - {r.id};
      PutAccounted(s, r.key, left);
      AppendAccounted(s.(reserved := PutReserved(s.reserved, r.key, left)), r.key, duration, now);
    } else {
      PruneKeyAccounted(s, r.key, duration, now);
      AppendAccounted(PruneKey(s, r.key, duration, now), r.key, duration, now);
    }
  }

  lemma AllowAccounted(s: State, key: Key, p: Policy, now: int)
    requires Accounted(s) && (p.max > 0 ==> AllowCovers(CellOf(s, key), p, now))
    ensures Accounted(AllowStep(s, key, p.max, p.duration, now).0)
  {
  }

  lemma ReleaseAccounted(s: State, r: Reservation)
    requires Accounted(s)
    ensures Accounted(ReleaseStep(s, r))
  {
  }

  lemma StepAccounted(s: State, policy: Key -> Policy, t: Timed)
    requires Accounted(s) && Disciplined(s, policy, t)
    ensures Accounted(LimiterStep(s, policy, t).0)
  {
    match t.op
    case Request(_) =>
    case Allow(key) => AllowAccounted(s, key, policy(key), t.now);
    case Reserve(key) => ReserveAccounted(s, key, policy(key).max, policy(key).duration, t.now);
    case Commit(r) => CommitAccounted(s, r, policy(r.key).max, policy(r.key).duration, t.now);
    case Release(r) => ReleaseAccounted(s, r);
    case Clean =>
  }

  lemma {:induction false} AccountedFrom(s: State, policy: Key -> Policy, run: seq<Timed>)
    requires DisciplinedRun(s, policy, run) && Accounted(s)
    ensures Accounted(LimiterRun(s, policy, run).0)
    decreases |run|
  {
    if run != [] {
      StepAccounted(s, policy, run[0]);
      AccountedFrom(LimiterStep(s, policy, run[0]).0, policy, run[1..]);
    }
  }

  /** After any disciplined run a sweep leaves only keys whose expiry lies ahead: an idle key disappears. */
  lemma SweepReclaims(policy: Key -> Policy, run: seq<Timed>, now: int)
    requires DisciplinedRun(EMPTY, policy, run)
    ensures var s := CleanStep(LimiterRun(EMPTY, policy, run).0, now);
      forall key :: key in s.store || key in s.reserved ==> key in s.expiresAt && s.expiresAt[key] > now
  {
    AccountedFrom(EMPTY, policy, run);
  }

  /** A second Commit of a settled reservation is not the no-op its test comment calls it: it
      records again exactly while the window has room. */
  lemma RecommitRecordsWhileRoom(s: State, log: Log, policy: Key -> Policy, r: Reservation, now: int)
    requires Simulates(s, log, policy, now)
    requires r.id != 0 && policy(r.key).max > 0 && r.id !in Pending(log, r.key)
    ensures var p := policy(r.key);
      var queue := Prune(Queue(s, r.key), now, p.duration);
      Queue(CommitStep(s, r, p.max, p.duration, now), r.key) ==
        if Recent(Events(log, r.key), now, p.duration) + Live(Pending(log, r.key), now, p.duration) < p.max
        then queue + [now] else queue
  {
    var p := policy(r.key);
    assert KeySim(CellOf(s, r.key), PageOf(log, r.key), p, now);
    CommitCell(s, r, p, now);
    CountsAgree(CellOf(s, r.key), PageOf(log, r.key), p, now);
    assert r.id !in CellOf(s, r.key).held;
  }
}
