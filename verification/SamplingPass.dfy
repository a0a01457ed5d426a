/** The accounting of one sampling pass (controller/channel-billing.go).

    What the world answers for each candidate is given: whether its channel is enabled and free,
    how the query and the persistence end, and what the context says at each of the three places
    the pass looks at it.  The pass may stop at any of its exits. */
module SamplingPass {
  import opened Sampling
  import opened Options
  import opened Counting

  // ----- how many targets a pass considers -----

  /** One channel after synchronising its targets: `targets` in attempt order, with a flag saying
      whether the target still belongs to one of the selected keys, and the keys left outside. */
  datatype Plan<T> = Plan(targets: seq<(T, bool)>, excess: nat)

  function Known<T>(targets: seq<(T, bool)>): (r: seq<T>)
    ensures |r| <= |targets|
  {
    if targets == [] then []
    else Known(targets[..|targets| - 1]) + if targets[|targets| - 1].1 then [targets[|targets| - 1].0] else []
  }

  function Selected<T>(p: Plan<T>): (r: seq<T>)
    ensures |r| <= PER_CHANNEL && |r| <= |p.targets|
  {
    Known(if |p.targets| > PER_CHANNEL then p.targets[..PER_CHANNEL] else p.targets)
  }

  function TotalTargets<T>(plans: seq<Plan<T>>): nat {
    if plans == [] then 0
    else TotalTargets(plans[..|plans| - 1]) + |plans[|plans| - 1].targets| + plans[|plans| - 1].excess
  }

  /** How many targets still belong to a selected key. */
  function Flagged<T>(targets: seq<(T, bool)>): nat {
    if targets == [] then 0 else Flagged(targets[..|targets| - 1]) + if targets[|targets| - 1].1 then 1 else 0
  }

  /** The known targets, all of them, in their order. */
  lemma {:induction false} KnownExactly<T>(targets: seq<(T, bool)>, i: nat)
    requires i < |targets|
    ensures |Known(targets)| == Flagged(targets)
    ensures targets[i].1 ==>
      Flagged(targets[..i]) < Flagged(targets) && Known(targets)[Flagged(targets[..i])] == targets[i].0
  {
    var n := |targets| - 1;
    if i < n {
      KnownExactly(targets[..n], i);
      assert targets[..n][..i] == targets[..i];
    } else {
      KnownCount(targets[..n]);
    }
  }

  lemma {:induction false} KnownCount<T>(targets: seq<(T, bool)>)
    ensures |Known(targets)| == Flagged(targets)
  {
    if targets != [] { KnownCount(targets[..|targets| - 1]); }
  }

  /** A channel's candidates are the known ones among its first four targets, in their order. */
  lemma SelectedExactly<T>(p: Plan<T>, i: nat)
    requires i < |p.targets| && i < 4
    ensures var first := if |p.targets| <= 4 then p.targets else p.targets[..4];
      && |Selected(p)| == Flagged(first)
      && (first[i].1 ==> Flagged(first[..i]) < |Selected(p)| && Selected(p)[Flagged(first[..i])] == first[i].0)
  {
    KnownExactly(if |p.targets| <= 4 then p.targets else p.targets[..4], i);
  }

  /** The targets considered: all of every channel, also those no pass will reach, and its excess keys. */
  lemma {:induction false} TotalAdds<T>(a: seq<Plan<T>>, b: seq<Plan<T>>)
    ensures TotalTargets(a + b) == TotalTargets(a) + TotalTargets(b)
    ensures |b| == 1 ==> TotalTargets(b) == |b[0].targets| + b[0].excess
    decreases |b|
  {
    if b == [] {
      assert a + b == a;
    } else {
      var n := |b| - 1;
      TotalAdds(a, b[..n]);
      assert (a + b)[..|a + b| - 1] == a + b[..n];
    }
  }

  /** The schedule never holds more turns than there are candidates. */
  lemma {:induction false} TurnCount(lens: seq<nat>, round: nat, c: nat)
    requires c <= |lens|
    ensures |Turns(lens, round, c)| == HadAll(lens, |lens|, round, c)
    decreases round, c
  {
    if c > 0 {
      TurnCount(lens, round, c - 1);
      HadOneMore(lens, |lens|, round, c);
    } else if round > 0 {
      TurnCount(lens, round - 1, |lens|);
      HadNextRound(lens, |lens|, round);
    } else {
      HadNone(lens, |lens|);
    }
  }

  function HadAll(lens: seq<nat>, n: nat, round: nat, c: nat): nat
    requires n <= |lens|
  {
    if n == 0 then 0 else HadAll(lens, n - 1, round, c) + Had(lens[n - 1], n - 1, round, c)
  }

  lemma {:induction false} HadOneMore(lens: seq<nat>, n: nat, round: nat, c: nat)
    requires 0 < c <= |lens| && n <= |lens|
    ensures HadAll(lens, n, round, c) == HadAll(lens, n, round, c - 1) + if c <= n && round < lens[c - 1] then 1 else 0
  {
    if n > 0 { HadOneMore(lens, n - 1, round, c); }
  }

  lemma {:induction false} HadNextRound(lens: seq<nat>, n: nat, round: nat)
    requires n <= |lens| && round > 0
    ensures HadAll(lens, n, round, 0) == HadAll(lens, n, round - 1, |lens|)
  {
    if n > 0 { HadNextRound(lens, n - 1, round); }
  }

  lemma {:induction false} HadNone(lens: seq<nat>, n: nat)
    requires n <= |lens|
    ensures HadAll(lens, n, 0, 0) == 0
  {
    if n > 0 { HadNone(lens, n - 1); }
  }

  lemma {:induction false} HadAtMost<T>(plans: seq<Plan<T>>, lens: seq<nat>, n: nat, round: nat)
    requires |lens| == |plans| && n <= |plans|
    requires forall i :: 0 <= i < |plans| ==> lens[i] <= |plans[i].targets|
    ensures HadAll(lens, n, round, 0) <= TotalTargets(plans[..n])
  {
    if n > 0 {
      HadAtMost(plans, lens, n - 1, round);
      assert plans[..n][..n - 1] == plans[..n - 1] && plans[..n][n - 1] == plans[n - 1];
    }
  }

  /** The candidates of a pass in turn order and the number of targets it considers. */
  method BuildCandidates<T>(plans: seq<Plan<T>>) returns (candidates: seq<T>, totalTargets: nat)
    ensures totalTargets == TotalTargets(plans)
    ensures |candidates| <= totalTargets
    ensures var perChannel := seq(|plans|, i requires 0 <= i < |plans| => Selected(plans[i]));
      var turns := Turns(Lengths(perChannel), PER_CHANNEL, 0);
      && ValidTurns(perChannel, turns) && |candidates| == |turns|
      && forall i :: 0 <= i < |turns| ==> candidates[i] == perChannel[turns[i].channel][turns[i].round]
  {
    totalTargets := 0;
    var perChannel: seq<seq<T>> := [];
    for i := 0 to |plans|
      invariant totalTargets == TotalTargets(plans[..i])
      invariant perChannel == seq(i, j requires 0 <= j < i => Selected(plans[j]))
    {
      assert plans[..i + 1][..i] == plans[..i];
      totalTargets := totalTargets + (|plans[i].targets| + plans[i].excess);
      perChannel := perChannel + [Selected(plans[i])];
    }
    assert plans[..|plans|] == plans;
    candidates := Interleave(perChannel);
    TurnCount(Lengths(perChannel), PER_CHANNEL, 0);
    HadAtMost(plans, Lengths(perChannel), |plans|, PER_CHANNEL);
  }

  // ----- the pass -----

  datatype Context = Live | Canceled | DeadlineExceeded

  datatype Failure = Failure(timedOut: bool, unsupported: bool)

  datatype Attempt = Attempt(duplicate: bool, queryError: Option<Failure>)

  /** What happens when a candidate comes up. */
  datatype Candidate = Candidate(
    before: Context,              // ctx.Err() when the loop reaches it
    enabled: bool,                // the channel is enabled
    free: bool,                   // its polling lock could be taken
    attempt: Attempt,
    persistError: Option<bool>,   // a persistence error, and whether it is a deadline
    after: Context,               // ctx.Err() after the attempt
    wait: Context)                // what ends the pause before the next candidate

  datatype Error = Cancelled | Timeout | Other

  datatype Summary = Summary(
    considered: nat, sampled: nat, skipped: nat, failed: nat, duplicates: nat,
    timedOut: nat, unsupported: nat, persistFailed: nat,
    deferred: int, budgetExhausted: bool, sourceComplete: bool)

  const ZERO := Summary(0, 0, 0, 0, 0, 0, 0, 0, 0, false, false)
  const MAX_CHANNELS := 1000

  function Budget(maxChannels: int): int {
    if maxChannels <= 0 || maxChannels > MAX_CHANNELS then MAX_CHANNELS else maxChannels
  }

  function ErrorOf(c: Context): Error
    requires !c.Live?
  {
    if c.DeadlineExceeded? then Timeout else Cancelled
  }

  lemma BudgetMeans(maxChannels: int)
    ensures Budget(maxChannels) == if 1 <= maxChannels <= 1000 then maxChannels else 1000
  {
  }

  function Skips(c: Candidate): bool {
    !c.enabled || !c.free
  }

  // ----- counting outcomes -----

  predicate IsAttempt(c: Candidate) {
    c.enabled && c.free
  }

  predicate IsSkip(c: Candidate) {
    !(c.enabled && c.free)
  }

  predicate IsDuplicate(c: Candidate) {
    c.enabled && c.free && c.attempt.duplicate
  }

  predicate IsFailure(c: Candidate) {
    c.enabled && c.free && !c.attempt.duplicate && c.attempt.queryError.Some?
  }

  predicate IsSample(c: Candidate) {
    c.enabled && c.free && !c.attempt.duplicate && c.attempt.queryError.None?
  }

  predicate IsTimeout(c: Candidate) {
    IsFailure(c) && c.attempt.queryError.value.timedOut
  }

  predicate IsUnsupported(c: Candidate) {
    IsFailure(c) && c.attempt.queryError.value.unsupported
  }

  /** A write that failed: of an attempt, or of the note that the channel was busy. */
  predicate IsUnsaved(c: Candidate) {
    c.enabled && c.persistError.Some?
  }

  /** Every counter is the number of candidates with its outcome. */
  ghost predicate Accounts(s: Summary, attempts: nat, cs: seq<Candidate>) {
    && attempts == HowMany(cs, IsAttempt) && s.skipped == HowMany(cs, IsSkip)
    && s.sampled == HowMany(cs, IsSample) && s.failed == HowMany(cs, IsFailure)
    && s.duplicates == HowMany(cs, IsDuplicate) && s.timedOut == HowMany(cs, IsTimeout)
    && s.unsupported == HowMany(cs, IsUnsupported) && s.persistFailed == HowMany(cs, IsUnsaved)
  }

  lemma {:induction false} CountsAdd(cs: seq<Candidate>)
    ensures HowMany(cs, IsAttempt) == HowMany(cs, IsSample) + HowMany(cs, IsFailure) + HowMany(cs, IsDuplicate)
    ensures HowMany(cs, IsAttempt) + HowMany(cs, IsSkip) == |cs|
    ensures HowMany(cs, IsTimeout) <= HowMany(cs, IsFailure)
    ensures HowMany(cs, IsUnsupported) <= HowMany(cs, IsFailure)
  {
    if cs != [] { CountsAdd(cs[..|cs| - 1]); }
  }

  /** One more candidate. */
  function Tallied(s: Summary, c: Candidate): Summary {
    var unsaved := if c.enabled && c.persistError.Some? then 1 else 0;
    var t := if Skips(c) then s.(skipped := s.skipped + 1) else Count(s, c.attempt);
    t.(persistFailed := t.persistFailed + unsaved)
  }

  lemma AccountsNext(s: Summary, attempts: nat, cs: seq<Candidate>, c: Candidate)
    requires Accounts(s, attempts, cs)
    ensures Accounts(Tallied(s, c), if Skips(c) then attempts else attempts + 1, cs + [c])
  {
    assert (cs + [c])[..|cs + [c]| - 1] == cs;
  }

  // ----- how a pass ends -----

  /** Something seen at this candidate stands for the error. */
  ghost predicate Shows(c: Candidate, e: Error) {
    match e
    case Timeout =>
      || c.before.DeadlineExceeded? || c.after.DeadlineExceeded? || c.wait.DeadlineExceeded?
      || c.persistError == Some(true)
    case Cancelled => c.before.Canceled? || c.after.Canceled? || c.wait.Canceled?
    case Other => c.persistError == Some(false)
  }

  /** Nothing went wrong at this candidate but its own query. */
  ghost predicate Quiet(c: Candidate) {
    c.before.Live? && (c.enabled ==> c.persistError.None?) && (c.enabled && c.free ==> c.after.Live?)
  }

  /** An error has a cause among the candidates reached or in the context at the end; without an
      error there was none. */
  ghost predicate Explained(error: Option<Error>, cs: seq<Candidate>, processed: nat, atEnd: Context) {
    match error
    case Some(e) =>
      || (exists i :: 0 <= i < |cs| && i <= processed && Shows(cs[i], e))
      || (e == Timeout && atEnd.DeadlineExceeded?) || (e == Cancelled && atEnd.Canceled?)
    case None => atEnd.Live? && processed <= |cs| && forall i :: 0 <= i < processed ==> Quiet(cs[i])
  }

  /** The deferred function that completes the summary on every exit. */
  function Complete(s: Summary, attempts: nat, budget: int, error: Option<Error>, perChannelExhausted: bool,
                    candidateLimit: bool): Summary
  {
    var rest := s.considered - s.sampled - s.failed - s.duplicates;
    var deferred := if rest < 0 then 0 else rest;
    var exhausted := error == Some(Timeout) || (deferred > 0 && (attempts >= budget || perChannelExhausted));
    s.(deferred := deferred, budgetExhausted := exhausted,
       sourceComplete := error.None? && deferred == 0 && !exhausted && !candidateLimit)
  }

  datatype Fetch =
    | Failed(error: Error)
    | Fetched(candidates: seq<Candidate>, totalTargets: nat, limitReached: bool, atEnd: Context)

  /** One pass: the summary, the error it ends with, how many candidates it went through and how
      many credential attempts that took. */
  method RunPass(maxChannels: int, fetch: Fetch, paused: bool)
    returns (s: Summary, error: Option<Error>, processed: nat, attempts: nat)
    requires fetch.Fetched? ==> |fetch.candidates| <= fetch.totalTargets
    ensures fetch.Failed? ==> error == Some(fetch.error) && processed == 0 && s.considered == 0 && !s.sourceComplete
    ensures fetch.Fetched? ==> processed <= |fetch.candidates| && s.considered == fetch.totalTargets
    // the counters are those of the candidates gone through
    ensures fetch.Fetched? ==> Accounts(s, attempts, fetch.candidates[..processed])
    ensures fetch.Fetched? ==> Explained(error, fetch.candidates, processed, fetch.atEnd)
    // every attempt has one outcome, and the budget holds
    ensures s.sampled + s.failed + s.duplicates == attempts <= Budget(maxChannels)
    ensures attempts + s.skipped == processed <= s.considered
    ensures s.timedOut <= s.failed && s.unsupported <= s.failed
    // the clamp never fires
    ensures s.deferred == s.considered - attempts >= 0
    // a pass stops early only for the budget or for an error
    ensures fetch.Fetched? && error.None? ==> processed == |fetch.candidates| || attempts == Budget(maxChannels)
    ensures s.sourceComplete <==>
      fetch.Fetched? && error.None? && attempts == fetch.totalTargets && !fetch.limitReached
    ensures s.budgetExhausted <==>
      error == Some(Timeout) || (fetch.Fetched? && attempts < fetch.totalTargets &&
        (attempts == Budget(maxChannels) || |fetch.candidates| < fetch.totalTargets))
    ensures s.sourceComplete ==> !s.budgetExhausted
  {
    var budget := Budget(maxChannels);
    s, error, processed, attempts := ZERO, None, 0, 0;
    if fetch.Failed? {
      error := Some(fetch.error);
      s := Complete(s, attempts, budget, error, false, false);
      return;
    }
    var candidates := fetch.candidates;
    s := s.(considered := fetch.totalTargets);
    s, error, processed, attempts := Loop(candidates, budget, s, paused, fetch.atEnd);
    CountsAdd(candidates[..processed]);
    s := Complete(s, attempts, budget, error, fetch.totalTargets > |candidates|, fetch.limitReached);
  }

  /** The loop over the candidates up to one of its exits. */
  method Loop(candidates: seq<Candidate>, budget: int, start: Summary, paused: bool, atEnd: Context)
    returns (s: Summary, error: Option<Error>, processed: nat, attempts: nat)
    requires start == ZERO.(considered := start.considered) && budget > 0
    ensures processed <= |candidates| && s.considered == start.considered
    ensures Accounts(s, attempts, candidates[..processed]) && attempts <= budget
    ensures Explained(error, candidates, processed, atEnd)
    ensures error.None? ==> processed == |candidates| || attempts == budget
  {
    s, error, processed, attempts := start, None, 0, 0;
    var firstPersist: Option<bool> := None;
    while processed < |candidates|
      invariant processed <= |candidates| && s.considered == start.considered && error.None?
      invariant Accounts(s, attempts, candidates[..processed]) && attempts <= budget
      invariant FirstUnsaved(firstPersist, candidates, processed) && QuietSoFar(firstPersist, candidates, processed)
      decreases |candidates| - processed
    {
      var c := candidates[processed];
      if attempts >= budget { break; }
      if !c.before.Live? {
        error := Some(ErrorOf(c.before));
        assert Shows(candidates[processed], error.value);
        return;
      }
      assert candidates[..processed + 1] == candidates[..processed] + [c];
      AccountsNext(s, attempts, candidates[..processed], c);
      s, attempts, firstPersist := Visit(s, attempts, firstPersist, c);
      processed := processed + 1;
      if Skips(c) { continue; }
      if !c.after.Live? {
        error := Some(if firstPersist == Some(true) then Timeout else ErrorOf(c.after));
        AfterExplained(firstPersist, candidates, processed, atEnd);
        return;
      }
      if paused && processed < |candidates| && attempts < budget && !c.wait.Live? {
        error := Some(ErrorOf(c.wait));
        assert Shows(candidates[processed - 1], error.value);
        return;
      }
    }
    if firstPersist.Some? {
      error := Some(if firstPersist.value then Timeout else Other);
      EndExplained(firstPersist.value, candidates, processed, atEnd);
    } else if !atEnd.Live? {
      error := Some(ErrorOf(atEnd));
    }
  }

  /** What the loop counts at one candidate, and the first failed write it remembers. */
  method Visit(s: Summary, attempts: nat, first: Option<bool>, c: Candidate)
    returns (t: Summary, tried: nat, unsaved: Option<bool>)
    ensures t == Tallied(s, c) && tried == if Skips(c) then attempts else attempts + 1
    ensures unsaved == if first.None? && c.enabled then c.persistError else first
  {
    t, tried, unsaved := s, attempts, first;
    if Skips(c) {
      t := t.(skipped := t.skipped + 1);
      if c.enabled && c.persistError.Some? {
        t := t.(persistFailed := t.persistFailed + 1);
        if unsaved.None? { unsaved := c.persistError; }
      }
      return;
    }
    tried := tried + 1;
    t := Count(t, c.attempt);
    if c.persistError.Some? {
      t := t.(persistFailed := t.persistFailed + 1);
      if unsaved.None? { unsaved := c.persistError; }
    }
  }

  /** The first failed write, if any, comes from a candidate gone through. */
  ghost predicate FirstUnsaved(first: Option<bool>, cs: seq<Candidate>, processed: nat) {
    processed <= |cs| && (first.Some? ==> exists i :: 0 <= i < processed && cs[i].persistError == first)
  }

  /** Without a failed write all candidates gone through were quiet. */
  ghost predicate QuietSoFar(first: Option<bool>, cs: seq<Candidate>, processed: nat) {
    processed <= |cs| && (first.None? ==> forall i :: 0 <= i < processed ==> Quiet(cs[i]))
  }

  lemma AfterExplained(first: Option<bool>, cs: seq<Candidate>, processed: nat, atEnd: Context)
    requires 0 < processed <= |cs| && FirstUnsaved(first, cs, processed) && !cs[processed - 1].after.Live?
    ensures var e := if first == Some(true) then Timeout else ErrorOf(cs[processed - 1].after);
      Explained(Some(e), cs, processed, atEnd)
  {
    if first == Some(true) {
      var i :| 0 <= i < processed && cs[i].persistError == first;
      assert Shows(cs[i], Timeout);
    } else {
      assert Shows(cs[processed - 1], ErrorOf(cs[processed - 1].after));
    }
  }

  lemma EndExplained(first: bool, cs: seq<Candidate>, processed: nat, atEnd: Context)
    requires FirstUnsaved(Some(first), cs, processed)
    ensures Explained(Some(if first then Timeout else Other), cs, processed, atEnd)
  {
    var i :| 0 <= i < processed && cs[i].persistError == Some(first);
    assert Shows(cs[i], if first then Timeout else Other);
  }

  /** The outcome counters of one attempt: duplicates first, then query errors, then samples. */
  function Count(s: Summary, a: Attempt): Summary {
    if a.duplicate then s.(duplicates := s.duplicates + 1)
    else if a.queryError.Some? then
      s.(failed := s.failed + 1,
         timedOut := s.timedOut + (if a.queryError.value.timedOut then 1 else 0),
         unsupported := s.unsupported + (if a.queryError.value.unsupported then 1 else 0))
    else s.(sampled := s.sampled + 1)
  }
}
