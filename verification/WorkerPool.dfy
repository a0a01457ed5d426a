/** The bounded worker pool of channel tests (controller/channel-test.go).

    A dispatcher, the workers, a closer and the collecting caller exchange values over unbuffered
    channels while the context may be cancelled at any moment.  The pool is a state machine: a
    move is one atomic action of one goroutine or one rendezvous of two, and a run is any
    sequence of enabled moves. */
module WorkerPool {
  import opened Options
  import opened Sets

  // ----- summaries -----

  datatype Summary = Summary(tested: int, succeeded: int, failed: int, disabled: int, enabled: int)

  const ZERO := Summary(0, 0, 0, 0, 0)

  function Plus(a: Summary, b: Summary): Summary {
    Summary(a.tested + b.tested, a.succeeded + b.succeeded, a.failed + b.failed,
            a.disabled + b.disabled, a.enabled + b.enabled)
  }

  /** What every channel test keeps and therefore every sum of them. */
  predicate Consistent(s: Summary) {
    s.tested == s.succeeded + s.failed && 0 <= s.disabled <= s.failed && 0 <= s.succeeded && 0 <= s.enabled
  }

  /** What one channel test observed of the outside world. */
  datatype Observation = Observation(
    cancelled: bool, apiError: bool, shouldDisable: bool, autoDisable: bool, slow: bool,
    usageLimit: bool, allowDisable: bool, wasEnabled: bool, autoBan: bool, localError: bool, shouldEnable: bool)

  /** The counting part of testChannelForHealthCheck. */
  method HealthCheck(o: Observation) returns (s: Summary)
    ensures Consistent(s) && s.tested == (if o.cancelled then 0 else 1) && s.enabled <= 1
    ensures s.failed == 1 <==> !o.cancelled && (o.apiError || (o.autoDisable && o.slow))
    ensures s.disabled == 1 <==> !o.cancelled && o.allowDisable && o.wasEnabled && o.autoBan && !o.usageLimit
                                 && ((o.apiError && o.shouldDisable) || (o.autoDisable && o.slow))
    ensures s.enabled == 1 <==> !o.cancelled && !o.localError && !o.wasEnabled && o.shouldEnable
  {
    s := ZERO;
    if o.cancelled { return; }
    s := s.(tested := s.tested + 1);
    var newApiError, shouldBan := o.apiError, false;
    if newApiError { shouldBan := o.shouldDisable; }
    if o.autoDisable && !shouldBan {
      if o.slow { newApiError, shouldBan := true, true; }
    }
    if !newApiError { s := s.(succeeded := s.succeeded + 1); } else { s := s.(failed := s.failed + 1); }
    if o.usageLimit {
    } else if o.allowDisable && o.wasEnabled && shouldBan && o.autoBan {
      s := s.(disabled := s.disabled + 1);
    }
    if !o.localError && !o.wasEnabled && o.shouldEnable { s := s.(enabled := s.enabled + 1); }
  }

  // ----- the machine -----

  /** A channel that is nil or manually disabled is skipped; the others return what their test returns. */
  datatype Channel = Skipped | Tested(result: Summary)

  datatype Config = Config(channels: seq<Channel>, workers: nat, pause: bool)

  function Outcome(c: Config, job: nat): Summary {
    if job < |c.channels| && c.channels[job].Tested? then c.channels[job].result else ZERO
  }

  datatype Worker = Idle | Holding(job: nat) | Running(job: nat) | Sending(job: nat) | Pausing | Exited

  datatype Jobs = Nil | Cons(job: nat, rest: Jobs)

  datatype Phase = Receiving | Reporting | Finished

  datatype State = State(
    cancelled: bool,
    next: nat,                // channels handed out by the dispatcher
    jobsClosed: bool,
    workers: seq<Worker>,
    resultsClosed: bool,
    phase: Phase,             // the collecting caller
    summary: Summary,
    processed: nat,
    reports: seq<nat>,
    started: Jobs,            // history: channels taken up by a worker, latest first
    collected: Jobs,          // history: channels whose result was received
    dropped: Jobs)            // history: channels thrown away on cancellation

  function Init(c: Config): State {
    State(false, 0, false, seq(c.workers, _ => Idle), false, Receiving, ZERO, 0, [0], Nil, Nil, Nil)
  }

  datatype Move =
    | Cancel
    | Handoff(w: nat)         // jobs <- channel meets channel := <-jobs
    | Quit(w: nat)            // the worker's select takes ctx.Done()
    | Drain(w: nat)           // jobs is closed
    | Drop(w: nat)            // ctx.Err() != nil after the receive
    | Start(w: nat)
    | Return(w: nat)          // run returned, or the channel was skipped
    | Deliver(w: nat)         // results <- result meets the collector
    | Resume(w: nat)          // the request interval elapsed
    | CloseJobs
    | CloseResults
    | Report
    | Finish

  predicate At(s: State, w: nat, at: Worker) {
    w < |s.workers| && s.workers[w] == at
  }

  predicate Enabled(c: Config, s: State, m: Move) {
    match m
    case Cancel => !s.cancelled
    case Handoff(w) => At(s, w, Idle) && !s.jobsClosed && s.next < |c.channels|
    case Quit(w) => s.cancelled && (At(s, w, Idle) || At(s, w, Pausing))
    case Drain(w) => At(s, w, Idle) && s.jobsClosed
    case Drop(w) => s.cancelled && w < |s.workers| && s.workers[w].Holding?
    case Start(w) => !s.cancelled && w < |s.workers| && s.workers[w].Holding?
    case Return(w) => w < |s.workers| && s.workers[w].Running?
    case Deliver(w) => w < |s.workers| && s.workers[w].Sending? && s.phase.Receiving? && !s.resultsClosed
    case Resume(w) => At(s, w, Pausing)
    case CloseJobs => !s.jobsClosed && (s.cancelled || s.next == |c.channels|)
    case CloseResults => !s.resultsClosed && forall w :: 0 <= w < |s.workers| ==> s.workers[w].Exited?
    case Report => s.phase.Reporting?
    case Finish => s.phase.Receiving? && s.resultsClosed
  }

  function Set(s: State, w: nat, worker: Worker): State
    requires w < |s.workers|
  {
    s.(workers := s.workers[w := worker])
  }

  function Apply(c: Config, s: State, m: Move): State
    requires Enabled(c, s, m)
  {
    match m
    case Cancel => s.(cancelled := true)
    case Handoff(w) => Set(s, w, Holding(s.next)).(next := s.next + 1)
    case Quit(w) => Set(s, w, Exited)
    case Drain(w) => Set(s, w, Exited)
    case Drop(w) => Set(s, w, Exited).(dropped := Cons(s.workers[w].job, s.dropped))
    case Start(w) => Set(s, w, Running(s.workers[w].job)).(started := Cons(s.workers[w].job, s.started))
    case Return(w) => Set(s, w, Sending(s.workers[w].job))
    case Deliver(w) =>
      var job := s.workers[w].job;
      Set(s, w, if c.pause then Pausing else Idle).(
        phase := Reporting, summary := Plus(s.summary, Outcome(c, job)),
        processed := s.processed + 1, collected := Cons(job, s.collected))
    case Resume(w) => Set(s, w, Idle)
    case CloseJobs => s.(jobsClosed := true)
    case CloseResults => s.(resultsClosed := true)
    case Report => s.(phase := Receiving, reports := if s.cancelled then s.reports else s.reports + [s.processed])
    case Finish => s.(phase := Finished)
  }

  // ----- where every handed-out channel is -----

  function Count(jobs: Jobs, job: nat): nat {
    match jobs
    case Nil => 0
    case Cons(x, rest) => Count(rest, job) + if x == job then 1 else 0
  }

  function Length(jobs: Jobs): nat {
    match jobs
    case Nil => 0
    case Cons(_, rest) => 1 + Length(rest)
  }

  predicate Holds(w: Worker, job: nat) {
    (w.Holding? || w.Running? || w.Sending?) && w.job == job
  }

  predicate TookUp(w: Worker, job: nat) {
    (w.Running? || w.Sending?) && w.job == job
  }

  /** The workers for which a test holds. */
  function Those(ws: seq<Worker>, test: Worker -> bool): set<nat> {
    set w: nat | w < |ws| && test(ws[w])
  }

  lemma ThoseUpdate(ws: seq<Worker>, w: nat, worker: Worker, test: Worker -> bool)
    requires w < |ws|
    ensures |Those(ws[w := worker], test)| ==
            |Those(ws, test)| - (if test(ws[w]) then 1 else 0) + (if test(worker) then 1 else 0)
  {
    var before, after := Those(ws, test), Those(ws[w := worker], test);
    assert before - {w} == after - {w};
    assert w in before <==> test(ws[w]);
    assert w in after <==> test(worker);
    assert |before - {w}| == |before| - if w in before then 1 else 0;
    assert |after - {w}| == |after| - if w in after then 1 else 0;
  }

  /** The workers that have the channel in hand, and those that have started on it. */
  function Holders(ws: seq<Worker>, job: nat): set<nat> {
    Those(ws, w => Holds(w, job))
  }

  function Starters(ws: seq<Worker>, job: nat): set<nat> {
    Those(ws, w => TookUp(w, job))
  }

  lemma HoldersUpdate(ws: seq<Worker>, w: nat, worker: Worker, job: nat)
    requires w < |ws|
    ensures |Holders(ws[w := worker], job)| ==
            |Holders(ws, job)| - (if Holds(ws[w], job) then 1 else 0) + (if Holds(worker, job) then 1 else 0)
    ensures |Starters(ws[w := worker], job)| ==
            |Starters(ws, job)| - (if TookUp(ws[w], job) then 1 else 0) + (if TookUp(worker, job) then 1 else 0)
  {
    ThoseUpdate(ws, w, worker, x => Holds(x, job));
    ThoseUpdate(ws, w, worker, x => TookUp(x, job));
  }

  lemma NoHolders(ws: seq<Worker>, job: nat)
    requires forall w :: 0 <= w < |ws| ==> !Holds(ws[w], job)
    ensures Holders(ws, job) == {} && Starters(ws, job) == {}
  {
  }

  /** Conservation: every channel handed out is in exactly one place, and every channel that was
      started is still with its worker or has been counted. */
  ghost predicate Conserved(s: State) {
    forall job: nat :: ConservedJob(s, job)
  }

  predicate ConservedJob(s: State, job: nat) {
    && Count(s.collected, job) + Count(s.dropped, job) + |Holders(s.workers, job)| == (if job < s.next then 1 else 0)
    && Count(s.started, job) == Count(s.collected, job) + |Starters(s.workers, job)|
  }

  /** The worker a move acts on. */
  function Actor(s: State, m: Move): Option<nat> {
    match m
    case Handoff(w) => Some(w)
    case Quit(w) => Some(w)
    case Drain(w) => Some(w)
    case Drop(w) => Some(w)
    case Start(w) => Some(w)
    case Return(w) => Some(w)
    case Deliver(w) => Some(w)
    case Resume(w) => Some(w)
    case _ => None
  }

  lemma ActorOnly(c: Config, s: State, m: Move)
    requires Enabled(c, s, m)
    ensures Actor(s, m).None? ==> Apply(c, s, m).workers == s.workers
    ensures Actor(s, m).Some? ==> Actor(s, m).value < |s.workers| == |Apply(c, s, m).workers|
    ensures Actor(s, m).Some? ==>
      Apply(c, s, m).workers == s.workers[Actor(s, m).value := Apply(c, s, m).workers[Actor(s, m).value]]
  {
  }

  lemma HandoffJob(c: Config, s: State, w: nat, job: nat)
    requires ConservedJob(s, job) && Enabled(c, s, Handoff(w))
    ensures ConservedJob(Apply(c, s, Handoff(w)), job)
  {
    HoldersUpdate(s.workers, w, Holding(s.next), job);
  }

  lemma DropJob(c: Config, s: State, w: nat, job: nat)
    requires ConservedJob(s, job) && Enabled(c, s, Drop(w))
    ensures ConservedJob(Apply(c, s, Drop(w)), job)
  {
    HoldersUpdate(s.workers, w, Exited, job);
  }

  lemma StartJob(c: Config, s: State, w: nat, job: nat)
    requires ConservedJob(s, job) && Enabled(c, s, Start(w))
    ensures ConservedJob(Apply(c, s, Start(w)), job)
  {
    HoldersUpdate(s.workers, w, Running(s.workers[w].job), job);
  }

  lemma DeliverJob(c: Config, s: State, w: nat, job: nat)
    requires ConservedJob(s, job) && Enabled(c, s, Deliver(w))
    ensures ConservedJob(Apply(c, s, Deliver(w)), job)
  {
    HoldersUpdate(s.workers, w, if c.pause then Pausing else Idle, job);
  }

  /** A worker that changes its state without taking or giving a channel. */
  lemma QuietJob(s: State, w: nat, worker: Worker, job: nat)
    requires ConservedJob(s, job) && w < |s.workers|
    requires Holds(worker, job) == Holds(s.workers[w], job) && TookUp(worker, job) == TookUp(s.workers[w], job)
    ensures ConservedJob(Set(s, w, worker), job)
  {
    HoldersUpdate(s.workers, w, worker, job);
  }

  lemma ConservedJobStep(c: Config, s: State, m: Move, job: nat)
    requires ConservedJob(s, job) && Enabled(c, s, m)
    ensures ConservedJob(Apply(c, s, m), job)
  {
    match m
    case Handoff(w) => HandoffJob(c, s, w, job);
    case Quit(w) => QuietJob(s, w, Exited, job);
    case Drain(w) => QuietJob(s, w, Exited, job);
    case Return(w) => QuietJob(s, w, Sending(s.workers[w].job), job);
    case Resume(w) => QuietJob(s, w, Idle, job);
    case Drop(w) => DropJob(c, s, w, job);
    case Start(w) => StartJob(c, s, w, job);
    case Deliver(w) => DeliverJob(c, s, w, job);
    case _ =>
  }

  lemma ConservedStep(c: Config, s: State, m: Move)
    requires Conserved(s) && Enabled(c, s, m)
    ensures Conserved(Apply(c, s, m))
  {
    forall job: nat ensures ConservedJob(Apply(c, s, m), job) {
      assert ConservedJob(s, job);
      ConservedJobStep(c, s, m, job);
    }
  }

  // ----- the other invariants -----

  datatype Field = TestedField | SucceededField | FailedField | DisabledField | EnabledField

  function Get(s: Summary, f: Field): int {
    match f
    case TestedField => s.tested
    case SucceededField => s.succeeded
    case FailedField => s.failed
    case DisabledField => s.disabled
    case EnabledField => s.enabled
  }

  function Sum(c: Config, jobs: Jobs, f: Field): int {
    match jobs
    case Nil => 0
    case Cons(x, rest) => Sum(c, rest, f) + Get(Outcome(c, x), f)
  }

  /** Sum of the outcomes of a list of channels, field by field. */
  function Total(c: Config, jobs: Jobs): Summary {
    Summary(Sum(c, jobs, TestedField), Sum(c, jobs, SucceededField), Sum(c, jobs, FailedField),
            Sum(c, jobs, DisabledField), Sum(c, jobs, EnabledField))
  }

  /** The collector has added up exactly what it received. */
  ghost predicate Reduced(c: Config, s: State) {
    s.summary == Total(c, s.collected) && s.processed == Length(s.collected)
  }

  lemma ReducedStep(c: Config, s: State, m: Move)
    requires Reduced(c, s) && Enabled(c, s, m)
    ensures Reduced(c, Apply(c, s, m))
  {
  }

  /** Progress reports are 0, 1, 2, ... without a gap, and complete unless cancelled. */
  ghost predicate Reported(s: State) {
    && (forall i :: 0 <= i < |s.reports| ==> s.reports[i] == i)
    && 1 <= |s.reports| <= s.processed + 1
    && (!s.cancelled ==> |s.reports| == s.processed + if s.phase.Reporting? then 0 else 1)
  }

  lemma ReportedStep(c: Config, s: State, m: Move)
    requires Reported(s) && Enabled(c, s, m)
    ensures Reported(Apply(c, s, m))
  {
  }

  /** Who may have stopped: results is closed only when no worker can send any more, and without
      cancellation nothing stops early. */
  ghost predicate Orderly(c: Config, s: State) {
    && |s.workers| == c.workers && s.next <= |c.channels|
    && (s.resultsClosed ==> forall w :: 0 <= w < |s.workers| ==> s.workers[w].Exited?)
    && (s.phase.Finished? ==> s.resultsClosed)
    && (!s.cancelled ==> s.dropped == Nil && (s.jobsClosed ==> s.next == |c.channels|))
    && (!s.cancelled ==> forall w :: 0 <= w < |s.workers| && s.workers[w].Exited? ==> s.jobsClosed)
  }

  lemma OrderlyStep(c: Config, s: State, m: Move)
    requires Orderly(c, s) && Enabled(c, s, m)
    ensures Orderly(c, Apply(c, s, m))
  {
  }

  // ----- runs -----

  ghost predicate Inv(c: Config, s: State) {
    Conserved(s) && Reduced(c, s) && Reported(s) && Orderly(c, s)
  }

  lemma InvInit(c: Config)
    ensures Inv(c, Init(c))
  {
    forall job: nat ensures ConservedJob(Init(c), job) { NoHolders(Init(c).workers, job); }
  }

  /** The state after a run, or None when a move of it was not enabled. */
  function After(c: Config, s: State, run: seq<Move>): Option<State>
    decreases |run|
  {
    if run == [] then Some(s)
    else if Enabled(c, s, run[0]) then After(c, Apply(c, s, run[0]), run[1..])
    else None
  }

  lemma InvStep(c: Config, s: State, m: Move)
    requires Inv(c, s) && Enabled(c, s, m)
    ensures Inv(c, Apply(c, s, m))
  {
    ConservedStep(c, s, m);
    ReducedStep(c, s, m);
    ReportedStep(c, s, m);
    OrderlyStep(c, s, m);
  }

  lemma {:induction false} InvRun(c: Config, s: State, run: seq<Move>)
    requires Inv(c, s) && After(c, s, run).Some?
    ensures Inv(c, After(c, s, run).value)
    decreases |run|
  {
    if run != [] {
      InvStep(c, s, run[0]);
      InvRun(c, Apply(c, s, run[0]), run[1..]);
    }
  }

  ghost predicate Reachable(c: Config, s: State) {
    exists run :: After(c, Init(c), run) == Some(s)
  }

  lemma ReachableInv(c: Config, s: State)
    requires Reachable(c, s)
    ensures Inv(c, s)
  {
    var run :| After(c, Init(c), run) == Some(s);
    InvInit(c);
    InvRun(c, Init(c), run);
  }

  // ----- safety -----

  /** In every interleaving each channel is taken up at most once. */
  lemma AtMostOnce(c: Config, s: State, job: nat)
    requires Reachable(c, s)
    ensures Count(s.started, job) <= 1 && Count(s.collected, job) <= Count(s.started, job)
    ensures Count(s.started, job) == 1 ==> job < |c.channels|
  {
    ReachableInv(c, s);
    assert ConservedJob(s, job);
    Subset(Starters(s.workers, job), Holders(s.workers, job));
  }

  /** No worker holds a result, or can still get one, once the results channel is closed. */
  lemma NeverSendsOnClosed(c: Config, s: State, w: nat)
    requires Reachable(c, s) && s.resultsClosed && w < |s.workers|
    ensures s.workers[w] == Exited
  {
    ReachableInv(c, s);
  }

  // ----- the end of a run -----

  /** Cancelled or not, at the end the summary is the sum over exactly the channels that were
      started: nothing that ran is lost, nothing is counted twice. */
  lemma SummaryCountsWhatRan(c: Config, s: State, job: nat)
    requires Reachable(c, s) && s.phase.Finished?
    ensures s.summary == Total(c, s.collected)
    ensures Count(s.collected, job) == Count(s.started, job) <= 1
  {
    ReachableInv(c, s);
    assert ConservedJob(s, job);
    NoHolders(s.workers, job);
  }

  /** The channels 0, ..., n - 1, each once. */
  function Upto(n: nat): Jobs {
    if n == 0 then Nil else Cons(n - 1, Upto(n - 1))
  }

  /** The list without its latest entry for the channel. */
  function Remove(jobs: Jobs, job: nat): Jobs {
    match jobs
    case Nil => Nil
    case Cons(x, rest) => if x == job then rest else Cons(x, Remove(rest, job))
  }

  lemma {:induction false} RemoveCounts(c: Config, jobs: Jobs, x: nat, job: nat, f: Field)
    requires Count(jobs, x) > 0
    ensures Count(jobs, job) == Count(Remove(jobs, x), job) + if x == job then 1 else 0
    ensures Sum(c, jobs, f) == Sum(c, Remove(jobs, x), f) + Get(Outcome(c, x), f)
    ensures Length(jobs) == Length(Remove(jobs, x)) + 1
  {
    if jobs.job != x { RemoveCounts(c, jobs.rest, x, job, f); }
  }

  /** Whatever the order of arrival, the sum over a permutation of 0, ..., n - 1 is one sum. */
  lemma {:induction false} SumOfPermutation(c: Config, jobs: Jobs, n: nat, f: Field)
    requires forall job: nat :: Count(jobs, job) == if job < n then 1 else 0
    ensures Sum(c, jobs, f) == Sum(c, Upto(n), f) && Length(jobs) == n
    decreases n
  {
    assert jobs.Cons? ==> Count(jobs, jobs.job) > 0;
    if n > 0 {
      var x := n - 1;
      assert Count(jobs, x) == 1;
      forall job: nat ensures Count(Remove(jobs, x), job) == if job < x then 1 else 0 {
        assert Count(jobs, job) == if job < n then 1 else 0;
        RemoveCounts(c, jobs, x, job, f);
      }
      SumOfPermutation(c, Remove(jobs, x), x, f);
      RemoveCounts(c, jobs, x, x, f);
    }
  }

  /** Without cancellation every channel is processed exactly once, the summary is the sum of all
      results in channel order, and progress was reported as 0, 1, ..., total. */
  lemma UncancelledRunIsComplete(c: Config, s: State)
    requires Reachable(c, s) && s.phase.Finished? && !s.cancelled && c.workers > 0
    ensures forall job: nat :: Count(s.collected, job) == if job < |c.channels| then 1 else 0
    ensures s.summary == Total(c, Upto(|c.channels|))
    ensures s.processed == |c.channels|
    ensures |s.reports| == |c.channels| + 1 && forall i :: 0 <= i <= |c.channels| ==> s.reports[i] == i
  {
    ReachableInv(c, s);
    assert s.workers[0].Exited?;
    forall job: nat ensures Count(s.collected, job) == if job < |c.channels| then 1 else 0 {
      assert ConservedJob(s, job);
      NoHolders(s.workers, job);
    }
    SumOfPermutation(c, s.collected, |c.channels|, TestedField);
    SumOfPermutation(c, s.collected, |c.channels|, SucceededField);
    SumOfPermutation(c, s.collected, |c.channels|, FailedField);
    SumOfPermutation(c, s.collected, |c.channels|, DisabledField);
    SumOfPermutation(c, s.collected, |c.channels|, EnabledField);
  }

  ghost predicate ConsistentTests(c: Config) {
    forall job: nat :: Consistent(Outcome(c, job))
  }

  /** The consistency of the single tests carries over to every partial summary of every run. */
  lemma SummaryConsistent(c: Config, s: State)
    requires Reachable(c, s)
    requires ConsistentTests(c)
    ensures Consistent(s.summary)
  {
    ReachableInv(c, s);
    TotalConsistent(c, s.collected);
  }

  lemma ConsistentPlus(a: Summary, b: Summary)
    requires Consistent(a) && Consistent(b)
    ensures Consistent(Plus(a, b))
  {
  }

  lemma TotalCons(c: Config, x: nat, rest: Jobs)
    ensures Total(c, Cons(x, rest)) == Plus(Total(c, rest), Outcome(c, x))
  {
  }

  lemma {:induction false} TotalConsistent(c: Config, jobs: Jobs)
    requires ConsistentTests(c)
    ensures Consistent(Total(c, jobs))
  {
    match jobs
    case Nil =>
    case Cons(x, rest) =>
      TotalConsistent(c, rest);
      ConsistentPlus(Total(c, rest), Outcome(c, x));
      TotalCons(c, x, rest);
  }

  // ----- termination and progress -----

  function Weight(w: Worker): nat {
    match w
    case Exited => 0
    case Idle => 1
    case Pausing => 2
    case Sending(_) => 4
    case Running(_) => 5
    case Holding(_) => 6
  }

  function Weights(ws: seq<Worker>): nat {
    if ws == [] then 0 else Weights(ws[..|ws| - 1]) + Weight(ws[|ws| - 1])
  }

  lemma {:induction false} WeightsUpdate(ws: seq<Worker>, w: nat, worker: Worker)
    requires w < |ws|
    ensures Weights(ws[w := worker]) == Weights(ws) - Weight(ws[w]) + Weight(worker)
  {
    var n := |ws| - 1;
    if w == n {
      assert ws[w := worker][..n] == ws[..n];
    } else {
      WeightsUpdate(ws[..n], w, worker);
      assert ws[w := worker][..n] == ws[..n][w := worker];
    }
  }

  /** How many moves are left at most. */
  function Measure(c: Config, s: State): int {
    6 * (|c.channels| - s.next) + Weights(s.workers)
    + (if s.cancelled then 0 else 1) + (if s.jobsClosed then 0 else 1) + (if s.resultsClosed then 0 else 1)
    + (match s.phase case Receiving => 1 case Reporting => 2 case Finished => 0)
  }

  lemma MeasureDecreases(c: Config, s: State, m: Move)
    requires Enabled(c, s, m)
    ensures Measure(c, Apply(c, s, m)) < Measure(c, s)
  {
    var s' := Apply(c, s, m);
    ActorOnly(c, s, m);
    if Actor(s, m).Some? {
      var w := Actor(s, m).value;
      WeightsUpdate(s.workers, w, s'.workers[w]);
    }
  }

  /** Every run is finite: no interleaving has more moves than the measure of the start. */
  lemma {:induction false} RunsAreBounded(c: Config, s: State, run: seq<Move>)
    requires Inv(c, s) && After(c, s, run).Some?
    ensures |run| <= Measure(c, s)
    decreases |run|
  {
    if run != [] {
      MeasureDecreases(c, s, run[0]);
      InvStep(c, s, run[0]);
      RunsAreBounded(c, Apply(c, s, run[0]), run[1..]);
    }
  }

  /** No deadlock: until the caller has returned, some goroutine can move, and none needs the
      context to be cancelled for it. */
  lemma SomeoneCanMove(c: Config, s: State) returns (m: Move)
    requires Reachable(c, s) && !s.phase.Finished?
    ensures !m.Cancel? && Enabled(c, s, m)
  {
    ReachableInv(c, s);
    if s.phase.Reporting? { return Report; }
    if s.resultsClosed { return Finish; }
    if w :| 0 <= w < |s.workers| && !s.workers[w].Exited? {
      match s.workers[w]
      case Holding(_) => return if s.cancelled then Drop(w) else Start(w);
      case Running(_) => return Return(w);
      case Sending(_) => return Deliver(w);
      case Pausing => return Resume(w);
      case Idle =>
        if s.jobsClosed { return Drain(w); }
        if s.next < |c.channels| { return Handoff(w); }
        return CloseJobs;
    }
    return CloseResults;
  }

  /** When the caller has returned, the dispatcher has closed its channel or is free to. */
  lemma DispatcherEnds(c: Config, s: State)
    requires Reachable(c, s) && s.phase.Finished? && c.workers > 0
    ensures s.jobsClosed || Enabled(c, s, CloseJobs)
  {
    ReachableInv(c, s);
    if !s.cancelled { assert s.workers[0].Exited?; }
  }

  // ----- cancelling, pausing -----

  /** Once cancelled, no further channel is taken up and nothing is reported any more, whatever the run. */
  lemma {:induction false} CancelStops(c: Config, s: State, run: seq<Move>)
    requires s.cancelled && After(c, s, run).Some?
    ensures var end := After(c, s, run).value; end.cancelled && end.started == s.started && end.reports == s.reports
    decreases |run|
  {
    if run != [] { CancelStops(c, Apply(c, s, run[0]), run[1..]); }
  }

  /** A move of a pool that is shutting down: no new channel, no test, no waiting for the interval. */
  predicate Winds(m: Move) {
    !m.Cancel? && !m.Handoff? && !m.Start? && !m.Resume?
  }

  lemma WindsDown(c: Config, s: State) returns (m: Move)
    requires Inv(c, s) && s.cancelled && !s.phase.Finished?
    ensures Winds(m) && Enabled(c, s, m)
  {
    if s.phase.Reporting? { return Report; }
    if s.resultsClosed { return Finish; }
    if w :| 0 <= w < |s.workers| && !s.workers[w].Exited? {
      match s.workers[w]
      case Holding(_) => return Drop(w);
      case Running(_) => return Return(w);
      case Sending(_) => return Deliver(w);
      case _ => return Quit(w);
    }
    return CloseResults;
  }

  lemma {:induction false} WindsToEnd(c: Config, s: State) returns (run: seq<Move>)
    requires Inv(c, s) && s.cancelled
    ensures After(c, s, run).Some? && After(c, s, run).value.phase.Finished?
    ensures forall i :: 0 <= i < |run| ==> Winds(run[i])
    decreases Measure(c, s)
  {
    run := [];
    if !s.phase.Finished? {
      var m := WindsDown(c, s);
      MeasureDecreases(c, s, m);
      InvStep(c, s, m);
      assert Measure(c, s) > 0 by { RunsAreBounded(c, s, [m]); }
      var rest := WindsToEnd(c, Apply(c, s, m));
      run := [m] + rest;
      assert run[1..] == rest;
    }
  }

  /** From every reachable cancelled state the caller can return without another test being started and
      without anyone waiting for the request interval. */
  lemma CancelledPoolEnds(c: Config, s: State) returns (run: seq<Move>)
    requires Reachable(c, s) && s.cancelled
    ensures After(c, s, run).Some? && After(c, s, run).value.phase.Finished?
    ensures forall i :: 0 <= i < |run| ==> !run[i].Handoff? && !run[i].Start? && !run[i].Resume?
  {
    ReachableInv(c, s);
    run := WindsToEnd(c, s);
  }

  /** With a request interval a worker that has delivered takes nothing before it has paused. */
  lemma {:induction false} PauseBetween(c: Config, s: State, w: nat, run: seq<Move>)
    requires w < |s.workers| && s.workers[w].Pausing? && After(c, s, run).Some?
    requires forall i :: 0 <= i < |run| ==> run[i] != Resume(w) && run[i] != Quit(w)
    ensures var end := After(c, s, run).value; w < |end.workers| && end.workers[w].Pausing?
    decreases |run|
  {
    if run != [] {
      assert run[0] != Resume(w) && run[0] != Quit(w);
      assert forall i :: 0 <= i < |run[1..]| ==> run[1..][i] == run[i + 1];
      PauseBetween(c, Apply(c, s, run[0]), w, run[1..]);
    }
  }

  lemma DeliverPauses(c: Config, s: State, w: nat)
    requires Enabled(c, s, Deliver(w))
    ensures Apply(c, s, Deliver(w)).workers[w] == if c.pause then Pausing else Idle
  {
  }

  // ----- the sum, channel by channel -----

  /** One counter added up over the channels that are tested. */
  function Added(channels: seq<Channel>, field: Summary -> int): int {
    if channels == [] then 0
    else
      var last := channels[|channels| - 1];
      Added(channels[..|channels| - 1], field) + if last.Tested? then field(last.result) else 0
  }

  function Reading(f: Field): Summary -> int {
    (s: Summary) => Get(s, f)
  }

  lemma {:induction false} SumIsAdded(c: Config, n: nat, f: Field)
    requires n <= |c.channels|
    ensures Sum(c, Upto(n), f) == Added(c.channels[..n], Reading(f))
  {
    if n > 0 {
      SumIsAdded(c, n - 1, f);
      assert c.channels[..n][..n - 1] == c.channels[..n - 1];
      assert Get(ZERO, f) == 0;
    }
  }

  /** Without cancellation each counter of the summary is the sum of that counter over the channels
      that are neither nil nor manually disabled. */
  lemma SummaryAddsUp(c: Config, s: State)
    requires Reachable(c, s) && s.phase.Finished? && !s.cancelled && c.workers > 0
    ensures s.summary.tested == Added(c.channels, (r: Summary) => r.tested)
    ensures s.summary.succeeded == Added(c.channels, (r: Summary) => r.succeeded)
    ensures s.summary.failed == Added(c.channels, (r: Summary) => r.failed)
    ensures s.summary.disabled == Added(c.channels, (r: Summary) => r.disabled)
    ensures s.summary.enabled == Added(c.channels, (r: Summary) => r.enabled)
  {
    UncancelledRunIsComplete(c, s);
    assert c.channels[..|c.channels|] == c.channels;
    AddedSame(c, TestedField, (r: Summary) => r.tested);
    AddedSame(c, SucceededField, (r: Summary) => r.succeeded);
    AddedSame(c, FailedField, (r: Summary) => r.failed);
    AddedSame(c, DisabledField, (r: Summary) => r.disabled);
    AddedSame(c, EnabledField, (r: Summary) => r.enabled);
  }

  lemma AddedSame(c: Config, f: Field, field: Summary -> int)
    requires forall r :: field(r) == Get(r, f)
    ensures Sum(c, Upto(|c.channels|), f) == Added(c.channels, field)
  {
    SumIsAdded(c, |c.channels|, f);
    assert c.channels[..|c.channels|] == c.channels;
    AddedEqual(c.channels, Reading(f), field);
  }

  lemma {:induction false} AddedEqual(channels: seq<Channel>, a: Summary -> int, b: Summary -> int)
    requires forall r :: a(r) == b(r)
    ensures Added(channels, a) == Added(channels, b)
  {
    if channels != [] { AddedEqual(channels[..|channels| - 1], a, b); }
  }

  // ----- how many workers -----

  const DEFAULT_CONCURRENCY := 1
  const MAX_CONCURRENCY := 32

  function NormalizeConcurrency(n: int): int {
    if n < 1 then DEFAULT_CONCURRENCY else if n > MAX_CONCURRENCY then MAX_CONCURRENCY else n
  }

  /** The pool is never larger than the work and never empty while there is work. */
  function WorkerCount(concurrency: int, total: nat): (n: nat)
    requires total > 0
    ensures 1 <= n <= total && n <= 32
    ensures 1 <= concurrency <= 32 && concurrency <= total ==> n == concurrency
    ensures concurrency < 1 ==> n == 1
    ensures concurrency > 32 && total >= 32 ==> n == 32
    ensures 1 <= total <= concurrency && total <= 32 ==> n == total
  {
    var n := NormalizeConcurrency(concurrency);
    if n < total then n else total
  }
}
