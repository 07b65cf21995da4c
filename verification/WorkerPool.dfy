/**
 The worker pool of pkg/workerpool/workerpool.go as interleaved atomic steps. A worker that is free
 hands its job channel out as a token: through the pool channel to a deliverer goroutine, which
 sends one job down it. Channels with capacity zero synchronise sender and receiver in one step.
 */
module WorkerPool {

  type Job = nat

  datatype Worker = Registering | Waiting | Handling(job: Job) | Quit

  datatype Deliverer = Seeking(job: Job) | Holding(job: Job, worker: nat)

  /** The dispatcher serves, then stops worker after worker, closing a quit channel before it waits. */
  datatype Dispatcher = Serving | Stopping(next: nat, closed: bool) | Stopped

  datatype Config = Config(maxWaitingJobs: nat, maxWorkers: nat)

  datatype State = State(
    queuers: seq<Job>,             // goroutines of Queue, blocked on the job queue
    jobQueue: seq<Job>,
    deliverers: seq<Deliverer>,
    pool: seq<nat>,                // tokens: indexes of workers
    workers: seq<Worker>,
    dispatcher: Dispatcher,
    stopCalled: bool,
    submitted: set<Job>,
    handled: seq<Job>)

  function Initial(workers: nat): State {
    State([], [], [], [], seq(workers, _ => Registering), Serving, false, {}, [])
  }

  datatype Step =
    | Queue(job: Job)              // a client submits a job
    | Enqueue(queuer: nat)         // a queuer gets its job into the buffer
    | HandOver(queuer: nat)        // a queuer meets the dispatcher at an unbuffered job queue
    | Dispatch                     // the dispatcher starts a deliverer for the oldest job
    | Take(deliverer: nat)         // a deliverer receives a token from the pool
    | Deliver(deliverer: nat)      // a deliverer sends its job to the worker of its token
    | Register(worker: nat)        // a worker puts its token into the pool
    | Meet(worker: nat, deliverer: nat)   // both at once, when the pool is unbuffered
    | Finish(worker: nat)          // the handler returns
    | Stop                         // a client closes the dispatcher's quit channel
    | SeeQuit                      // the dispatcher notices
    | CloseQuit                    // it closes the quit channel of the next worker
    | WorkerQuits(worker: nat)     // a waiting worker takes the quit branch
    | NextWorker                   // the dispatcher has waited for that worker
    | AllStopped

  predicate Enabled(cfg: Config, s: State, step: Step) {
    match step
    case Queue(j) => j !in s.submitted
    case Enqueue(q) => q < |s.queuers| && |s.jobQueue| < cfg.maxWaitingJobs
    case HandOver(q) => q < |s.queuers| && cfg.maxWaitingJobs == 0 && s.jobQueue == [] && s.dispatcher.Serving?
    case Dispatch => s.jobQueue != [] && s.dispatcher.Serving?
    case Take(d) => d < |s.deliverers| && s.deliverers[d].Seeking? && s.pool != []
    case Deliver(d) =>
      d < |s.deliverers| && s.deliverers[d].Holding? &&
      s.deliverers[d].worker < |s.workers| && s.workers[s.deliverers[d].worker].Waiting?
    case Register(w) => w < |s.workers| && s.workers[w].Registering? && |s.pool| < cfg.maxWorkers
    case Meet(w, d) =>
      w < |s.workers| && s.workers[w].Registering? && cfg.maxWorkers == 0 && s.pool == [] &&
      d < |s.deliverers| && s.deliverers[d].Seeking?
    case Finish(w) => w < |s.workers| && s.workers[w].Handling?
    case Stop => !s.stopCalled
    case SeeQuit => s.stopCalled && s.dispatcher.Serving?
    case CloseQuit => s.dispatcher.Stopping? && !s.dispatcher.closed && s.dispatcher.next < |s.workers|
    case WorkerQuits(w) => w < |s.workers| && s.workers[w].Waiting? && QuitClosed(s, w)
    case NextWorker =>
      s.dispatcher.Stopping? && s.dispatcher.closed && s.dispatcher.next < |s.workers| &&
      s.workers[s.dispatcher.next].Quit?
    case AllStopped => s.dispatcher.Stopping? && s.dispatcher.next == |s.workers|
  }

  /** The quit channel of worker `w` has been closed. */
  predicate QuitClosed(s: State, w: nat) {
    match s.dispatcher
    case Serving => false
    case Stopping(next, closed) => w < next || (w == next && closed)
    case Stopped => true
  }

  function Without<T>(xs: seq<T>, i: nat): seq<T>
    requires i < |xs|
  {
    xs[..i] + xs[i + 1..]
  }

  function After(cfg: Config, s: State, step: Step): State
    requires Enabled(cfg, s, step)
  {
    match step
    case Queue(j) => s.(submitted := s.submitted + {j}, queuers := s.queuers + [j])
    case Enqueue(q) => s.(queuers := Without(s.queuers, q), jobQueue := s.jobQueue + [s.queuers[q]])
    case HandOver(q) =>
      s.(queuers := Without(s.queuers, q), deliverers := s.deliverers + [Seeking(s.queuers[q])])
    case Dispatch => s.(jobQueue := s.jobQueue[1..], deliverers := s.deliverers + [Seeking(s.jobQueue[0])])
    case Take(d) =>
      s.(pool := s.pool[1..], deliverers := s.deliverers[d := Holding(s.deliverers[d].job, s.pool[0])])
    case Deliver(d) =>
      var w := s.deliverers[d].worker;
      s.(deliverers := Without(s.deliverers, d), workers := s.workers[w := Handling(s.deliverers[d].job)])
    case Register(w) => s.(pool := s.pool + [w], workers := s.workers[w := Waiting])
    case Meet(w, d) =>
      s.(workers := s.workers[w := Waiting], deliverers := s.deliverers[d := Holding(s.deliverers[d].job, w)])
    case Finish(w) =>
      s.(handled := s.handled + [s.workers[w].job], workers := s.workers[w := Registering])
    case Stop => s.(stopCalled := true)
    case SeeQuit => s.(dispatcher := Stopping(0, false))
    case CloseQuit => s.(dispatcher := Stopping(s.dispatcher.next, true))
    case WorkerQuits(w) => s.(workers := s.workers[w := Quit])
    case NextWorker => s.(dispatcher := Stopping(s.dispatcher.next + 1, false))
    case AllStopped => s.(dispatcher := Stopped)
  }

  // ---------------------------------------------------------------- counting

  function Count<T>(xs: seq<T>, p: T -> bool): nat {
    if xs == [] then 0 else (if p(xs[0]) then 1 else 0) + Count(xs[1..], p)
  }

  lemma {:induction false} CountConcat<T>(a: seq<T>, b: seq<T>, p: T -> bool)
    ensures Count(a + b, p) == Count(a, p) + Count(b, p)
  {
    if a == [] {
      assert a + b == b;
    } else {
      CountConcat(a[1..], b, p);
      assert (a + b)[1..] == a[1..] + b;
    }
  }

  function Bit(b: bool): nat {
    if b then 1 else 0
  }

  lemma CountAdd<T>(xs: seq<T>, x: T, p: T -> bool)
    ensures Count(xs + [x], p) == Count(xs, p) + Bit(p(x))
  {
    CountConcat(xs, [x], p);
  }

  lemma CountWithout<T>(xs: seq<T>, i: nat, p: T -> bool)
    requires i < |xs|
    ensures Count(xs, p) == Count(Without(xs, i), p) + Bit(p(xs[i]))
  {
    hide Count;
    assert xs == xs[..i] + [xs[i]] + xs[i + 1..];
    CountConcat(xs[..i] + [xs[i]], xs[i + 1..], p);
    CountConcat(xs[..i], xs[i + 1..], p);
    CountAdd(xs[..i], xs[i], p);
  }

  lemma CountUpdate<T>(xs: seq<T>, i: nat, x: T, p: T -> bool)
    requires i < |xs|
    ensures Count(xs[i := x], p) + Bit(p(xs[i])) == Count(xs, p) + Bit(p(x))
  {
    CountWithout(xs, i, p);
    CountWithout(xs[i := x], i, p);
    assert Without(xs[i := x], i) == Without(xs, i);
  }

  lemma CountTail<T>(xs: seq<T>, p: T -> bool)
    requires xs != []
    ensures Count(xs, p) == Bit(p(xs[0])) + Count(xs[1..], p)
  {
  }

  /** Something is counted only if it is there. */
  lemma {:induction false} CountFinds<T>(xs: seq<T>, p: T -> bool) returns (i: nat)
    requires Count(xs, p) > 0
    ensures i < |xs| && p(xs[i])
  {
    if p(xs[0]) {
      i := 0;
    } else {
      var j := CountFinds(xs[1..], p);
      i := j + 1;
    }
  }

  // ---------------------------------------------------------------- invariants

  function Is(x: nat): nat -> bool {
    y => y == x
  }

  function Carries(j: Job): Deliverer -> bool {
    (d: Deliverer) => d.job == j
  }

  function Keeps(w: nat): Deliverer -> bool {
    (d: Deliverer) => d.Holding? && d.worker == w
  }

  function Handles(j: Job): Worker -> bool {
    w => w == Handling(j)
  }

  /** How many copies of worker `w`'s token are out: in the pool or with a deliverer. */
  function Tokens(s: State, w: nat): nat {
    Count(s.pool, Is(w)) + Count(s.deliverers, Keeps(w))
  }

  /** In how many places job `j` is. */
  function Places(s: State, j: Job): nat {
    Count(s.queuers, Is(j)) + Count(s.jobQueue, Is(j)) + Count(s.deliverers, Carries(j))
    + Count(s.workers, Handles(j)) + Count(s.handled, Is(j))
  }

  /** The worker has handed out its channel and has not received a job on it. */
  predicate TokenOut(s: State, w: nat) {
    w < |s.workers| && (s.workers[w].Waiting? || s.workers[w].Quit?)
  }

  /** A worker's token is out exactly once while it waits or has quit, and never while it is busy. */
  ghost predicate TokensOwned(s: State) {
    forall w: nat :: Tokens(s, w) == Bit(TokenOut(s, w))
  }

  /** Every submitted job is in exactly one place, and no other job is anywhere. */
  ghost predicate JobsConserved(s: State) {
    forall j: Job :: Places(s, j) == Bit(j in s.submitted)
  }

  /** Workers quit only after their quit channel is closed, and nothing is stopped before Stop. */
  predicate QuitsOrdered(s: State) {
    && (forall w | 0 <= w < |s.workers| :: s.workers[w].Quit? ==> QuitClosed(s, w))
    && (!s.dispatcher.Serving? ==> s.stopCalled)
    && (s.dispatcher.Stopping? ==> s.dispatcher.next <= |s.workers|)
  }

  ghost predicate Inv(cfg: Config, s: State) {
    && TokensOwned(s) && JobsConserved(s) && QuitsOrdered(s)
    && |s.pool| <= cfg.maxWorkers && |s.jobQueue| <= cfg.maxWaitingJobs
  }

  lemma {:induction false} CountNone<T>(xs: seq<T>, p: T -> bool)
    requires forall x | x in xs :: !p(x)
    ensures Count(xs, p) == 0
  {
    if xs != [] {
      CountNone(xs[1..], p);
    }
  }

  lemma InitialInv(cfg: Config, workers: nat)
    ensures Inv(cfg, Initial(workers))
  {
    var s := Initial(workers);
    forall j: Job ensures Places(s, j) == 0 {
      CountNone(s.workers, Handles(j));
    }
  }

  lemma StepTokens(cfg: Config, s: State, step: Step, w: nat)
    requires Inv(cfg, s) && Enabled(cfg, s, step)
    ensures var s' := After(cfg, s, step);
            Tokens(s', w) == Bit(TokenOut(s', w))
  {
    hide Count, JobsConserved, Places;
    assert Tokens(s, w) == Bit(TokenOut(s, w));
    match step
    case HandOver(q) => CountAdd(s.deliverers, Seeking(s.queuers[q]), Keeps(w));
    case Dispatch => CountAdd(s.deliverers, Seeking(s.jobQueue[0]), Keeps(w));
    case Take(d) =>
      CountTail(s.pool, Is(w));
      CountUpdate(s.deliverers, d, Holding(s.deliverers[d].job, s.pool[0]), Keeps(w));
    case Deliver(d) => CountWithout(s.deliverers, d, Keeps(w));
    case Register(w') => CountAdd(s.pool, w', Is(w));
    case Meet(w', d) => CountUpdate(s.deliverers, d, Holding(s.deliverers[d].job, w'), Keeps(w));
    case _ =>
  }

  lemma StepPlaces(cfg: Config, s: State, step: Step, j: Job)
    requires Inv(cfg, s) && Enabled(cfg, s, step)
    ensures var s' := After(cfg, s, step); Places(s', j) == Bit(j in s'.submitted)
  {
    hide Count, TokensOwned, Tokens;
    assert Places(s, j) == Bit(j in s.submitted);
    match step
    case Queue(j') => CountAdd(s.queuers, j', Is(j));
    case Enqueue(q) =>
      CountWithout(s.queuers, q, Is(j));
      CountAdd(s.jobQueue, s.queuers[q], Is(j));
    case HandOver(q) =>
      CountWithout(s.queuers, q, Is(j));
      CountAdd(s.deliverers, Seeking(s.queuers[q]), Carries(j));
    case Dispatch =>
      CountTail(s.jobQueue, Is(j));
      CountAdd(s.deliverers, Seeking(s.jobQueue[0]), Carries(j));
    case Take(d) => CountUpdate(s.deliverers, d, Holding(s.deliverers[d].job, s.pool[0]), Carries(j));
    case Deliver(d) =>
      CountWithout(s.deliverers, d, Carries(j));
      CountUpdate(s.workers, s.deliverers[d].worker, Handling(s.deliverers[d].job), Handles(j));
    case Register(w) => CountUpdate(s.workers, w, Waiting, Handles(j));
    case Meet(w, d) =>
      CountUpdate(s.deliverers, d, Holding(s.deliverers[d].job, w), Carries(j));
      CountUpdate(s.workers, w, Waiting, Handles(j));
    case Finish(w) =>
      CountUpdate(s.workers, w, Registering, Handles(j));
      CountAdd(s.handled, s.workers[w].job, Is(j));
    case WorkerQuits(w) => CountUpdate(s.workers, w, Quit, Handles(j));
    case _ =>
  }

  lemma StepKeepsInv(cfg: Config, s: State, step: Step)
    requires Inv(cfg, s) && Enabled(cfg, s, step)
    ensures Inv(cfg, After(cfg, s, step)) && |After(cfg, s, step).workers| == |s.workers|
  {
    hide Count, Tokens, Places;
    var s' := After(cfg, s, step);
    forall w: nat ensures Tokens(s', w) == Bit(TokenOut(s', w)) {
      StepTokens(cfg, s, step, w);
    }
    forall j: Job ensures Places(s', j) == Bit(j in s'.submitted) {
      StepPlaces(cfg, s, step, j);
    }
  }

  // ---------------------------------------------------------------- whole runs

  ghost predicate IsRun(cfg: Config, s: State, steps: seq<Step>)
    decreases |steps|
  {
    steps != [] ==> Enabled(cfg, s, steps[0]) && IsRun(cfg, After(cfg, s, steps[0]), steps[1..])
  }

  ghost function End(cfg: Config, s: State, steps: seq<Step>): State
    requires IsRun(cfg, s, steps)
    decreases |steps|
  {
    if steps == [] then s else End(cfg, After(cfg, s, steps[0]), steps[1..])
  }

  lemma {:induction false} RunKeepsInv(cfg: Config, s: State, steps: seq<Step>)
    requires Inv(cfg, s) && IsRun(cfg, s, steps)
    ensures Inv(cfg, End(cfg, s, steps)) && |End(cfg, s, steps).workers| == |s.workers|
    decreases |steps|
  {
    hide Inv, Enabled;
    if steps != [] {
      StepKeepsInv(cfg, s, steps[0]);
      RunKeepsInv(cfg, After(cfg, s, steps[0]), steps[1..]);
    }
  }

  /** In every interleaving: tokens are owned, jobs conserved, and no job is handled twice. */
  lemma Ownership(cfg: Config, workers: nat, steps: seq<Step>)
    requires IsRun(cfg, Initial(workers), steps)
    ensures var s := End(cfg, Initial(workers), steps);
            && TokensOwned(s) && JobsConserved(s)
            && forall j: Job :: Count(s.handled, Is(j)) <= 1
  {
    InitialInv(cfg, workers);
    RunKeepsInv(cfg, Initial(workers), steps);
    var s := End(cfg, Initial(workers), steps);
    forall j: Job ensures Count(s.handled, Is(j)) <= 1 {
      assert Places(s, j) == Bit(j in s.submitted);
    }
  }

  // ---------------------------------------------------------------- progress

  lemma {:induction false} CountHas<T>(xs: seq<T>, i: nat, p: T -> bool)
    requires i < |xs| && p(xs[i])
    ensures Count(xs, p) > 0
  {
    if i > 0 {
      CountHas(xs[1..], i - 1, p);
    }
  }

  /** Steps of the pool itself, as opposed to its clients. */
  predicate Internal(step: Step) {
    !step.Queue? && !step.Stop?
  }

  /** Whoever holds a token before Stop can deliver. */
  lemma HolderDelivers(cfg: Config, s: State, d: nat)
    requires Inv(cfg, s) && !s.stopCalled && d < |s.deliverers| && s.deliverers[d].Holding?
    ensures Enabled(cfg, s, Deliver(d))
  {
    hide Count, JobsConserved, Places;
    var w := s.deliverers[d].worker;
    CountHas(s.deliverers, d, Keeps(w));
    assert Tokens(s, w) == Bit(TokenOut(s, w));
  }

  /** A deliverer that needs a token never waits in vain: some worker is on its way to the pool. */
  lemma SeekerProgress(cfg: Config, s: State, d: nat) returns (step: Step)
    requires Inv(cfg, s) && !s.stopCalled && s.workers != []
    requires d < |s.deliverers| && s.deliverers[d].Seeking?
    ensures Internal(step) && Enabled(cfg, s, step)
  {
    hide JobsConserved, Places;
    if s.pool != [] {
      return Take(d);
    }
    match s.workers[0]
    case Registering => step := if cfg.maxWorkers > 0 then Register(0) else Meet(0, d);
    case Handling(_) => step := Finish(0);
    case Waiting =>
      assert Tokens(s, 0) == 1 && Count(s.pool, Is(0)) == 0;
      var d' := CountFinds(s.deliverers, Keeps(0));
      HolderDelivers(cfg, s, d');
      step := Deliver(d');
  }

  /** Before Stop, a job that is not handled yet always leaves some step of the pool enabled. */
  lemma Progress(cfg: Config, s: State, j: Job) returns (step: Step)
    requires Inv(cfg, s) && !s.stopCalled && s.workers != []
    requires j in s.submitted && Count(s.handled, Is(j)) == 0
    ensures Internal(step) && Enabled(cfg, s, step)
  {
    hide Count, TokensOwned, Tokens;
    assert Places(s, j) == 1;
    if s.jobQueue != [] {
      step := Dispatch;
    } else if Count(s.queuers, Is(j)) > 0 {
      var q := CountFinds(s.queuers, Is(j));
      step := if cfg.maxWaitingJobs > 0 then Enqueue(q) else HandOver(q);
    } else if Count(s.deliverers, Carries(j)) > 0 {
      var d := CountFinds(s.deliverers, Carries(j));
      if s.deliverers[d].Seeking? {
        step := SeekerProgress(cfg, s, d);
      } else {
        HolderDelivers(cfg, s, d);
        step := Deliver(d);
      }
    } else {
      assert Count(s.jobQueue, Is(j)) == 0 by {
        CountNone(s.jobQueue, Is(j));
      }
      var w := CountFinds(s.workers, Handles(j));
      step := Finish(w);
    }
  }

  // ---------------------------------------------------------------- running dry

  function Sum<T>(xs: seq<T>, f: T -> nat): nat {
    if xs == [] then 0 else f(xs[0]) + Sum(xs[1..], f)
  }

  lemma {:induction false} SumConcat<T>(a: seq<T>, b: seq<T>, f: T -> nat)
    ensures Sum(a + b, f) == Sum(a, f) + Sum(b, f)
  {
    if a == [] {
      assert a + b == b;
    } else {
      SumConcat(a[1..], b, f);
      assert (a + b)[1..] == a[1..] + b;
    }
  }

  lemma SumAdd<T>(xs: seq<T>, x: T, f: T -> nat)
    ensures Sum(xs + [x], f) == Sum(xs, f) + f(x)
  {
    SumConcat(xs, [x], f);
  }

  lemma SumWithout<T>(xs: seq<T>, i: nat, f: T -> nat)
    requires i < |xs|
    ensures Sum(xs, f) == Sum(Without(xs, i), f) + f(xs[i])
  {
    hide Sum;
    assert xs == xs[..i] + [xs[i]] + xs[i + 1..];
    SumConcat(xs[..i] + [xs[i]], xs[i + 1..], f);
    SumConcat(xs[..i], xs[i + 1..], f);
    SumAdd(xs[..i], xs[i], f);
  }

  lemma SumUpdate<T>(xs: seq<T>, i: nat, x: T, f: T -> nat)
    requires i < |xs|
    ensures Sum(xs[i := x], f) + f(xs[i]) == Sum(xs, f) + f(x)
  {
    SumWithout(xs, i, f);
    SumWithout(xs[i := x], i, f);
    assert Without(xs[i := x], i) == Without(xs, i);
  }

  function DelivererWork(): Deliverer -> nat {
    (d: Deliverer) => if d.Seeking? then 4 else 3
  }

  function WorkerWork(): Worker -> nat {
    (w: Worker) => if w.Handling? then 3 else if w.Registering? then 2 else if w.Waiting? then 1 else 0
  }

  function DispatcherWork(s: State): int {
    match s.dispatcher
    case Serving => 2 * |s.workers| + 3
    case Stopping(next, closed) => 2 * (|s.workers| - next) + (if closed then 1 else 2)
    case Stopped => 0
  }

  /** An upper bound on the steps that the pool can take by itself. */
  function Work(s: State): int {
    6 * |s.queuers| + 5 * |s.jobQueue| + Sum(s.deliverers, DelivererWork()) + Sum(s.workers, WorkerWork())
    + DispatcherWork(s)
  }

  /** Every step of the pool itself uses some of it up: nothing goes on forever without clients. */
  lemma WorkFalls(cfg: Config, s: State, step: Step)
    requires QuitsOrdered(s) && Enabled(cfg, s, step) && Internal(step)
    ensures 0 <= Work(After(cfg, s, step)) < Work(s)
  {
    hide Sum;
    match step
    case HandOver(q) => SumAdd(s.deliverers, Seeking(s.queuers[q]), DelivererWork());
    case Dispatch => SumAdd(s.deliverers, Seeking(s.jobQueue[0]), DelivererWork());
    case Take(d) => SumUpdate(s.deliverers, d, Holding(s.deliverers[d].job, s.pool[0]), DelivererWork());
    case Deliver(d) =>
      SumWithout(s.deliverers, d, DelivererWork());
      SumUpdate(s.workers, s.deliverers[d].worker, Handling(s.deliverers[d].job), WorkerWork());
    case Register(w) => SumUpdate(s.workers, w, Waiting, WorkerWork());
    case Meet(w, d) =>
      SumUpdate(s.deliverers, d, Holding(s.deliverers[d].job, w), DelivererWork());
      SumUpdate(s.workers, w, Waiting, WorkerWork());
    case Finish(w) => SumUpdate(s.workers, w, Registering, WorkerWork());
    case WorkerQuits(w) => SumUpdate(s.workers, w, Quit, WorkerWork());
    case _ =>
  }

  /** The pool has nothing left to do by itself. */
  ghost predicate Dry(cfg: Config, s: State) {
    forall step | Internal(step) :: !Enabled(cfg, s, step)
  }

  /** A run of the pool's own steps. */
  ghost predicate OwnRun(cfg: Config, s: State, steps: seq<Step>) {
    IsRun(cfg, s, steps) && forall step | step in steps :: Internal(step)
  }

  /** One that cannot be continued. */
  ghost predicate RunsDry(cfg: Config, s: State, steps: seq<Step>) {
    OwnRun(cfg, s, steps) && Dry(cfg, End(cfg, s, steps))
  }

  lemma WorkIsNatural(s: State)
    requires QuitsOrdered(s)
    ensures Work(s) >= 0
  {
    hide Sum;
  }

  /** The pool's own runs keep the invariant and what clients have said, and are bounded in length. */
  lemma {:induction false} OwnRunsEnd(cfg: Config, s: State, steps: seq<Step>)
    requires Inv(cfg, s) && OwnRun(cfg, s, steps)
    ensures var s' := End(cfg, s, steps);
            && Inv(cfg, s') && |s'.workers| == |s.workers|
            && s'.stopCalled == s.stopCalled && s'.submitted == s.submitted
            && |steps| <= Work(s) - Work(s') <= Work(s)
    decreases |steps|
  {
    hide TokensOwned, JobsConserved, Enabled, Work, QuitsOrdered;
    if steps == [] {
      WorkIsNatural(s);
    } else {
      assert steps[0] in steps;
      StepKeepsInv(cfg, s, steps[0]);
      WorkFalls(cfg, s, steps[0]);
      OwnRunsEnd(cfg, After(cfg, s, steps[0]), steps[1..]);
      WorkIsNatural(End(cfg, s, steps));
    }
  }

  /** So the pool can always run dry. */
  lemma {:induction false} CanRunDry(cfg: Config, s: State) returns (steps: seq<Step>)
    requires Inv(cfg, s)
    ensures RunsDry(cfg, s, steps)
    decreases Work(s)
  {
    hide Inv, Enabled, Work, After;
    if step :| Internal(step) && Enabled(cfg, s, step) {
      StepFallsAndKeeps(cfg, s, step);
      var rest := CanRunDry(cfg, After(cfg, s, step));
      steps := [step] + rest;
      assert steps[0] == step && steps[1..] == rest;
    } else {
      steps := [];
    }
  }

  lemma StepFallsAndKeeps(cfg: Config, s: State, step: Step)
    requires Inv(cfg, s) && Enabled(cfg, s, step) && Internal(step)
    ensures Inv(cfg, After(cfg, s, step)) && 0 <= Work(After(cfg, s, step)) < Work(s)
  {
    hide Work;
    StepKeepsInv(cfg, s, step);
    WorkFalls(cfg, s, step);
  }

  /** No choice of the pool's steps can keep a job from being handled while Stop is not called. */
  lemma DryHasHandled(cfg: Config, s: State, j: Job)
    requires Inv(cfg, s) && !s.stopCalled && s.workers != [] && j in s.submitted && Dry(cfg, s)
    ensures Count(s.handled, Is(j)) == 1
  {
    hide Count;
    assert Places(s, j) == 1;
    if Count(s.handled, Is(j)) == 0 {
      var step := Progress(cfg, s, j);
    }
  }

  /** From the end of `steps`, whatever the pool does until it runs dry handles every job submitted so far. */
  ghost predicate HandlesAll(cfg: Config, workers: nat, steps: seq<Step>, more: seq<Step>)
    requires IsRun(cfg, Initial(workers), steps) && IsRun(cfg, End(cfg, Initial(workers), steps), more)
  {
    var s := End(cfg, Initial(workers), steps);
    forall j | j in s.submitted :: Count(End(cfg, s, more).handled, Is(j)) == 1
  }

  lemma ReachableInv(cfg: Config, workers: nat, steps: seq<Step>)
    requires IsRun(cfg, Initial(workers), steps)
    ensures var s := End(cfg, Initial(workers), steps); Inv(cfg, s) && |s.workers| == workers
  {
    hide Inv, IsRun, End;
    InitialInv(cfg, workers);
    RunKeepsInv(cfg, Initial(workers), steps);
  }

  lemma {:induction false} NoWorkerNoWork(cfg: Config, s: State, steps: seq<Step>)
    requires s.workers == [] && IsRun(cfg, s, steps)
    ensures End(cfg, s, steps).handled == s.handled
    decreases |steps|
  {
    if steps != [] {
      NoWorkerNoWork(cfg, After(cfg, s, steps[0]), steps[1..]);
    }
  }

  /**
   In every run before Stop, every job is handled by the time the pool has run dry, however its steps
   interleave: exactly when there is a worker.
   */
  lemma JobsTheorem(cfg: Config, workers: nat)
    ensures (forall steps, more | && IsRun(cfg, Initial(workers), steps)
                                  && !End(cfg, Initial(workers), steps).stopCalled
                                  && RunsDry(cfg, End(cfg, Initial(workers), steps), more) ::
               HandlesAll(cfg, workers, steps, more))
            <==> workers > 0
  {
    hide Inv, Dry, IsRun, End, Initial;
    if workers > 0 {
      forall steps, more | && IsRun(cfg, Initial(workers), steps)
                           && !End(cfg, Initial(workers), steps).stopCalled
                           && RunsDry(cfg, End(cfg, Initial(workers), steps), more)
        ensures HandlesAll(cfg, workers, steps, more)
      {
        ReachableInv(cfg, workers, steps);
        var s := End(cfg, Initial(workers), steps);
        OwnRunsEnd(cfg, s, more);
        forall j | j in s.submitted ensures Count(End(cfg, s, more).handled, Is(j)) == 1 {
          DryHasHandled(cfg, End(cfg, s, more), j);
        }
      }
    } else {
      var steps := [Queue(0)];
      UnservedJob(cfg);
      ReachableInv(cfg, 0, steps);
      var s := End(cfg, Initial(0), steps);
      var more := CanRunDry(cfg, s);
      NoWorkerNoWork(cfg, s, more);
      assert 0 in s.submitted && Count(End(cfg, s, more).handled, Is(0)) == 0;
      assert !HandlesAll(cfg, 0, steps, more);
    }
  }

  lemma UnservedJob(cfg: Config)
    ensures IsRun(cfg, Initial(0), [Queue(0)])
    ensures var s := End(cfg, Initial(0), [Queue(0)]); !s.stopCalled && s.submitted == {0} && s.handled == []
  {
    assert [Queue(0)][1..] == [];
    assert End(cfg, Initial(0), [Queue(0)]) == After(cfg, Initial(0), Queue(0));
  }

  // ---------------------------------------------------------------- shutdown

  lemma {:induction false} DistinctBound(xs: seq<nat>, allowed: set<nat>)
    requires forall x: nat :: Count(xs, Is(x)) <= Bit(x in allowed)
    ensures |xs| <= |allowed|
  {
    if xs != [] {
      assert Count(xs, Is(xs[0])) >= 1;
      var rest := allowed - {xs[0]};
      forall x: nat ensures Count(xs[1..], Is(x)) <= Bit(x in rest) {
        CountTail(xs, Is(x));
      }
      DistinctBound(xs[1..], rest);
    }
  }

  function Below(n: nat): (r: set<nat>)
    ensures |r| == n && forall x: nat :: x in r <==> x < n
  {
    if n == 0 then {} else Below(n - 1) + {n - 1}
  }

  /** With at most maxWorkers workers, a worker that finishes a job never blocks on the pool. */
  lemma NeverBlocks(cfg: Config, s: State, w: nat)
    requires Inv(cfg, s) && |s.workers| <= cfg.maxWorkers && w < |s.workers| && s.workers[w].Registering?
    ensures |s.pool| < cfg.maxWorkers && Enabled(cfg, s, Register(w))
  {
    hide Count, JobsConserved, Places, Below;
    var all := Below(|s.workers|);
    assert w in all && |all - {w}| == |s.workers| - 1;
    forall x: nat ensures Count(s.pool, Is(x)) <= Bit(x in all - {w}) {
      assert Tokens(s, x) == Bit(TokenOut(s, x));
    }
    DistinctBound(s.pool, all - {w});
  }

  /** Steps that bring a shutdown forward: of the dispatcher, or of the worker it is waiting for. */
  predicate Shutdown(s: State, step: Step) {
    step in {SeeQuit, CloseQuit, NextWorker, AllStopped} ||
    (s.dispatcher.Stopping? && s.dispatcher.closed &&
     step in {Register(s.dispatcher.next), Finish(s.dispatcher.next), WorkerQuits(s.dispatcher.next)})
  }

  /** With at most maxWorkers workers, a shutdown that has begun always has such a step enabled. */
  lemma ShutdownProgress(cfg: Config, s: State) returns (step: Step)
    requires Inv(cfg, s) && |s.workers| <= cfg.maxWorkers && s.stopCalled && !s.dispatcher.Stopped?
    ensures Shutdown(s, step) && Enabled(cfg, s, step)
  {
    hide TokensOwned, JobsConserved;
    if s.dispatcher.Serving? {
      return SeeQuit;
    }
    var w := s.dispatcher.next;
    if w == |s.workers| {
      return AllStopped;
    }
    if !s.dispatcher.closed {
      return CloseQuit;
    }
    match s.workers[w]
    case Registering =>
      NeverBlocks(cfg, s, w);
      step := Register(w);
    case Waiting => step := WorkerQuits(w);
    case Handling(_) => step := Finish(w);
    case Quit => step := NextWorker;
  }

  /** The dispatcher waits for a worker that waits for room in a pool nobody takes from. */
  predicate Stuck(cfg: Config, s: State) {
    && s.dispatcher.Stopping? && s.dispatcher.closed && s.dispatcher.next < |s.workers|
    && s.workers[s.dispatcher.next].Registering?
    && |s.pool| >= cfg.maxWorkers && s.deliverers == []
  }

  lemma StuckStep(cfg: Config, s: State, step: Step)
    requires Stuck(cfg, s) && Enabled(cfg, s, step)
    ensures Stuck(cfg, After(cfg, s, step))
  {
  }

  /** There is no way out: no run from such a state lets Stop return. */
  lemma {:induction false} StuckForever(cfg: Config, s: State, steps: seq<Step>)
    requires Stuck(cfg, s) && IsRun(cfg, s, steps)
    ensures Stuck(cfg, End(cfg, s, steps)) && !End(cfg, s, steps).dispatcher.Stopped?
    decreases |steps|
  {
    if steps != [] {
      StuckStep(cfg, s, steps[0]);
      hide Enabled, After, Stuck;
      StuckForever(cfg, After(cfg, s, steps[0]), steps[1..]);
    }
  }

  /** With at most maxWorkers workers, a pool that has run dry after Stop has stopped. */
  lemma DryHasStopped(cfg: Config, s: State)
    requires Inv(cfg, s) && |s.workers| <= cfg.maxWorkers && s.stopCalled && Dry(cfg, s)
    ensures s.dispatcher.Stopped?
  {
    hide Inv;
    if !s.dispatcher.Stopped? {
      var step := ShutdownProgress(cfg, s);
    }
  }

  lemma {:induction false} RunSnoc(cfg: Config, s: State, steps: seq<Step>, step: Step)
    requires IsRun(cfg, s, steps) && Enabled(cfg, End(cfg, s, steps), step)
    ensures IsRun(cfg, s, steps + [step])
    ensures End(cfg, s, steps + [step]) == After(cfg, End(cfg, s, steps), step)
    decreases |steps|
  {
    hide Enabled, After;
    var all := steps + [step];
    if steps == [] {
      assert all[0] == step && all[1..] == [];
    } else {
      RunSnoc(cfg, After(cfg, s, steps[0]), steps[1..], step);
      assert all[0] == steps[0] && all[1..] == steps[1..] + [step];
    }
  }

  /** `quit` workers have quit, those below `registered` wait, and the others have not registered. */
  function Lined(n: nat, quit: nat, registered: nat): seq<Worker> {
    seq(n, i => if i < quit then Quit else if i < registered then Waiting else Registering)
  }

  function Idle(n: nat, quit: nat, registered: nat, dispatcher: Dispatcher, stopCalled: bool): State {
    State([], [], [], seq(registered, i => i), Lined(n, quit, registered), dispatcher, stopCalled, {}, [])
  }

  lemma {:induction false} FillPool(cfg: Config, n: nat, k: nat) returns (steps: seq<Step>)
    requires k <= cfg.maxWorkers && k <= n
    ensures IsRun(cfg, Initial(n), steps) && End(cfg, Initial(n), steps) == Idle(n, 0, k, Serving, false)
  {
    if k == 0 {
      steps := [];
      assert Lined(n, 0, 0) == Initial(n).workers;
    } else {
      steps := FillPool(cfg, n, k - 1);
      RunSnoc(cfg, Initial(n), steps, Register(k - 1));
      steps := steps + [Register(k - 1)];
      assert Lined(n, 0, k - 1)[k - 1 := Waiting] == Lined(n, 0, k);
      assert seq(k - 1, (i: nat) => i) + [k - 1] == seq(k, (i: nat) => i);
    }
  }

  lemma {:induction false} StopSome(cfg: Config, n: nat, i: nat) returns (steps: seq<Step>)
    requires i <= cfg.maxWorkers <= n
    ensures IsRun(cfg, Initial(n), steps)
    ensures End(cfg, Initial(n), steps) == Idle(n, i, cfg.maxWorkers, Stopping(i, false), true)
  {
    hide IsRun, End, Initial;
    var m := cfg.maxWorkers;
    if i == 0 {
      steps := FillPool(cfg, n, m);
      RunSnoc(cfg, Initial(n), steps, Stop);
      RunSnoc(cfg, Initial(n), steps + [Stop], SeeQuit);
      steps := steps + [Stop] + [SeeQuit];
    } else {
      steps := StopSome(cfg, n, i - 1);
      RunSnoc(cfg, Initial(n), steps, CloseQuit);
      RunSnoc(cfg, Initial(n), steps + [CloseQuit], WorkerQuits(i - 1));
      RunSnoc(cfg, Initial(n), steps + [CloseQuit] + [WorkerQuits(i - 1)], NextWorker);
      steps := steps + [CloseQuit] + [WorkerQuits(i - 1)] + [NextWorker];
      assert Lined(n, i - 1, m)[i - 1 := Quit] == Lined(n, i, m);
    }
  }

  /** With more workers than the pool has room for, some run ends in a shutdown that hangs. */
  lemma StopCanHang(cfg: Config, n: nat) returns (steps: seq<Step>)
    requires n > cfg.maxWorkers
    ensures IsRun(cfg, Initial(n), steps) && Stuck(cfg, End(cfg, Initial(n), steps))
  {
    hide IsRun, End, Initial;
    steps := StopSome(cfg, n, cfg.maxWorkers);
    RunSnoc(cfg, Initial(n), steps, CloseQuit);
    steps := steps + [CloseQuit];
  }

  /** From every state after Stop, whatever the pool does until it runs dry lets Stop return. */
  ghost predicate AlwaysStops(cfg: Config, n: nat) {
    forall steps, more | && IsRun(cfg, Initial(n), steps)
                         && End(cfg, Initial(n), steps).stopCalled
                         && RunsDry(cfg, End(cfg, Initial(n), steps), more) ::
      End(cfg, End(cfg, Initial(n), steps), more).dispatcher.Stopped?
  }

  /** Stop returns, however the steps of the pool interleave: exactly when the pool has room for all workers. */
  lemma StopTheorem(cfg: Config, n: nat)
    ensures AlwaysStops(cfg, n) <==> n <= cfg.maxWorkers
  {
    hide IsRun, End, Inv, Dry, Stuck, Initial;
    if n <= cfg.maxWorkers {
      forall steps, more | && IsRun(cfg, Initial(n), steps)
                           && End(cfg, Initial(n), steps).stopCalled
                           && RunsDry(cfg, End(cfg, Initial(n), steps), more)
        ensures End(cfg, End(cfg, Initial(n), steps), more).dispatcher.Stopped?
      {
        ReachableInv(cfg, n, steps);
        OwnRunsEnd(cfg, End(cfg, Initial(n), steps), more);
        DryHasStopped(cfg, End(cfg, End(cfg, Initial(n), steps), more));
      }
    } else {
      var steps := StopCanHang(cfg, n);
      ReachableInv(cfg, n, steps);
      var s := End(cfg, Initial(n), steps);
      StoppingIsCalled(cfg, s);
      var more := CanRunDry(cfg, s);
      StuckForever(cfg, s, more);
    }
  }

  lemma StoppingIsCalled(cfg: Config, s: State)
    requires Inv(cfg, s) && Stuck(cfg, s)
    ensures s.stopCalled
  {
  }
}
