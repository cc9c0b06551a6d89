/**
 pkg/workerpool/workerpool.go as a step system. A worker announces itself by sending its own
 job channel, its token, into the pool; the dispatcher gives every job a goroutine that takes
 a token and delivers the job over it. Steps interleave freely.
 */
module WorkerPool {

  type Job = nat
  type Token = nat  // the worker whose channel it is

  datatype Phase =
    | Announcing        // about to send its token into the pool
    | Waiting           // in select: a job, or quit
    | Handling(job: Job)
    | Stopped

  datatype Dispatcher =
    | Running           // in select: the job queue, or quit
    | Closing(next: nat)   // about to close worker `next`'s quit channel
    | Joining(next: nat)   // waiting for worker `next` to stop
    | Done

  datatype Delivery = Delivery(job: Job, token: Token)

  datatype State = State(
    maxWaitingJobs: nat,
    maxWorkers: nat,
    senders: seq<Job>,         // goroutines of Queue, each with its job
    queue: seq<Job>,           // the buffered job channel
    seeking: seq<Job>,         // goroutines of Dispatch waiting for a token
    holding: seq<Delivery>,    // and those that have one
    pool: seq<Token>,          // the buffered channel of tokens
    workers: seq<Phase>,
    quitting: set<nat>,        // workers whose quit channel is closed
    dispatcher: Dispatcher,
    stopRequested: bool,
    queued: multiset<Job>,     // every job ever given to Queue
    handled: multiset<Job>)    // every job a handler has finished

  datatype Step =
    | Queue(job: Job)
    | Stop
    | Enqueue(i: nat)          // a sender's job enters the queue
    | HandOff(i: nat)          // or meets the dispatcher directly, the queue being empty
    | Dispatch                 // the dispatcher takes the head of the queue
    | TakeToken(i: nat)
    | Deliver(i: nat)
    | Announce(w: nat)
    | Finish(w: nat)           // a handler returns
    | BeginClosing
    | Close
    | WorkerQuit(w: nat)
    | Join

  function RemoveAt<T>(s: seq<T>, i: nat): (r: seq<T>)
    requires i < |s|
  {
    s[..i] + s[i + 1..]
  }

  /** `Run` starts every worker; `AddWorker` has built `n` of them. */
  function Init(maxWaitingJobs: nat, maxWorkers: nat, n: nat): (t: State) {
    State(maxWaitingJobs, maxWorkers, [], [], [], [], [], seq(n, _ => Announcing), {}, Running, false, multiset{}, multiset{})
  }

  predicate Enabled(s: State, step: Step) {
    match step
    case Queue(_) => true
    case Stop => !s.stopRequested
    case Enqueue(i) => i < |s.senders| && |s.queue| < s.maxWaitingJobs
    case HandOff(i) => i < |s.senders| && s.queue == [] && s.dispatcher.Running?
    case Dispatch => s.queue != [] && s.dispatcher.Running?
    case TakeToken(i) => i < |s.seeking| && s.pool != []
    case Deliver(i) => i < |s.holding| && s.holding[i].token < |s.workers| && s.workers[s.holding[i].token].Waiting?
    case Announce(w) => w < |s.workers| && s.workers[w].Announcing? && |s.pool| < s.maxWorkers
    case Finish(w) => w < |s.workers| && s.workers[w].Handling?
    case BeginClosing => s.stopRequested && s.dispatcher.Running?
    case Close => s.dispatcher.Closing? && s.dispatcher.next < |s.workers|
    case WorkerQuit(w) => w < |s.workers| && s.workers[w].Waiting? && w in s.quitting
    case Join =>
      (s.dispatcher.Joining? && s.dispatcher.next < |s.workers| && s.workers[s.dispatcher.next].Stopped?) ||
      (s.dispatcher.Closing? && s.dispatcher.next >= |s.workers|)
  }

  function Apply(s: State, step: Step): (t: State)
    requires Enabled(s, step)
  {
    match step
    case Queue(job) => s.(senders := s.senders + [job], queued := s.queued + multiset{job})
    case Stop => s.(stopRequested := true)
    case Enqueue(i) => s.(senders := RemoveAt(s.senders, i), queue := s.queue + [s.senders[i]])
    case HandOff(i) => s.(senders := RemoveAt(s.senders, i), seeking := s.seeking + [s.senders[i]])
    case Dispatch => s.(queue := s.queue[1..], seeking := s.seeking + [s.queue[0]])
    case TakeToken(i) =>
      s.(pool := s.pool[1..], seeking := RemoveAt(s.seeking, i), holding := s.holding + [Delivery(s.seeking[i], s.pool[0])])
    case Deliver(i) =>
      var d := s.holding[i];
      s.(holding := RemoveAt(s.holding, i), workers := s.workers[d.token := Handling(d.job)])
    case Announce(w) => s.(pool := s.pool + [w], workers := s.workers[w := Waiting])
    case Finish(w) => s.(workers := s.workers[w := Announcing], handled := s.handled + multiset{s.workers[w].job})
    case BeginClosing => s.(dispatcher := Closing(0))
    case Close => s.(quitting := s.quitting + {s.dispatcher.next}, dispatcher := Joining(s.dispatcher.next))
    case WorkerQuit(w) => s.(workers := s.workers[w := Stopped])
    case Join => s.(dispatcher := if s.dispatcher.Joining? then Closing(s.dispatcher.next + 1) else Done)
  }

  // ----- Where jobs and tokens are -----

  function Tokens(holding: seq<Delivery>): (r: seq<Token>) {
    seq(|holding|, i requires 0 <= i < |holding| => holding[i].token)
  }

  function Jobs(holding: seq<Delivery>): (r: seq<Job>) {
    seq(|holding|, i requires 0 <= i < |holding| => holding[i].job)
  }

  /** How many workers are handling job `j`. */
  function InHandlers(workers: seq<Phase>, j: Job): (n: nat) {
    if workers == [] then 0
    else InHandlers(workers[..|workers| - 1], j) + Handles(workers[|workers| - 1], j)
  }

  function Handles(p: Phase, j: Job): (n: nat) { if p == Handling(j) then 1 else 0 }

  function Count<T(==)>(s: seq<T>, x: T): (n: nat) { multiset(s)[x] }

  /** How many times job `j` is anywhere at all. */
  function Everywhere(s: State, j: Job): (n: nat) {
    Count(s.senders, j) + Count(s.queue, j) + Count(s.seeking, j) + Count(Jobs(s.holding), j)
    + InHandlers(s.workers, j) + s.handled[j]
  }

  /** The tokens of worker `w`, in the pool or in a goroutine's hands. */
  function TokenCount(s: State, w: nat): (n: nat) {
    Count(s.pool, w) + Count(Tokens(s.holding), w)
  }

  predicate Waits(p: Phase) { p.Waiting? || p.Stopped? }

  /** Each job is in one place for each time it was queued. */
  ghost predicate JobsKept(s: State) {
    forall j: Job :: Everywhere(s, j) == s.queued[j]
  }

  /** How many tokens worker `w` should have. */
  function TokensDue(s: State, w: nat): (n: nat) { if w < |s.workers| && Waits(s.workers[w]) then 1 else 0 }

  ghost predicate OneTokenWhileWaiting(s: State) {
    forall w: nat :: TokenCount(s, w) == TokensDue(s, w)
  }

  /** Shutdown proceeds worker by worker. */
  ghost predicate OrderlyShutdown(s: State) {
    && (!s.dispatcher.Running? ==> s.stopRequested)
    && (s.dispatcher.Closing? ==> s.dispatcher.next <= |s.workers|)
    && (s.dispatcher.Joining? ==> s.dispatcher.next < |s.workers| && s.dispatcher.next in s.quitting)
    && (forall w :: 0 <= w < |s.workers| && s.workers[w].Stopped? ==> w in s.quitting)
    && (s.dispatcher.Running? ==> s.quitting == {})
    && (forall w :: 0 <= w < |s.workers| && Closed(s, w) ==> s.workers[w].Stopped?)
  }

  /** Every job is in exactly one place; a worker has exactly one token while it waits, or has stopped waiting, and else none. */
  ghost predicate Inv(s: State) {
    JobsKept(s) && OneTokenWhileWaiting(s) && OrderlyShutdown(s)
  }

  /** The dispatcher has closed worker `w` and seen it stop. */
  predicate Closed(s: State, w: nat) {
    match s.dispatcher
    case Running => false
    case Closing(next) => w < next
    case Joining(next) => w < next
    case Done => true
  }

  lemma {:induction false} CountAppend<T>(s: seq<T>, x: T, y: T)
    ensures Count(s + [x], y) == Count(s, y) + if x == y then 1 else 0
  {
  }

  lemma {:induction false} CountRemoveAt<T>(s: seq<T>, i: nat, y: T)
    requires i < |s|
    ensures Count(s, y) == Count(RemoveAt(s, i), y) + if s[i] == y then 1 else 0
  {
    assert s == s[..i] + [s[i]] + s[i + 1..];
  }

  lemma {:induction false} CountTail<T>(s: seq<T>, y: T)
    requires s != []
    ensures Count(s, y) == Count(s[1..], y) + if s[0] == y then 1 else 0
  {
    assert s == [s[0]] + s[1..];
  }

  lemma {:induction false} CountIn<T>(s: seq<T>, y: T)
    ensures Count(s, y) > 0 <==> y in s
  {
  }

  lemma {:induction false} HandlersUpdate(workers: seq<Phase>, w: nat, p: Phase, j: Job)
    requires w < |workers|
    ensures InHandlers(workers[w := p], j) + Handles(workers[w], j) == InHandlers(workers, j) + Handles(p, j)
  {
    var n := |workers| - 1;
    var after := workers[w := p];
    if w == n {
      assert after[..n] == workers[..n];
    } else {
      assert after[..n] == workers[..n][w := p] && after[n] == workers[n];
      HandlersUpdate(workers[..n], w, p, j);
    }
  }

  lemma {:induction false} IdleHandlers(workers: seq<Phase>, j: Job)
    requires forall w :: 0 <= w < |workers| ==> workers[w] != Handling(j)
    ensures InHandlers(workers, j) == 0
  {
    if workers != [] { IdleHandlers(workers[..|workers| - 1], j); }
  }

  lemma {:induction false} InitInv(maxWaitingJobs: nat, maxWorkers: nat, n: nat)
    ensures Inv(Init(maxWaitingJobs, maxWorkers, n))
  {
    var s := Init(maxWaitingJobs, maxWorkers, n);
    forall j: Job ensures Everywhere(s, j) == 0 { IdleHandlers(s.workers, j); }
  }

  /** A step moves a job from one place to the next; only `Queue` adds one. */
  lemma {:induction false} JobStep(s: State, step: Step, j: Job)
    requires Enabled(s, step)
    ensures var t := Apply(s, step);
            Everywhere(t, j) + s.queued[j] == Everywhere(s, j) + t.queued[j]
  {
    hide Count, InHandlers, RemoveAt;
    var t := Apply(s, step);
    match step {
      case Queue(job) => CountAppend(s.senders, job, j);
      case Enqueue(i) =>
        CountRemoveAt(s.senders, i, j);
        CountAppend(s.queue, s.senders[i], j);
      case HandOff(i) =>
        CountRemoveAt(s.senders, i, j);
        CountAppend(s.seeking, s.senders[i], j);
      case Dispatch =>
        CountTail(s.queue, j);
        CountAppend(s.seeking, s.queue[0], j);
      case TakeToken(i) =>
        CountRemoveAt(s.seeking, i, j);
        CountAppend(Jobs(s.holding), s.seeking[i], j);
        assert Jobs(t.holding) == Jobs(s.holding) + [s.seeking[i]];
      case Deliver(i) =>
        CountRemoveAt(Jobs(s.holding), i, j);
        ProjectRemoved(s.holding, i);
        HandlersUpdate(s.workers, s.holding[i].token, Handling(s.holding[i].job), j);
      case Announce(w) => HandlersUpdate(s.workers, w, Waiting, j);
      case Finish(w) => HandlersUpdate(s.workers, w, Announcing, j);
      case WorkerQuit(w) => HandlersUpdate(s.workers, w, Stopped, j);
      case _ =>
    }
  }

  lemma {:induction false} ProjectRemoved(holding: seq<Delivery>, i: nat)
    requires i < |holding|
    ensures Jobs(RemoveAt(holding, i)) == RemoveAt(Jobs(holding), i)
    ensures Tokens(RemoveAt(holding, i)) == RemoveAt(Tokens(holding), i)
  {
  }

  /** A step that starts a worker's wait gives out its token, and one that ends the wait uses it up. */
  lemma {:induction false} TokenStep(s: State, step: Step, w: nat)
    requires Enabled(s, step)
    ensures var t := Apply(s, step);
            TokenCount(t, w) + TokensDue(s, w) == TokenCount(s, w) + TokensDue(t, w)
  {
    hide Count, RemoveAt;
    var t := Apply(s, step);
    match step {
      case TakeToken(i) =>
        CountTail(s.pool, w);
        CountAppend(Tokens(s.holding), s.pool[0], w);
        assert Tokens(t.holding) == Tokens(s.holding) + [s.pool[0]];
      case Deliver(i) =>
        CountRemoveAt(Tokens(s.holding), i, w);
        ProjectRemoved(s.holding, i);
      case Announce(v) => CountAppend(s.pool, v, w);
      case _ =>
    }
  }

  /** Shutdown looks at the workers, the dispatcher and who was told to quit, and at nothing else. */
  lemma {:induction false} SameShutdown(s: State, t: State)
    requires OrderlyShutdown(s)
    requires t.workers == s.workers && t.dispatcher == s.dispatcher && t.quitting == s.quitting
    requires t.stopRequested == s.stopRequested || t.stopRequested
    ensures OrderlyShutdown(t)
  {
  }

  /** A worker that was not stopped moves on, or stops because it was told to. */
  lemma {:induction false} WorkerShutdown(s: State, t: State, w: nat, p: Phase)
    requires OrderlyShutdown(s) && w < |s.workers| && !s.workers[w].Stopped? && (p.Stopped? ==> w in s.quitting)
    requires t.workers == s.workers[w := p] && t.dispatcher == s.dispatcher && t.quitting == s.quitting
    requires t.stopRequested == s.stopRequested
    ensures OrderlyShutdown(t)
  {
  }

  lemma {:induction false} DispatcherShutdown(s: State, step: Step)
    requires OrderlyShutdown(s) && Enabled(s, step) && (step.BeginClosing? || step.Close? || step.Join?)
    ensures OrderlyShutdown(Apply(s, step))
  {
  }

  lemma {:induction false} ShutdownStep(s: State, step: Step)
    requires OrderlyShutdown(s) && Enabled(s, step)
    ensures OrderlyShutdown(Apply(s, step))
  {
    hide OrderlyShutdown, RemoveAt;
    var t := Apply(s, step);
    match step {
      case Deliver(i) => WorkerShutdown(s, t, s.holding[i].token, Handling(s.holding[i].job));
      case Announce(w) => WorkerShutdown(s, t, w, Waiting);
      case Finish(w) => WorkerShutdown(s, t, w, Announcing);
      case WorkerQuit(w) => WorkerShutdown(s, t, w, Stopped);
      case BeginClosing => DispatcherShutdown(s, step);
      case Close => DispatcherShutdown(s, step);
      case Join => DispatcherShutdown(s, step);
      case _ => SameShutdown(s, t);
    }
  }

  lemma {:induction false} StepInv(s: State, step: Step)
    requires Inv(s) && Enabled(s, step)
    ensures Inv(Apply(s, step))
  {
    var t := Apply(s, step);
    ShutdownStep(s, step);
    forall j: Job ensures Everywhere(t, j) == t.queued[j] { JobStep(s, step, j); }
    forall w: nat ensures TokenCount(t, w) == TokensDue(t, w) { TokenStep(s, step, w); }
  }

  // ----- Every interleaving -----

  /** The state after a sequence of steps, if each is enabled when its turn comes. */
  ghost predicate Runs(s: State, steps: seq<Step>, t: State)
    decreases |steps|
  {
    if steps == [] then t == s
    else Enabled(s, steps[0]) && Runs(Apply(s, steps[0]), steps[1..], t)
  }

  lemma {:induction false} RunInv(s: State, steps: seq<Step>, t: State)
    requires Inv(s) && Runs(s, steps, t)
    ensures Inv(t) && |t.workers| == |s.workers| && t.maxWorkers == s.maxWorkers
    decreases |steps|
  {
    if steps != [] {
      StepInv(s, steps[0]);
      RunInv(Apply(s, steps[0]), steps[1..], t);
    }
  }

  ghost predicate Reachable(s: State) {
    exists maxWaitingJobs, maxWorkers, n, steps :: Runs(Init(maxWaitingJobs, maxWorkers, n), steps, s)
  }

  lemma {:induction false} ReachableInv(s: State)
    requires Reachable(s)
    ensures Inv(s)
  {
    var maxWaitingJobs, maxWorkers, n, steps :| Runs(Init(maxWaitingJobs, maxWorkers, n), steps, s);
    InitInv(maxWaitingJobs, maxWorkers, n);
    RunInv(Init(maxWaitingJobs, maxWorkers, n), steps, s);
  }

  /**
   In every reachable state a job queued once is in exactly one place and has been handled at
   most once, and a worker has exactly one token if it waits or stopped while waiting, else none.
   */
  lemma {:induction false} ExactlyOnePlace(s: State, j: Job, w: nat)
    requires Reachable(s) && w < |s.workers|
    ensures Everywhere(s, j) == s.queued[j] && s.handled[j] <= s.queued[j]
    ensures TokenCount(s, w) == if s.workers[w].Waiting? || s.workers[w].Stopped? then 1 else 0
    ensures w in s.pool ==> s.workers[w].Waiting? || s.workers[w].Stopped?
  {
    ReachableInv(s);
    assert TokenCount(s, w) == TokensDue(s, w);
    CountIn(s.pool, w);
  }

  lemma {:induction false} DistinctBounded(s: seq<nat>, bound: set<nat>)
    requires (forall i :: 0 <= i < |s| ==> s[i] in bound) && forall i, j :: 0 <= i < j < |s| ==> s[i] != s[j]
    ensures |s| <= |bound|
  {
    if s != [] {
      var n := |s| - 1;
      DistinctBounded(s[..n], bound - {s[n]});
    }
  }

  function WorkerIds(n: nat): (ids: set<nat>)
    ensures |ids| == n && forall w: nat :: w in ids <==> w < n
  {
    if n == 0 then {} else WorkerIds(n - 1) + {n - 1}
  }

  lemma {:induction false} CountTwice<T>(s: seq<T>, i: nat, j: nat)
    requires i < j < |s| && s[i] == s[j]
    ensures Count(s, s[i]) >= 2
  {
    var x := s[i];
    CountRemoveAt(s, j, x);
    assert RemoveAt(s, j)[i] == x;
    CountIn(RemoveAt(s, j), x);
  }

  lemma {:induction false} PoolTokens(s: State, i: nat)
    requires Inv(s) && i < |s.pool|
    ensures s.pool[i] < |s.workers| && Waits(s.workers[s.pool[i]])
    ensures forall j :: i < j < |s.pool| ==> s.pool[j] != s.pool[i]
  {
    var w := s.pool[i];
    CountIn(s.pool, w);
    assert TokenCount(s, w) == TokensDue(s, w);
    forall j | i < j < |s.pool| ensures s.pool[j] != w {
      if s.pool[j] == w { CountTwice(s.pool, i, j); }
    }
  }

  /** With no more workers than the pool has room for, a worker announcing itself never blocks. */
  lemma {:induction false} AnnouncingNeverBlocks(s: State, w: nat)
    requires Reachable(s) && |s.workers| <= s.maxWorkers && w < |s.workers| && s.workers[w].Announcing?
    ensures Enabled(s, Announce(w))
  {
    ReachableInv(s);
    RoomToAnnounce(s, w);
  }

  lemma {:induction false} RoomToAnnounce(s: State, w: nat)
    requires Inv(s) && |s.workers| <= s.maxWorkers && w < |s.workers| && s.workers[w].Announcing?
    ensures Enabled(s, Announce(w))
  {
    var ids := WorkerIds(|s.workers|);
    forall i | 0 <= i < |s.pool| ensures s.pool[i] in ids - {w} && forall j :: i < j < |s.pool| ==> s.pool[j] != s.pool[i] {
      PoolTokens(s, i);
    }
    hide Inv;
    DistinctBounded(s.pool, ids - {w});
  }

  // ----- Termination -----

  function PhaseRank(p: Phase): (n: nat) {
    match p
    case Handling(_) => 3
    case Announcing => 2
    case Waiting => 1
    case Stopped => 0
  }

  function PhaseRanks(workers: seq<Phase>): (n: nat) {
    if workers == [] then 0 else PhaseRanks(workers[..|workers| - 1]) + PhaseRank(workers[|workers| - 1])
  }

  function DispatcherRank(d: Dispatcher, n: nat): (x: int) {
    match d
    case Running => 2 * n + 2
    case Closing(next) => 2 * (n - next) + 1
    case Joining(next) => 2 * (n - next)
    case Done => 0
  }

  /** How many steps can still happen without another `Queue` or `Stop`. */
  function Measure(s: State): (n: int) {
    7 * |s.senders| + 6 * |s.queue| + 5 * |s.seeking| + 4 * |s.holding|
    + PhaseRanks(s.workers) + DispatcherRank(s.dispatcher, |s.workers|)
  }

  predicate Internal(step: Step) { !step.Queue? && !step.Stop? }

  lemma {:induction false} PhaseRanksUpdate(workers: seq<Phase>, w: nat, p: Phase)
    requires w < |workers|
    ensures PhaseRanks(workers[w := p]) == PhaseRanks(workers) - PhaseRank(workers[w]) + PhaseRank(p)
  {
    var n := |workers| - 1;
    var after := workers[w := p];
    if w == n {
      assert after[..n] == workers[..n];
    } else {
      assert after[..n] == workers[..n][w := p] && after[n] == workers[n];
      PhaseRanksUpdate(workers[..n], w, p);
    }
  }

  lemma {:induction false} MeasureDecreases(s: State, step: Step)
    requires OrderlyShutdown(s) && Enabled(s, step) && Internal(step)
    ensures 0 <= Measure(Apply(s, step)) < Measure(s)
  {
    hide PhaseRanks, OrderlyShutdown, RemoveAt;
    ShutdownRank(s);
    ShutdownStep(s, step);
    ShutdownRank(Apply(s, step));
    match step {
      case Deliver(i) =>
        RemovedLength(s.holding, i);
        PhaseRanksUpdate(s.workers, s.holding[i].token, Handling(s.holding[i].job));
      case Announce(w) => PhaseRanksUpdate(s.workers, w, Waiting);
      case Finish(w) => PhaseRanksUpdate(s.workers, w, Announcing);
      case WorkerQuit(w) => PhaseRanksUpdate(s.workers, w, Stopped);
      case Enqueue(i) => RemovedLength(s.senders, i);
      case HandOff(i) => RemovedLength(s.senders, i);
      case TakeToken(i) => RemovedLength(s.seeking, i);
      case _ =>
    }
  }

  lemma {:induction false} RemovedLength<T>(s: seq<T>, i: nat)
    requires i < |s|
    ensures |RemoveAt(s, i)| == |s| - 1
  {
  }

  lemma {:induction false} ShutdownRank(s: State)
    requires OrderlyShutdown(s)
    ensures DispatcherRank(s.dispatcher, |s.workers|) >= 0
  {
  }

  /** Every run of the pool on its own is finite, with a bound known at the start. */
  lemma {:induction false} RunsAreBounded(s: State, steps: seq<Step>, t: State)
    requires Inv(s) && Runs(s, steps, t) && forall i :: 0 <= i < |steps| ==> Internal(steps[i])
    ensures |steps| <= Measure(s)
    decreases |steps|
  {
    if steps == [] {
      assert 0 <= Measure(s);
    } else {
      MeasureDecreases(s, steps[0]);
      StepInv(s, steps[0]);
      RunsAreBounded(Apply(s, steps[0]), steps[1..], t);
    }
  }

  /** Nothing more can happen until somebody calls `Queue` or `Stop`. */
  ghost predicate Quiescent(s: State) {
    forall step :: Internal(step) ==> !Enabled(s, step)
  }

  /** Once stopping, some step is enabled until the dispatcher is done. */
  lemma {:induction false} StoppingProgress(s: State) returns (step: Step)
    requires Inv(s) && |s.workers| <= s.maxWorkers && s.stopRequested && !s.dispatcher.Done?
    ensures Internal(step) && Enabled(s, step)
  {
    match s.dispatcher
    case Running => step := BeginClosing;
    case Closing(next) => step := if next < |s.workers| then Close else Join;
    case Joining(next) =>
      match s.workers[next] {
        case Announcing =>
          RoomToAnnounce(s, next);
          step := Announce(next);
        case Waiting => step := WorkerQuit(next);
        case Handling(_) => step := Finish(next);
        case Stopped => step := Join;
      }
  }

  /**
   `Stop` returns: from any reachable state with a stop requested, however the steps interleave,
   at most `Measure` of them happen, and when none is left every worker has stopped.
   */
  lemma {:induction false} StopReturns(s: State, steps: seq<Step>, t: State)
    requires Reachable(s) && |s.workers| <= s.maxWorkers && s.stopRequested
    requires Runs(s, steps, t) && forall i :: 0 <= i < |steps| ==> Internal(steps[i])
    ensures |steps| <= Measure(s)
    ensures Quiescent(t) ==> t.dispatcher.Done? && forall w :: 0 <= w < |t.workers| ==> t.workers[w].Stopped?
  {
    ReachableInv(s);
    RunsAreBounded(s, steps, t);
    RunInv(s, steps, t);
    StopStays(s, steps, t);
    if !t.dispatcher.Done? {
      var step := StoppingProgress(t);
    }
  }

  lemma {:induction false} StopStays(s: State, steps: seq<Step>, t: State)
    requires Runs(s, steps, t) && forall i :: 0 <= i < |steps| ==> Internal(steps[i])
    ensures t.stopRequested == s.stopRequested
    decreases |steps|
  {
    if steps != [] { StopStays(Apply(s, steps[0]), steps[1..], t); }
  }

  /** Without a stop, a pool with a worker can always go on while a job is unhandled. */
  lemma {:induction false} UnhandledProgress(s: State) returns (step: Step)
    requires Inv(s) && 0 < |s.workers| <= s.maxWorkers && !s.stopRequested && s.handled != s.queued
    ensures Internal(step) && Enabled(s, step)
  {
    if s.queue != [] {
      step := Step.Dispatch;
    } else if s.senders != [] {
      step := HandOff(0);
    } else if w :| 0 <= w < |s.workers| && s.workers[w].Handling? {
      step := Finish(w);
    } else if w :| 0 <= w < |s.workers| && s.workers[w].Announcing? {
      RoomToAnnounce(s, w);
      step := Announce(w);
    } else if s.holding != [] {
      HeldTokens(s, 0);
      step := Deliver(0);
    } else {
      assert TokenCount(s, 0) == TokensDue(s, 0) && Tokens(s.holding) == [];
      CountIn(s.pool, 0);
      step := TakeToken(0);
      if s.seeking == [] { NothingLeft(s); }
    }
  }

  lemma {:induction false} NothingLeft(s: State)
    requires Inv(s) && s.senders == s.queue == s.seeking == [] && s.holding == []
    requires forall w :: 0 <= w < |s.workers| ==> !s.workers[w].Handling?
    ensures s.handled == s.queued
  {
    forall j: Job ensures s.handled[j] == s.queued[j] {
      IdleHandlers(s.workers, j);
      assert Everywhere(s, j) == s.queued[j];
    }
  }

  /** So it comes to rest only when every job has been handled. */
  lemma {:induction false} RestMeansHandled(s: State)
    requires Reachable(s) && 0 < |s.workers| <= s.maxWorkers && !s.stopRequested && Quiescent(s)
    ensures s.handled == s.queued
  {
    ReachableInv(s);
    if s.handled != s.queued {
      var step := UnhandledProgress(s);
    }
  }

  lemma {:induction false} HeldTokens(s: State, i: nat)
    requires Inv(s) && i < |s.holding|
    ensures s.holding[i].token < |s.workers| && Waits(s.workers[s.holding[i].token])
  {
    var w := s.holding[i].token;
    assert Tokens(s.holding)[i] == w;
    CountIn(Tokens(s.holding), w);
    assert TokenCount(s, w) == TokensDue(s, w);
  }
}
