/** The worker pool as the steps its threads take: every lock, wait, wake-up and
    notification is a step of its own, and any enabled step may come next. */
module ThreadPool {
  import opened Collections
  import opened Options

  type Task = nat

  /** Where a worker thread is in its loop. */
  datatype Worker =
    | AtLoop               // about to lock the mutex
    | Holding              // has the mutex, about to test the wait predicate
    | Waiting              // blocked in wait, mutex released
    | Woken                // woken, about to lock the mutex again
    | Running(task: Task)  // runs a task it took
    | Ran                  // the task is over, the closing hook is not
    | Exited

  /** Who has the mutex. The critical sections of the closing hook and of the
      destructor are one step each. */
  datatype Owner =
    | Free
    | ByWorker(w: nat)
    | ByCaller(task: Task)  // in enqueue, before the stop test
    | Pushed                // in enqueue, task pushed, nobody notified yet
    | Notified              // in enqueue, after notify_one

  datatype State = State(
    workers: seq<Worker>,
    tasks: seq<Task>,
    stopped: bool,
    notifiedAll: bool,
    active: int,
    owner: Owner,
    accepted: seq<Task>,    // every task enqueue accepted, in order
    started: seq<Task>,     // every task a worker took, in order
    finished: seq<Task>)    // every task that ran to its end

  datatype Step =
    | Lock(w: nat)
    | Test(w: nat)
    | Finish(w: nat)
    | AfterHook(w: nat)
    | Spurious(w: nat)
    | EnqueueLock(task: Task)
    | EnqueueTest
    | NotifyOne(woken: Option<nat>)
    | EnqueueUnlock
    | Stop
    | NotifyAll

  predicate IsWaiting(s: State, w: nat) {
    w < |s.workers| && s.workers[w].Waiting?
  }

  predicate Enabled(s: State, step: Step) {
    match step
    case Lock(w) => w < |s.workers| && (s.workers[w].AtLoop? || s.workers[w].Woken?) && s.owner.Free?
    case Test(w) => w < |s.workers| && s.workers[w].Holding?
    case Finish(w) => w < |s.workers| && s.workers[w].Running?
    case AfterHook(w) => w < |s.workers| && s.workers[w].Ran? && s.owner.Free?
    case Spurious(w) => IsWaiting(s, w)
    case EnqueueLock(_) => s.owner.Free?
    case EnqueueTest => s.owner.ByCaller?
    case NotifyOne(Some(w)) => s.owner.Pushed? && IsWaiting(s, w)
    case NotifyOne(None) => s.owner.Pushed? && forall w: nat :: w < |s.workers| ==> !IsWaiting(s, w)
    case EnqueueUnlock => s.owner.Notified?
    case Stop => s.owner.Free? && !s.stopped
    case NotifyAll => s.stopped && !s.notifiedAll
  }

  /** The worker holding the mutex tests the wait predicate and goes on. */
  function AfterTest(s: State, w: nat): State
    requires w < |s.workers|
  {
    if !s.stopped && s.tasks == [] then
      s.(workers := s.workers[w := Waiting], owner := Free)
    else if s.tasks == [] then
      s.(workers := s.workers[w := Exited], owner := Free)
    else
      s.(workers := s.workers[w := Running(s.tasks[0])], owner := Free, tasks := s.tasks[1..],
         active := s.active + 1, started := s.started + [s.tasks[0]])
  }

  function WakeAll(workers: seq<Worker>): seq<Worker> {
    if workers == [] then []
    else [if workers[0].Waiting? then Woken else workers[0]] + WakeAll(workers[1..])
  }

  function Do(s: State, step: Step): State
    requires Enabled(s, step)
  {
    match step
    case Lock(w) => s.(workers := s.workers[w := Holding], owner := ByWorker(w))
    case Test(w) => AfterTest(s, w)
    case Finish(w) => s.(workers := s.workers[w := Ran], finished := s.finished + [s.workers[w].task])
    case AfterHook(w) => s.(workers := s.workers[w := AtLoop], active := s.active - 1)
    case Spurious(w) => s.(workers := s.workers[w := Woken])
    case EnqueueLock(t) => s.(owner := ByCaller(t))
    case EnqueueTest =>
      if s.stopped then s.(owner := Free)   // throws
      else s.(tasks := s.tasks + [s.owner.task], accepted := s.accepted + [s.owner.task], owner := Pushed)
    case NotifyOne(Some(w)) => s.(workers := s.workers[w := Woken], owner := Notified)
    case NotifyOne(None) => s.(owner := Notified)
    case EnqueueUnlock => s.(owner := Free)
    case Stop => s.(stopped := true)
    case NotifyAll => s.(workers := WakeAll(s.workers), notifiedAll := true)
  }

  function Start(capacity: nat): State {
    State(seq(capacity, _ => AtLoop), [], false, false, 0, Free, [], [], [])
  }

  predicate Legal(s: State, steps: seq<Step>)
    decreases |steps|
  {
    steps == [] || (Enabled(s, steps[0]) && Legal(Do(s, steps[0]), steps[1..]))
  }

  function Run(s: State, steps: seq<Step>): State
    requires Legal(s, steps)
    decreases |steps|
  {
    if steps == [] then s else Run(Do(s, steps[0]), steps[1..])
  }

  // ---------- sums over the workers ----------

  function BusyOf(w: Worker): nat {
    if w.Running? || w.Ran? then 1 else 0
  }

  function HandOf(w: Worker, t: Task): nat {
    if w.Running? && w.task == t then 1 else 0
  }

  /** Workers between the two hooks. */
  function Busy(workers: seq<Worker>): nat {
    if workers == [] then 0 else BusyOf(workers[0]) + Busy(workers[1..])
  }

  /** How many workers are running task t right now. */
  function InHand(workers: seq<Worker>, t: Task): nat {
    if workers == [] then 0 else HandOf(workers[0], t) + InHand(workers[1..], t)
  }

  function ComingOf(w: Worker): nat {
    if w.AtLoop? || w.Holding? || w.Woken? || w.Ran? then 1 else 0
  }

  /** Workers that are on their way to test the queue. */
  function Coming(workers: seq<Worker>): nat {
    if workers == [] then 0 else ComingOf(workers[0]) + Coming(workers[1..])
  }

  function Rank(w: Worker): nat {
    match w
    case Exited => 0
    case Waiting => 1
    case Holding => 2
    case AtLoop => 3
    case Woken => 3
    case Ran => 4
    case Running(_) => 5
  }

  function Ranks(workers: seq<Worker>): nat {
    if workers == [] then 0 else Rank(workers[0]) + Ranks(workers[1..])
  }

  lemma {:induction false} BusyAfterUpdate(workers: seq<Worker>, w: nat, to: Worker)
    requires w < |workers|
    ensures Busy(workers[w := to]) == Busy(workers) + BusyOf(to) - BusyOf(workers[w])
  {
    if w == 0 {
      assert workers[0 := to][1..] == workers[1..];
    } else {
      BusyAfterUpdate(workers[1..], w - 1, to);
      assert workers[w := to][1..] == workers[1..][w - 1 := to];
    }
  }

  lemma {:induction false} ComingAfterUpdate(workers: seq<Worker>, w: nat, to: Worker)
    requires w < |workers|
    ensures Coming(workers[w := to]) == Coming(workers) + ComingOf(to) - ComingOf(workers[w])
  {
    if w == 0 {
      assert workers[0 := to][1..] == workers[1..];
    } else {
      ComingAfterUpdate(workers[1..], w - 1, to);
      assert workers[w := to][1..] == workers[1..][w - 1 := to];
    }
  }

  lemma {:induction false} SomebodyIsComing(workers: seq<Worker>) returns (w: nat)
    requires Coming(workers) > 0
    ensures w < |workers| && ComingOf(workers[w]) == 1
  {
    if ComingOf(workers[0]) == 1 {
      w := 0;
    } else {
      var v := SomebodyIsComing(workers[1..]);
      w := v + 1;
    }
  }

  lemma {:induction false} InHandAfterUpdate(workers: seq<Worker>, w: nat, to: Worker, t: Task)
    requires w < |workers|
    ensures InHand(workers[w := to], t) == InHand(workers, t) + HandOf(to, t) - HandOf(workers[w], t)
  {
    if w == 0 {
      assert workers[0 := to][1..] == workers[1..];
    } else {
      InHandAfterUpdate(workers[1..], w - 1, to, t);
      assert workers[w := to][1..] == workers[1..][w - 1 := to];
    }
  }

  lemma {:induction false} RanksAfterUpdate(workers: seq<Worker>, w: nat, to: Worker)
    requires w < |workers|
    ensures Ranks(workers[w := to]) == Ranks(workers) + Rank(to) - Rank(workers[w])
  {
    if w == 0 {
      assert workers[0 := to][1..] == workers[1..];
    } else {
      RanksAfterUpdate(workers[1..], w - 1, to);
      assert workers[w := to][1..] == workers[1..][w - 1 := to];
    }
  }

  lemma {:induction false} WakeAllIs(workers: seq<Worker>)
    ensures |WakeAll(workers)| == |workers|
    ensures forall w :: 0 <= w < |workers| ==>
              WakeAll(workers)[w] == if workers[w].Waiting? then Woken else workers[w]
    ensures Busy(WakeAll(workers)) == Busy(workers)
  {
    if workers == [] {
    } else {
      WakeAllIs(workers[1..]);
      assert WakeAll(workers)[1..] == WakeAll(workers[1..]);
    }
  }

  lemma {:induction false} WakeAllKeepsHands(workers: seq<Worker>, t: Task)
    ensures InHand(WakeAll(workers), t) == InHand(workers, t)
  {
    if workers == [] {
    } else {
      WakeAllKeepsHands(workers[1..], t);
      assert WakeAll(workers)[1..] == WakeAll(workers[1..]);
    }
  }

  lemma {:induction false} BusyIsAtMostAll(workers: seq<Worker>)
    ensures Busy(workers) <= |workers|
    ensures (exists w :: 0 <= w < |workers| && (workers[w].Running? || workers[w].Ran?)) ==> Busy(workers) > 0
  {
    if workers == [] {
    } else {
      BusyIsAtMostAll(workers[1..]);
      assert forall w :: 1 <= w < |workers| ==> workers[w] == workers[1..][w - 1];
    }
  }

  // ---------- the invariant ----------

  predicate Awake(s: State, w: nat) {
    w < |s.workers| && !s.workers[w].Waiting? && !s.workers[w].Exited?
  }

  /** The mutex is exclusive. */
  ghost predicate LockIsExclusive(s: State) {
    && (forall w: nat :: w < |s.workers| && s.workers[w].Holding? ==> s.owner == ByWorker(w))
    && (s.owner.ByWorker? ==> s.owner.w < |s.workers| && s.workers[s.owner.w].Holding?)
    && (s.owner.Pushed? || s.owner.Notified? ==> !s.stopped)
  }

  ghost predicate SomebodyWaits(s: State) {
    exists w: nat :: IsWaiting(s, w)
  }

  /** How many queued tasks are looked after: each worker that is coming takes
      one, and the caller that pushed the last is about to wake one more. */
  function LookedAfter(s: State): nat {
    Coming(s.workers) + if s.owner.Pushed? then 1 else 0
  }

  /** While a worker sleeps, every queued task has another worker of its own. */
  ghost predicate NoLostWakeup(s: State) {
    && (SomebodyWaits(s) ==> |s.tasks| <= LookedAfter(s))
    && (s.notifiedAll ==> s.stopped && !SomebodyWaits(s))
    && (forall w: nat :: w < |s.workers| && s.workers[w].Exited? ==> s.stopped && s.tasks == [])
  }

  /** Task t was taken as often as it was finished or is being run. */
  ghost predicate TaskAccounted(s: State, t: Task) {
    multiset(s.started)[t] == multiset(s.finished)[t] + InHand(s.workers, t)
  }

  /** Tasks are taken in the order they were accepted, each once, and the counter
      counts the workers between the two hooks. */
  ghost predicate Accounted(s: State) {
    && s.accepted == s.started + s.tasks
    && (forall t :: TaskAccounted(s, t))
    && s.active == Busy(s.workers)
  }

  ghost predicate Inv(s: State) {
    LockIsExclusive(s) && NoLostWakeup(s) && Accounted(s)
  }

  lemma {:induction false} StartSums(n: nat, t: Task)
    ensures Busy(seq(n, _ => AtLoop)) == 0 && InHand(seq(n, _ => AtLoop), t) == 0
    decreases n
  {
    if n == 0 {
    } else {
      StartSums(n - 1, t);
      assert seq(n, _ => AtLoop)[1..] == seq(n - 1, _ => AtLoop);
    }
  }

  lemma StartSatisfiesInv(capacity: nat)
    ensures Inv(Start(capacity))
  {
    forall t
      ensures TaskAccounted(Start(capacity), t)
    {
      StartSums(capacity, t);
    }
    StartSums(capacity, 0);
  }

  /** The one worker a step moves, if it moves just one. */
  function Mover(step: Step): Option<nat> {
    match step
    case Lock(w) => Some(w)
    case Test(w) => Some(w)
    case Finish(w) => Some(w)
    case AfterHook(w) => Some(w)
    case Spurious(w) => Some(w)
    case NotifyOne(woken) => woken
    case _ => None
  }

  lemma StepKeepsCounter(s: State, step: Step)
    requires Inv(s) && Enabled(s, step)
    ensures Do(s, step).active == Busy(Do(s, step).workers)
  {
    if Mover(step).Some? {
      BusyAfterUpdate(s.workers, Mover(step).value, Do(s, step).workers[Mover(step).value]);
    }
    if step.NotifyAll? {
      WakeAllIs(s.workers);
    }
  }

  lemma StepKeepsOrder(s: State, step: Step)
    requires Inv(s) && Enabled(s, step)
    ensures Do(s, step).accepted == Do(s, step).started + Do(s, step).tasks
  {
    if step.Test? && s.tasks != [] {
      assert s.tasks == [s.tasks[0]] + s.tasks[1..];
    }
  }

  lemma TestKeepsTaskAccounted(s: State, w: nat, t: Task)
    requires TaskAccounted(s, t) && Enabled(s, Test(w))
    ensures TaskAccounted(Do(s, Test(w)), t)
  {
    InHandAfterUpdate(s.workers, w, Do(s, Test(w)).workers[w], t);
    if s.tasks != [] {
      CountSnoc(s.started, s.tasks[0], t);
    }
    hide InHand;
  }

  lemma FinishKeepsTaskAccounted(s: State, w: nat, t: Task)
    requires TaskAccounted(s, t) && Enabled(s, Finish(w))
    ensures TaskAccounted(Do(s, Finish(w)), t)
  {
    InHandAfterUpdate(s.workers, w, Ran, t);
    CountSnoc(s.finished, s.workers[w].task, t);
    hide InHand;
  }

  lemma StepKeepsTaskAccounted(s: State, step: Step, t: Task)
    requires TaskAccounted(s, t) && Enabled(s, step)
    ensures TaskAccounted(Do(s, step), t)
  {
    if step.Test? {
      TestKeepsTaskAccounted(s, step.w, t);
    } else if step.Finish? {
      FinishKeepsTaskAccounted(s, step.w, t);
    } else if step.NotifyAll? {
      WakeAllKeepsHands(s.workers, t);
    } else {
      if Mover(step).Some? {
        InHandAfterUpdate(s.workers, Mover(step).value, Do(s, step).workers[Mover(step).value], t);
      }
      hide InHand;
      assert Do(s, step).started == s.started && Do(s, step).finished == s.finished;
    }
  }

  lemma StepKeepsAccounted(s: State, step: Step)
    requires Inv(s) && Enabled(s, step)
    ensures Accounted(Do(s, step))
  {
    StepKeepsCounter(s, step);
    StepKeepsOrder(s, step);
    forall t
      ensures TaskAccounted(Do(s, step), t)
    {
      StepKeepsTaskAccounted(s, step, t);
    }
  }

  lemma StepKeepsLock(s: State, step: Step)
    requires Inv(s) && Enabled(s, step)
    ensures LockIsExclusive(Do(s, step))
  {
    if step.NotifyAll? {
      WakeAllIs(s.workers);
    } else if Mover(step).Some? {
      var w := Mover(step).value;
      assert Do(s, step).workers == s.workers[w := Do(s, step).workers[w]];
    }
  }

  lemma NobodyBlocksAfterNotifyAll(s: State, step: Step)
    requires Inv(s) && Enabled(s, step) && Do(s, step).notifiedAll
    ensures !SomebodyWaits(Do(s, step))
  {
    WakeAllIs(s.workers);
    forall w: nat
      ensures !IsWaiting(Do(s, step), w)
    {
      assert s.notifiedAll ==> !IsWaiting(s, w);
    }
  }

  lemma ExitMeansStopped(s: State, step: Step, w: nat)
    requires Inv(s) && Enabled(s, step)
    requires w < |Do(s, step).workers| && Do(s, step).workers[w].Exited?
    ensures Do(s, step).stopped && Do(s, step).tasks == []
  {
    if step.NotifyAll? {
      WakeAllIs(s.workers);
    }
    assert s.workers[w].Exited? || step == Test(w);
  }

  /** A worker goes to sleep on an empty queue only, and whatever takes a worker
      off its way to the queue takes a task off too. */
  lemma StepKeepsLookedAfter(s: State, step: Step)
    requires Inv(s) && Enabled(s, step) && SomebodyWaits(Do(s, step))
    ensures |Do(s, step).tasks| <= LookedAfter(Do(s, step))
  {
    var s' := Do(s, step);
    if step.NotifyAll? {
      NobodyBlocksAfterNotifyAll(s, step);
      assert false;
    } else {
      var w: nat :| IsWaiting(s', w);
      assert IsWaiting(s, w) || s'.tasks == [];
      if Mover(step).Some? {
        ComingAfterUpdate(s.workers, Mover(step).value, s'.workers[Mover(step).value]);
      }
    }
  }

  lemma StepKeepsWakeup(s: State, step: Step)
    requires Inv(s) && Enabled(s, step)
    ensures NoLostWakeup(Do(s, step))
  {
    var s' := Do(s, step);
    if s'.notifiedAll {
      NobodyBlocksAfterNotifyAll(s, step);
    }
    forall w: nat | w < |s'.workers| && s'.workers[w].Exited?
      ensures s'.stopped && s'.tasks == []
    {
      ExitMeansStopped(s, step, w);
    }
    if SomebodyWaits(s') {
      StepKeepsLookedAfter(s, step);
    }
  }

  lemma StepKeepsInv(s: State, step: Step)
    requires Inv(s) && Enabled(s, step)
    ensures Inv(Do(s, step))
  {
    StepKeepsAccounted(s, step);
    StepKeepsLock(s, step);
    StepKeepsWakeup(s, step);
  }

  lemma {:induction false} EveryRunKeepsInv(s: State, steps: seq<Step>)
    requires Inv(s) && Legal(s, steps)
    ensures Inv(Run(s, steps))
    decreases |steps|
  {
    if steps == [] {
    } else {
      StepKeepsInv(s, steps[0]);
      EveryRunKeepsInv(Do(s, steps[0]), steps[1..]);
    }
  }

  // ---------- what the invariant buys ----------

  lemma SomeWorkerIsAwake(s: State)
    requires Inv(s) && s.workers != [] && s.tasks != [] && !s.owner.Pushed?
    ensures exists w: nat :: Awake(s, w)
  {
    if SomebodyWaits(s) {
      var w := SomebodyIsComing(s.workers);
      assert Awake(s, w);
    } else {
      assert !IsWaiting(s, 0);
      assert Awake(s, 0);
    }
  }

  lemma {:induction false} WorkerCountIsConstant(s: State, steps: seq<Step>)
    requires Legal(s, steps)
    ensures |Run(s, steps).workers| == |s.workers|
    decreases |steps|
  {
    if steps == [] {
    } else {
      WakeAllIs(s.workers);
      WorkerCountIsConstant(Do(s, steps[0]), steps[1..]);
    }
  }

  /** No lost wake-up, on every run: while some worker is blocked, there are at
      least as many others on their way to the queue as there are queued tasks,
      counting the one a caller between push and notification is about to wake.
      So a pool of at least one worker never has a queued task and everybody
      asleep, and after the destructor's notification nobody is blocked. */
  lemma NoWakeupIsLost(capacity: nat, steps: seq<Step>)
    requires Legal(Start(capacity), steps)
    ensures var s := Run(Start(capacity), steps);
            && (SomebodyWaits(s) ==> |s.tasks| <= LookedAfter(s))
            && (capacity > 0 && s.tasks != [] && !s.owner.Pushed? ==> exists w: nat :: Awake(s, w))
            && (s.notifiedAll ==> !SomebodyWaits(s))
  {
    StartSatisfiesInv(capacity);
    EveryRunKeepsInv(Start(capacity), steps);
    WorkerCountIsConstant(Start(capacity), steps);
    var s := Run(Start(capacity), steps);
    if capacity > 0 && s.tasks != [] && !s.owner.Pushed? {
      SomeWorkerIsAwake(s);
    }
  }

  /** On every run the tasks taken are the tasks accepted, in order and each
      once; the counter counts the workers between the hooks and stays within
      the capacity. */
  lemma TasksStartInOrderOnce(capacity: nat, steps: seq<Step>, t: Task)
    requires Legal(Start(capacity), steps)
    ensures var s := Run(Start(capacity), steps);
            && s.accepted == s.started + s.tasks
            && multiset(s.started)[t] == multiset(s.finished)[t] + InHand(s.workers, t)
            && 0 <= s.active == Busy(s.workers) <= capacity
  {
    StartSatisfiesInv(capacity);
    EveryRunKeepsInv(Start(capacity), steps);
    assert TaskAccounted(Run(Start(capacity), steps), t);
    WorkerCountIsConstant(Start(capacity), steps);
    BusyIsAtMostAll(Run(Start(capacity), steps).workers);
  }

  ghost predicate AllExited(s: State) {
    forall w :: 0 <= w < |s.workers| ==> s.workers[w].Exited?
  }

  lemma {:induction false} NothingInHand(workers: seq<Worker>, t: Task)
    requires forall w :: 0 <= w < |workers| ==> workers[w].Exited?
    ensures InHand(workers, t) == 0
  {
    if workers == [] {
    } else {
      NothingInHand(workers[1..], t);
    }
  }

  /** When every worker has exited, every accepted task has run, exactly once. */
  lemma ExitedPoolHasRunEverything(s: State)
    requires Inv(s) && AllExited(s) && s.workers != []
    ensures s.tasks == [] && s.started == s.accepted
    ensures multiset(s.finished) == multiset(s.accepted)
  {
    assert s.workers[0].Exited?;
    assert s.started + [] == s.started;
    forall t
      ensures multiset(s.finished)[t] == multiset(s.accepted)[t]
    {
      NothingInHand(s.workers, t);
      assert TaskAccounted(s, t);
    }
  }

  // ---------- shutting down ----------

  predicate IsWorkerStep(step: Step) {
    step.Lock? || step.Test? || step.Finish? || step.AfterHook?
  }

  /** The work left once nobody can block any more. */
  function Left(s: State): nat {
    4 * |s.tasks| + Ranks(s.workers)
  }

  lemma WorkerStepsBringTheEndCloser(s: State, step: Step)
    requires Inv(s) && s.notifiedAll && Enabled(s, step) && IsWorkerStep(step)
    ensures Left(Do(s, step)) < Left(s) && Do(s, step).notifiedAll
  {
    RanksAfterUpdate(s.workers, step.w, Do(s, step).workers[step.w]);
  }

  /** Unless a caller is inside enqueue, a pool with a live worker can step. */
  lemma LivePoolCanStep(s: State) returns (step: Step)
    requires Inv(s) && s.notifiedAll && !AllExited(s)
    requires s.owner.Free? || s.owner.ByWorker?
    ensures Enabled(s, step) && IsWorkerStep(step)
    ensures Do(s, step).owner.Free? || Do(s, step).owner.ByWorker?
  {
    if s.owner.ByWorker? {
      step := Test(s.owner.w);
    } else {
      var w: nat :| w < |s.workers| && !s.workers[w].Exited?;
      assert !IsWaiting(s, w);
      step := if s.workers[w].Running? then Finish(w) else if s.workers[w].Ran? then AfterHook(w) else Lock(w);
    }
  }

  /** A caller that is inside enqueue when the pool has been stopped has only to
      find that out and throw. */
  function CallersLeft(s: State): nat {
    if s.owner.ByCaller? then 1 else 0
  }

  /** After the destructor's notification, in whatever state that finds the pool,
      the workers finish the queue and exit within a number of steps known in
      advance. The only step of anybody else is that of a caller who has the
      mutex and is refused. */
  lemma {:induction false} PoolShutsDown(s: State) returns (steps: seq<Step>)
    requires Inv(s) && s.notifiedAll && s.workers != []
    ensures Legal(s, steps) && |steps| <= Left(s) + CallersLeft(s)
    ensures forall i :: 0 <= i < |steps| ==> IsWorkerStep(steps[i]) || (i == 0 && s.owner.ByCaller? && steps[i].EnqueueTest?)
    ensures AllExited(Run(s, steps))
    ensures Run(s, steps).accepted == s.accepted
    ensures multiset(Run(s, steps).finished) == multiset(s.accepted)
    decreases Left(s), CallersLeft(s)
  {
    if AllExited(s) {
      steps := [];
      ExitedPoolHasRunEverything(s);
    } else {
      var step;
      if s.owner.ByCaller? {
        step := EnqueueTest;
        assert Do(s, step) == s.(owner := Free);
      } else {
        step := LivePoolCanStep(s);
        WorkerStepsBringTheEndCloser(s, step);
      }
      StepKeepsInv(s, step);
      var rest := PoolShutsDown(Do(s, step));
      steps := [step] + rest;
      assert steps[1..] == rest;
    }
  }

  /** However the workers are scheduled, they cannot take more steps than that. */
  lemma {:induction false} ShutdownIsBounded(s: State, steps: seq<Step>)
    requires Inv(s) && s.notifiedAll && Legal(s, steps)
    requires forall i :: 0 <= i < |steps| ==> IsWorkerStep(steps[i])
    ensures |steps| + Left(Run(s, steps)) <= Left(s)
    decreases |steps|
  {
    if steps == [] {
    } else {
      WorkerStepsBringTheEndCloser(s, steps[0]);
      StepKeepsInv(s, steps[0]);
      ShutdownIsBounded(Do(s, steps[0]), steps[1..]);
    }
  }

  /** A pool of no workers accepts tasks it can never run: the capacity must be
      positive for any of this. */
  lemma PoolWithoutWorkersStrandsTasks(task: Task)
    ensures var steps := [EnqueueLock(task), EnqueueTest, NotifyOne(None), EnqueueUnlock];
            Legal(Start(0), steps) && Run(Start(0), steps).tasks == [task]
            && forall w: nat :: !Awake(Run(Start(0), steps), w)
  {
    var s := Start(0);
    var s1 := Do(s, EnqueueLock(task));
    var s2 := Do(s1, EnqueueTest);
    var s3 := Do(s2, NotifyOne(None));
    var s4 := Do(s3, EnqueueUnlock);
    assert Legal(s4, []) && Run(s4, []) == s4;
    assert [EnqueueUnlock][1..] == [];
    assert Legal(s3, [EnqueueUnlock]) && Run(s3, [EnqueueUnlock]) == s4;
    assert [NotifyOne(None), EnqueueUnlock][1..] == [EnqueueUnlock];
    assert Legal(s2, [NotifyOne(None), EnqueueUnlock]) && Run(s2, [NotifyOne(None), EnqueueUnlock]) == s4;
    assert [EnqueueTest, NotifyOne(None), EnqueueUnlock][1..] == [NotifyOne(None), EnqueueUnlock];
    assert Legal(s1, [EnqueueTest, NotifyOne(None), EnqueueUnlock]) && Run(s1, [EnqueueTest, NotifyOne(None), EnqueueUnlock]) == s4;
    assert [EnqueueLock(task), EnqueueTest, NotifyOne(None), EnqueueUnlock][1..] == [EnqueueTest, NotifyOne(None), EnqueueUnlock];
  }
}
