/** The bounded worker pool as a step system: workers, `enqueue` calls and one shutdown share a
    queue, a mutex and a single condition variable. */
module ThreadPool {
  import opened Counting

  type Task = nat

  const CAPACITY: nat := 100

  // ---------------------------------------------------------------- critical sections

  datatype WorkerVerdict = Sleep | Exit | Take(task: Task)
  datatype CallVerdict = Wait | Throw | Accept

  /** What a worker does with the lock held: sleep, leave, or take the oldest task. */
  function WorkerSection(tasks: seq<Task>, stop: bool): (WorkerVerdict, seq<Task>) {
    if !stop && tasks == [] then (Sleep, tasks)
    else if stop && tasks == [] then (Exit, tasks)
    else (Take(tasks[0]), tasks[1..])
  }

  /** What `enqueue` does with the lock held: wait, throw, or append the task. */
  function CallSection(tasks: seq<Task>, stop: bool, task: Task): (CallVerdict, seq<Task>) {
    if !stop && |tasks| >= CAPACITY then (Wait, tasks)
    else if stop then (Throw, tasks)
    else (Accept, tasks + [task])
  }

  /** The fields of the pool that the mutex guards, and its three critical sections. A wait that
      blocks is the verdict `Sleep` or `Wait`; the step system below interleaves the sections. */
  class ThreadPool {
    var tasks: seq<Task>
    var stopped: bool

    constructor ()
      ensures tasks == [] && !stopped
    {
      tasks, stopped := [], false;
    }

    method EnqueueSection(task: Task) returns (verdict: CallVerdict)
      modifies this
      ensures (verdict, tasks) == old(CallSection(tasks, stopped, task)) && stopped == old(stopped)
      ensures verdict == Throw <==> stopped
      ensures verdict == Accept ==> old(|tasks|) < CAPACITY && tasks == old(tasks) + [task]
      ensures verdict != Accept ==> tasks == old(tasks)
    {
      if !(stopped || |tasks| < 100) {
        return Wait;
      }
      if stopped {
        return Throw;
      }
      tasks := tasks + [task];
      return Accept;
    }

    method WorkerSectionOnce() returns (verdict: WorkerVerdict)
      modifies this
      ensures (verdict, tasks) == old(WorkerSection(tasks, stopped)) && stopped == old(stopped)
      ensures verdict == Sleep <==> !stopped && old(tasks) == []
      ensures verdict == Exit <==> stopped && old(tasks) == []
      ensures verdict.Take? ==> old(tasks) == [verdict.task] + tasks
    {
      if !(stopped || tasks != []) {
        return Sleep;
      }
      if stopped && tasks == [] {
        return Exit;
      }
      var task := tasks[0];
      tasks := tasks[1..];
      return Take(task);
    }

    method StopSection()
      modifies this
      ensures stopped && tasks == old(tasks)
    {
      stopped := true;
    }
  }

  // ---------------------------------------------------------------- the step system

  /** `Start` and `Woken` are about to lock; `Asleep` is in the wait set. */
  datatype WorkerPc = Start | Locked | Asleep | Woken | Running(task: Task) | Done

  datatype CallPc = Entering | Holding | Waiting | Notified | MustNotify | Returned | Threw

  datatype Call = Call(task: Task, pc: CallPc)

  datatype StopPc = NotCalled | StopHolding | MustNotifyAll | Joining | Stopped

  datatype Holder = Nobody | Worker(w: nat) | Caller(c: nat) | Stopper

  /** `accepted`, `taken` and `finished` are histories: every task ever appended to the queue, taken
      from it, and run to its end. */
  datatype State = State(
    tasks: seq<Task>, stop: bool, lock: Holder,
    workers: seq<WorkerPc>, calls: seq<Call>, stopper: StopPc,
    accepted: seq<Task>, taken: seq<Task>, finished: seq<Task>)

  datatype Target = NoTarget | WakeWorker(w: nat) | WakeCall(c: nat)

  datatype Step =
    | WorkerLocks(w: nat)
    | WorkerChecks(w: nat)
    | WorkerFinishes(w: nat)
    | WorkerWakesSpuriously(w: nat)
    | CallEnters(task: Task)
    | CallLocks(c: nat)
    | CallChecks(c: nat)
    | CallNotifies(c: nat, target: Target)
    | CallWakesSpuriously(c: nat)
    | StopLocks
    | StopSets
    | StopNotifies
    | StopJoins

  function Init(n: nat): State {
    State([], false, Nobody, seq(n, _ => Start), [], NotCalled, [], [], [])
  }

  predicate IsAsleep(pc: WorkerPc) { pc == Asleep }

  predicate IsComing(pc: WorkerPc) { pc == Start || pc == Locked || pc == Woken }

  predicate OwesNotify(call: Call) { call.pc == MustNotify }

  predicate NobodySleeps(s: State) {
    && (forall w :: 0 <= w < |s.workers| ==> s.workers[w] != Asleep)
    && (forall c :: 0 <= c < |s.calls| ==> s.calls[c].pc != Waiting)
  }

  predicate AllDone(workers: seq<WorkerPc>) {
    forall w :: 0 <= w < |workers| ==> workers[w] == Done
  }

  /** `notify_one` wakes some thread of the wait set; it does nothing only if the set is empty. */
  predicate NotifyMayPick(s: State, target: Target) {
    match target
    case NoTarget => NobodySleeps(s)
    case WakeWorker(w) => w < |s.workers| && s.workers[w] == Asleep
    case WakeCall(c) => c < |s.calls| && s.calls[c].pc == Waiting
  }

  predicate Enabled(s: State, step: Step) {
    match step
    case WorkerLocks(w) => w < |s.workers| && (s.workers[w] == Start || s.workers[w] == Woken) && s.lock == Nobody
    case WorkerChecks(w) => w < |s.workers| && s.workers[w] == Locked
    case WorkerFinishes(w) => w < |s.workers| && s.workers[w].Running?
    case WorkerWakesSpuriously(w) => w < |s.workers| && s.workers[w] == Asleep
    case CallEnters(_) => true
    case CallLocks(c) => c < |s.calls| && (s.calls[c].pc == Entering || s.calls[c].pc == Notified) && s.lock == Nobody
    case CallChecks(c) => c < |s.calls| && s.calls[c].pc == Holding
    case CallNotifies(c, target) => c < |s.calls| && s.calls[c].pc == MustNotify && NotifyMayPick(s, target)
    case CallWakesSpuriously(c) => c < |s.calls| && s.calls[c].pc == Waiting
    case StopLocks => s.stopper == NotCalled && s.lock == Nobody
    case StopSets => s.stopper == StopHolding
    case StopNotifies => s.stopper == MustNotifyAll
    case StopJoins => s.stopper == Joining && AllDone(s.workers)
  }

  function SetWorker(s: State, w: nat, pc: WorkerPc): State
    requires w < |s.workers|
  {
    s.(workers := s.workers[w := pc])
  }

  function SetCall(s: State, c: nat, pc: CallPc): State
    requires c < |s.calls|
  {
    s.(calls := s.calls[c := s.calls[c].(pc := pc)])
  }

  function WakeWorkers(workers: seq<WorkerPc>): (r: seq<WorkerPc>)
    ensures |r| == |workers|
  {
    seq(|workers|, w requires 0 <= w < |workers| => if workers[w] == Asleep then Woken else workers[w])
  }

  function WakeCalls(calls: seq<Call>): (r: seq<Call>)
    ensures |r| == |calls|
  {
    seq(|calls|, c requires 0 <= c < |calls| => if calls[c].pc == Waiting then calls[c].(pc := Notified) else calls[c])
  }

  function Checked(s: State, w: nat): State
    requires w < |s.workers|
  {
    var (verdict, rest) := WorkerSection(s.tasks, s.stop);
    var u := s.(lock := Nobody, tasks := rest);
    match verdict
    case Sleep => SetWorker(u, w, Asleep)
    case Exit => SetWorker(u, w, Done)
    case Take(task) => SetWorker(u, w, Running(task)).(taken := s.taken + [task])
  }

  function Called(s: State, c: nat): State
    requires c < |s.calls|
  {
    var task := s.calls[c].task;
    var (verdict, rest) := CallSection(s.tasks, s.stop, task);
    var u := s.(lock := Nobody, tasks := rest);
    match verdict
    case Wait => SetCall(u, c, Waiting)
    case Throw => SetCall(u, c, Threw)
    case Accept => SetCall(u, c, MustNotify).(accepted := s.accepted + [task])
  }

  function Woke(s: State, target: Target): State
    requires NotifyMayPick(s, target)
  {
    match target
    case NoTarget => s
    case WakeWorker(w) => SetWorker(s, w, Woken)
    case WakeCall(c) => SetCall(s, c, Notified)
  }

  function Next(s: State, step: Step): State
    requires Enabled(s, step)
  {
    match step
    case WorkerLocks(w) => SetWorker(s, w, Locked).(lock := Worker(w))
    case WorkerChecks(w) => Checked(s, w)
    case WorkerFinishes(w) => SetWorker(s, w, Start).(finished := s.finished + [s.workers[w].task])
    case WorkerWakesSpuriously(w) => SetWorker(s, w, Woken)
    case CallEnters(task) => s.(calls := s.calls + [Call(task, Entering)])
    case CallLocks(c) => SetCall(s, c, Holding).(lock := Caller(c))
    case CallChecks(c) => Called(s, c)
    case CallNotifies(c, target) => SetCall(Woke(s, target), c, Returned)
    case CallWakesSpuriously(c) => SetCall(s, c, Notified)
    case StopLocks => s.(stopper := StopHolding, lock := Stopper)
    case StopSets => s.(stop := true, stopper := MustNotifyAll, lock := Nobody)
    case StopNotifies => s.(workers := WakeWorkers(s.workers), calls := WakeCalls(s.calls), stopper := Joining)
    case StopJoins => s.(stopper := Stopped)
  }

  predicate Legal(s: State, steps: seq<Step>)
    decreases steps
  {
    steps == [] || (Enabled(s, steps[0]) && Legal(Next(s, steps[0]), steps[1..]))
  }

  function Run(s: State, steps: seq<Step>): State
    requires Legal(s, steps)
    decreases steps
  {
    if steps == [] then s else Run(Next(s, steps[0]), steps[1..])
  }

  // ---------------------------------------------------------------- invariants

  /** The mutex is held by exactly the thread whose program counter says so. */
  predicate LockInv(s: State) {
    && (forall w :: 0 <= w < |s.workers| ==> (s.workers[w] == Locked <==> s.lock == Worker(w)))
    && (forall c :: 0 <= c < |s.calls| ==> (s.calls[c].pc == Holding <==> s.lock == Caller(c)))
    && (s.stopper == StopHolding <==> s.lock == Stopper)
    && (s.lock.Worker? ==> s.lock.w < |s.workers|)
    && (s.lock.Caller? ==> s.lock.c < |s.calls|)
  }

  /** How many workers are running the task. */
  function Runners(workers: seq<WorkerPc>, task: Task): nat {
    if workers == [] then 0 else (if workers[0] == Running(task) then 1 else 0) + Runners(workers[1..], task)
  }

  /** First in, first out, never more than the capacity, and no task lost or duplicated. */
  ghost predicate QueueInv(s: State) {
    && s.accepted == s.taken + s.tasks
    && |s.tasks| <= CAPACITY
    && (forall task :: multiset(s.taken)[task] == multiset(s.finished)[task] + Runners(s.workers, task))
  }

  predicate StopInv(s: State) {
    && (s.stop <==> s.stopper.MustNotifyAll? || s.stopper.Joining? || s.stopper.Stopped?)
    && (forall w :: 0 <= w < |s.workers| && s.workers[w] == Done ==> s.stop && s.tasks == [])
    && (s.stopper.Joining? || s.stopper.Stopped? ==> NobodySleeps(s))
    && (s.stopper.Stopped? ==> AllDone(s.workers))
  }

  ghost predicate Inv(s: State) {
    LockInv(s) && QueueInv(s) && StopInv(s)
  }

  lemma {:induction false} RunnersUpdate(workers: seq<WorkerPc>, w: nat, pc: WorkerPc, task: Task)
    requires w < |workers|
    ensures Runners(workers[w := pc], task) + (if workers[w] == Running(task) then 1 else 0)
         == Runners(workers, task) + (if pc == Running(task) then 1 else 0)
  {
    if w == 0 {
      assert workers[w := pc][1..] == workers[1..];
    } else {
      RunnersUpdate(workers[1..], w - 1, pc, task);
      assert workers[w := pc][1..] == workers[1..][w - 1 := pc];
    }
  }

  lemma {:induction false} RunnersAfterWake(workers: seq<WorkerPc>, task: Task)
    ensures Runners(WakeWorkers(workers), task) == Runners(workers, task)
  {
    if workers != [] {
      RunnersAfterWake(workers[1..], task);
      assert WakeWorkers(workers)[1..] == WakeWorkers(workers[1..]);
    }
  }

  lemma {:induction false} NothingRuns(workers: seq<WorkerPc>, task: Task)
    requires forall w :: 0 <= w < |workers| ==> !workers[w].Running?
    ensures Runners(workers, task) == 0
  {
    if workers != [] {
      NothingRuns(workers[1..], task);
    }
  }

  predicate IsWorkerStep(step: Step) {
    step.WorkerLocks? || step.WorkerChecks? || step.WorkerFinishes? || step.WorkerWakesSpuriously?
  }

  predicate IsCallStep(step: Step) {
    step.CallEnters? || step.CallLocks? || step.CallChecks? || step.CallNotifies? || step.CallWakesSpuriously?
  }

  lemma LockInvWorkerStep(s: State, step: Step)
    requires LockInv(s) && Enabled(s, step) && IsWorkerStep(step)
    ensures LockInv(Next(s, step))
  {
  }

  lemma LockInvCallStep(s: State, step: Step)
    requires LockInv(s) && Enabled(s, step) && IsCallStep(step) && !step.CallNotifies?
    ensures LockInv(Next(s, step))
  {
  }

  lemma LockInvNotifyStep(s: State, step: Step)
    requires LockInv(s) && Enabled(s, step) && step.CallNotifies?
    ensures LockInv(Next(s, step))
  {
  }

  lemma LockInvStep(s: State, step: Step)
    requires LockInv(s) && Enabled(s, step)
    ensures LockInv(Next(s, step))
  {
    if IsWorkerStep(step) {
      LockInvWorkerStep(s, step);
    } else if step.CallNotifies? {
      LockInvNotifyStep(s, step);
    } else if IsCallStep(step) {
      LockInvCallStep(s, step);
    }
  }

  /** A worker that neither takes nor finishes a task leaves the accounts as they are. */
  lemma IdleMoveKeepsQueue(s: State, w: nat, pc: WorkerPc)
    requires QueueInv(s) && w < |s.workers| && !s.workers[w].Running? && !pc.Running?
    ensures QueueInv(SetWorker(s, w, pc))
  {
    forall task ensures Runners(s.workers[w := pc], task) == Runners(s.workers, task) {
      RunnersUpdate(s.workers, w, pc, task);
    }
  }

  lemma FinishKeepsQueue(s: State, w: nat)
    requires QueueInv(s) && w < |s.workers| && s.workers[w].Running?
    ensures QueueInv(SetWorker(s, w, Start).(finished := s.finished + [s.workers[w].task]))
  {
    forall task ensures Runners(s.workers[w := Start], task)
        == Runners(s.workers, task) - (if s.workers[w].task == task then 1 else 0) {
      RunnersUpdate(s.workers, w, Start, task);
    }
  }

  lemma CheckKeepsQueue(s: State, w: nat)
    requires QueueInv(s) && w < |s.workers| && s.workers[w] == Locked
    ensures QueueInv(Checked(s, w))
  {
    if s.tasks == [] {
      IdleMoveKeepsQueue(s, w, Checked(s, w).workers[w]);
    } else {
      var first := s.tasks[0];
      assert s.taken + s.tasks == (s.taken + [first]) + s.tasks[1..];
      forall task ensures Runners(s.workers[w := Running(first)], task)
          == Runners(s.workers, task) + (if first == task then 1 else 0) {
        RunnersUpdate(s.workers, w, Running(first), task);
      }
    }
  }

  lemma QueueInvStep(s: State, step: Step)
    requires QueueInv(s) && Enabled(s, step)
    ensures QueueInv(Next(s, step))
  {
    match step
    case WorkerLocks(w) => IdleMoveKeepsQueue(s, w, Locked);
    case WorkerChecks(w) => CheckKeepsQueue(s, w);
    case WorkerFinishes(w) => FinishKeepsQueue(s, w);
    case WorkerWakesSpuriously(w) => IdleMoveKeepsQueue(s, w, Woken);
    case CallChecks(c) => assert s.taken + (s.tasks + [s.calls[c].task]) == s.accepted + [s.calls[c].task];
    case CallNotifies(c, target) =>
      if target.WakeWorker? {
        IdleMoveKeepsQueue(s, target.w, Woken);
      }
    case StopNotifies =>
      forall task ensures Runners(WakeWorkers(s.workers), task) == Runners(s.workers, task) {
        RunnersAfterWake(s.workers, task);
      }
    case _ =>
  }

  lemma StopInvWorkerStep(s: State, step: Step)
    requires LockInv(s) && StopInv(s) && Enabled(s, step) && IsWorkerStep(step)
    ensures StopInv(Next(s, step))
  {
  }

  lemma StopInvCallStep(s: State, step: Step)
    requires StopInv(s) && Enabled(s, step) && IsCallStep(step)
    ensures StopInv(Next(s, step))
  {
  }

  lemma StopInvStep(s: State, step: Step)
    requires LockInv(s) && StopInv(s) && Enabled(s, step)
    ensures StopInv(Next(s, step))
  {
    if IsWorkerStep(step) {
      StopInvWorkerStep(s, step);
    } else if IsCallStep(step) {
      StopInvCallStep(s, step);
    }
  }

  lemma InvStep(s: State, step: Step)
    requires Inv(s) && Enabled(s, step)
    ensures Inv(Next(s, step))
  {
    LockInvStep(s, step);
    QueueInvStep(s, step);
    StopInvStep(s, step);
  }

  lemma {:induction false} RunKeepsInv(s: State, steps: seq<Step>)
    requires Inv(s) && Legal(s, steps)
    ensures Inv(Run(s, steps))
    decreases steps
  {
    if steps != [] {
      InvStep(s, steps[0]);
      RunKeepsInv(Next(s, steps[0]), steps[1..]);
    }
  }

  /** In every interleaving: accepted tasks are the taken ones followed by the queue, in order, the
      queue holds at most 100, and every taken task is either finished or running, once. */
  lemma {:induction false} ReachableInv(n: nat, steps: seq<Step>)
    requires Legal(Init(n), steps)
    ensures Inv(Run(Init(n), steps))
  {
    forall task ensures Runners(Init(n).workers, task) == 0 {
      NothingRuns(Init(n).workers, task);
    }
    RunKeepsInv(Init(n), steps);
  }

  // ---------------------------------------------------------------- shutdown

  lemma {:induction false} StoppedAcceptsNothing(s: State, steps: seq<Step>)
    requires Inv(s) && s.stop && Legal(s, steps)
    ensures Run(s, steps).stop && Run(s, steps).accepted == s.accepted
    decreases steps
  {
    if steps != [] {
      InvStep(s, steps[0]);
      StoppedAcceptsNothing(Next(s, steps[0]), steps[1..]);
    }
  }

  lemma DoneStaysDone(s: State, step: Step, w: nat)
    requires Enabled(s, step) && w < |s.workers| && s.workers[w] == Done
    ensures w < |Next(s, step).workers| && Next(s, step).workers[w] == Done
  {
  }

  /** Once a worker has returned, the queue is empty for ever. */
  lemma {:induction false} QueueStaysEmpty(s: State, steps: seq<Step>, w: nat)
    requires Inv(s) && Legal(s, steps) && w < |s.workers| && s.workers[w] == Done
    ensures Run(s, steps).tasks == []
    decreases steps
  {
    if steps != [] {
      InvStep(s, steps[0]);
      DoneStaysDone(s, steps[0], w);
      hide LockInv, QueueInv, Next;
      QueueStaysEmpty(Next(s, steps[0]), steps[1..], w);
    }
  }

  /** When all of at least one worker have returned, the tasks that ran are exactly the accepted
      ones, each as often as it was accepted, and they were started in the order of acceptance. */
  lemma {:induction false} DrainedOnShutdown(n: nat, steps: seq<Step>)
    requires 0 < n && Legal(Init(n), steps) && AllDone(Run(Init(n), steps).workers)
    ensures var s := Run(Init(n), steps);
            s.stop && s.tasks == [] && s.taken == s.accepted && multiset(s.finished) == multiset(s.accepted)
  {
    var s := Run(Init(n), steps);
    ReachableInv(n, steps);
    RunKeepsWorkers(Init(n), steps);
    assert s.workers[0] == Done;
    forall task ensures Runners(s.workers, task) == 0 {
      NothingRuns(s.workers, task);
    }
  }

  lemma {:induction false} RunKeepsWorkers(s: State, steps: seq<Step>)
    requires Legal(s, steps)
    ensures |Run(s, steps).workers| == |s.workers|
    decreases steps
  {
    if steps != [] {
      RunKeepsWorkers(Next(s, steps[0]), steps[1..]);
    }
  }

  function Rank(pc: WorkerPc): nat {
    match pc
    case Done => 0
    case Locked => 1
    case Start => 2
    case Woken => 2
    case Asleep => 3
    case Running(_) => 3
  }

  function Ranks(workers: seq<WorkerPc>): nat {
    if workers == [] then 0 else Rank(workers[0]) + Ranks(workers[1..])
  }

  /** What is left to do after `notify_all`: each queued task costs one round of a worker. */
  function Measure(s: State): nat {
    3 * |s.tasks| + Ranks(s.workers)
  }

  lemma {:induction false} RanksUpdate(workers: seq<WorkerPc>, w: nat, pc: WorkerPc)
    requires w < |workers|
    ensures Ranks(workers[w := pc]) + Rank(workers[w]) == Ranks(workers) + Rank(pc)
  {
    if w == 0 {
      assert workers[w := pc][1..] == workers[1..];
    } else {
      RanksUpdate(workers[1..], w - 1, pc);
      assert workers[w := pc][1..] == workers[1..][w - 1 := pc];
    }
  }

  lemma MeasureStep(s: State, step: Step)
    requires Inv(s) && Enabled(s, step) && (s.stopper.Joining? || s.stopper.Stopped?)
    ensures var t := Next(s, step);
            && (t.stopper.Joining? || t.stopper.Stopped?)
            && Measure(t) + (if IsWorkerStep(step) then 1 else 0) <= Measure(s)
  {
    if step.WorkerLocks? || step.WorkerChecks? || step.WorkerFinishes? {
      RanksUpdate(s.workers, step.w, Next(s, step).workers[step.w]);
    }
  }

  /** After `notify_all` nobody ever sleeps again, and the measure bounds how many steps the workers
      can still take in any interleaving. */
  lemma {:induction false} ShutdownIsBounded(s: State, steps: seq<Step>)
    requires Inv(s) && Legal(s, steps) && (s.stopper.Joining? || s.stopper.Stopped?)
    ensures NobodySleeps(Run(s, steps))
    ensures Count(steps, IsWorkerStep) + Measure(Run(s, steps)) <= Measure(s)
    decreases steps
  {
    if steps != [] {
      MeasureStep(s, steps[0]);
      InvStep(s, steps[0]);
      ShutdownIsBounded(Next(s, steps[0]), steps[1..]);
    }
  }

  /** The shutdown never gets stuck: until every worker has returned, a worker can move, or the one
      `enqueue` or `stop` that holds the lock can. */
  lemma {:induction false} ShutdownProgresses(s: State)
    requires Inv(s) && s.stopper.Joining? && !AllDone(s.workers)
    ensures exists step :: Enabled(s, step) && (IsWorkerStep(step) || (s.lock.Caller? && step == CallChecks(s.lock.c)))
  {
    var w :| 0 <= w < |s.workers| && s.workers[w] != Done;
    match s.lock
    case Worker(v) => assert Enabled(s, WorkerChecks(v));
    case Caller(c) => assert Enabled(s, CallChecks(c));
    case Nobody =>
      if s.workers[w].Running? {
        assert Enabled(s, WorkerFinishes(w));
      } else {
        assert Enabled(s, WorkerLocks(w));
      }
    case Stopper =>
  }

  // ---------------------------------------------------------------- wake-ups

  /** Every `notify_one` of the run that wakes somebody wakes a worker. */
  predicate NotifiesReachWorkers(steps: seq<Step>) {
    forall i :: 0 <= i < |steps| && steps[i].CallNotifies? ==> !steps[i].target.WakeCall?
  }

  /** In no state of the run is an `enqueue` blocked on the full queue. */
  predicate NoCallWaits(s: State, steps: seq<Step>)
    requires Legal(s, steps)
    decreases steps
  {
    && (forall c :: 0 <= c < |s.calls| ==> s.calls[c].pc != Waiting)
    && (steps == [] || NoCallWaits(Next(s, steps[0]), steps[1..]))
  }

  /** While a worker sleeps, every queued task has a notification of its own still owed or a worker
      of its own on the way to the queue. */
  predicate NoLostWakeup(s: State) {
    Count(s.workers, IsAsleep) == 0 || |s.tasks| <= Count(s.calls, OwesNotify) + Count(s.workers, IsComing)
  }

  lemma WorkerCounts(s: State, w: nat, pc: WorkerPc)
    requires w < |s.workers|
    ensures var t := s.workers[w := pc];
            && Count(t, IsAsleep) + (if IsAsleep(s.workers[w]) then 1 else 0)
               == Count(s.workers, IsAsleep) + (if IsAsleep(pc) then 1 else 0)
            && Count(t, IsComing) + (if IsComing(s.workers[w]) then 1 else 0)
               == Count(s.workers, IsComing) + (if IsComing(pc) then 1 else 0)
  {
    CountUpdate(s.workers, w, pc, IsAsleep);
    CountUpdate(s.workers, w, pc, IsComing);
  }

  lemma CallCounts(s: State, c: nat, pc: CallPc)
    requires c < |s.calls|
    ensures Count(SetCall(s, c, pc).calls, OwesNotify) + (if OwesNotify(s.calls[c]) then 1 else 0)
         == Count(s.calls, OwesNotify) + (if pc == MustNotify then 1 else 0)
  {
    CountUpdate(s.calls, c, s.calls[c].(pc := pc), OwesNotify);
  }

  lemma NoLostWakeupWorkerStep(s: State, step: Step)
    requires NoLostWakeup(s) && Enabled(s, step) && IsWorkerStep(step)
    ensures NoLostWakeup(Next(s, step))
  {
    WorkerCounts(s, step.w, Next(s, step).workers[step.w]);
  }

  lemma NoLostWakeupCallStep(s: State, step: Step)
    requires NoLostWakeup(s) && Enabled(s, step) && IsCallStep(step) && !step.CallNotifies?
    ensures NoLostWakeup(Next(s, step))
  {
    if step.CallEnters? {
      CountAppend(s.calls, Call(step.task, Entering), OwesNotify);
    } else {
      CallCounts(s, step.c, Next(s, step).calls[step.c].pc);
    }
  }

  lemma NoLostWakeupNotifyStep(s: State, step: Step)
    requires NoLostWakeup(s) && Enabled(s, step) && step.CallNotifies? && !step.target.WakeCall?
    ensures NoLostWakeup(Next(s, step))
  {
    CallCounts(s, step.c, Returned);
    if step.target.WakeWorker? {
      WorkerCounts(s, step.target.w, Woken);
    } else {
      CountNone(s.workers, IsAsleep);
    }
  }

  lemma NoLostWakeupStep(s: State, step: Step)
    requires NoLostWakeup(s) && Enabled(s, step)
    requires step.CallNotifies? ==> !step.target.WakeCall?
    ensures NoLostWakeup(Next(s, step))
  {
    if IsWorkerStep(step) {
      NoLostWakeupWorkerStep(s, step);
    } else if step.CallNotifies? {
      NoLostWakeupNotifyStep(s, step);
    } else if IsCallStep(step) {
      NoLostWakeupCallStep(s, step);
    } else if step.StopNotifies? {
      CountNone(WakeWorkers(s.workers), IsAsleep);
    }
  }

  lemma {:induction false} NoLostWakeupRun(s: State, steps: seq<Step>)
    requires NoLostWakeup(s) && Legal(s, steps) && NotifiesReachWorkers(steps)
    ensures NoLostWakeup(Run(s, steps))
    decreases steps
  {
    if steps != [] {
      NoLostWakeupStep(s, steps[0]);
      NoLostWakeupRun(Next(s, steps[0]), steps[1..]);
    }
  }

  lemma {:induction false} NoWaitNoDiversion(s: State, steps: seq<Step>)
    requires Legal(s, steps) && NoCallWaits(s, steps)
    ensures NotifiesReachWorkers(steps)
    decreases steps
  {
    if steps != [] {
      NoWaitNoDiversion(Next(s, steps[0]), steps[1..]);
      assert steps == [steps[0]] + steps[1..];
    }
  }

  /** No state is stuck with work queued: some worker is awake or some notification is owed. */
  predicate SomeoneWillServe(s: State) {
    s.tasks != [] ==>
      || (exists w :: 0 <= w < |s.workers| && s.workers[w] != Asleep)
      || (exists c :: 0 <= c < |s.calls| && s.calls[c].pc == MustNotify)
  }

  /** No wake-up is lost in a run whose notifications all go to workers. */
  lemma {:induction false} NoWakeupIsLost(n: nat, steps: seq<Step>)
    requires 0 < n && Legal(Init(n), steps) && NotifiesReachWorkers(steps)
    ensures NoLostWakeup(Run(Init(n), steps)) && SomeoneWillServe(Run(Init(n), steps))
  {
    CountNone(Init(n).workers, IsAsleep);
    NoLostWakeupRun(Init(n), steps);
    RunKeepsWorkers(Init(n), steps);
    var s := Run(Init(n), steps);
    CountNone(s.workers, IsAsleep);
    CountNone(s.workers, IsComing);
    CountNone(s.calls, OwesNotify);
    assert 0 < |s.workers|;
  }

  /** In particular in every run in which no `enqueue` ever has to wait. */
  lemma {:induction false} NoWakeupIsLostWithoutWaits(n: nat, steps: seq<Step>)
    requires 0 < n && Legal(Init(n), steps) && NoCallWaits(Init(n), steps)
    ensures NoLostWakeup(Run(Init(n), steps)) && SomeoneWillServe(Run(Init(n), steps))
  {
    NoWaitNoDiversion(Init(n), steps);
    NoWakeupIsLost(n, steps);
  }
}
