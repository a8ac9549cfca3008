/** What becomes of the calls of `enqueue` and of `stop`: the tasks that calls brought into the queue,
    the end of every call, and the end of every run. */
module ThreadPoolCalls {
  import opened Counting
  import opened ThreadPool
  import opened ThreadPoolStall

  // ---------------------------------------------------------------- accepted tasks are those of calls

  /** The call has appended this task to the queue. */
  predicate Brought(call: Call, task: Task) {
    call.task == task && (call.pc == MustNotify || call.pc == Returned)
  }

  /** How many calls have. */
  function Bringers(calls: seq<Call>, task: Task): nat {
    if calls == [] then 0 else (if Brought(calls[0], task) then 1 else 0) + Bringers(calls[1..], task)
  }

  lemma {:induction false} BringersUpdate(calls: seq<Call>, c: nat, call: Call, task: Task)
    requires c < |calls|
    ensures Bringers(calls[c := call], task) + (if Brought(calls[c], task) then 1 else 0)
         == Bringers(calls, task) + (if Brought(call, task) then 1 else 0)
  {
    if c == 0 {
      assert calls[c := call][1..] == calls[1..];
    } else {
      BringersUpdate(calls[1..], c - 1, call, task);
      assert calls[c := call][1..] == calls[1..][c - 1 := call];
    }
  }

  lemma {:induction false} BringersAppend(calls: seq<Call>, call: Call, task: Task)
    ensures Bringers(calls + [call], task) == Bringers(calls, task) + (if Brought(call, task) then 1 else 0)
  {
    if calls == [] {
      assert [call][1..] == [];
    } else {
      BringersAppend(calls[1..], call, task);
      assert (calls + [call])[1..] == calls[1..] + [call];
    }
  }

  lemma {:induction false} BringersAfterWake(calls: seq<Call>, task: Task)
    ensures Bringers(WakeCalls(calls), task) == Bringers(calls, task)
  {
    if calls != [] {
      BringersAfterWake(calls[1..], task);
      assert WakeCalls(calls)[1..] == WakeCalls(calls[1..]);
    }
  }

  lemma BringersMove(s: State, c: nat, pc: CallPc, task: Task)
    requires c < |s.calls|
    ensures Bringers(SetCall(s, c, pc).calls, task) + (if Brought(s.calls[c], task) then 1 else 0)
         == Bringers(s.calls, task) + (if Brought(Call(s.calls[c].task, pc), task) then 1 else 0)
  {
    BringersUpdate(s.calls, c, s.calls[c].(pc := pc), task);
  }

  lemma BringersCheck(s: State, c: nat, task: Task)
    requires Enabled(s, CallChecks(c)) && multiset(s.accepted)[task] == Bringers(s.calls, task)
    ensures var t := Next(s, CallChecks(c)); multiset(t.accepted)[task] == Bringers(t.calls, task)
  {
    hide Bringers;
    var t := Next(s, CallChecks(c));
    BringersMove(s, c, t.calls[c].pc, task);
    assert t.calls == SetCall(s, c, t.calls[c].pc).calls;
  }

  lemma BringersNotify(s: State, c: nat, target: Target, task: Task)
    requires Enabled(s, CallNotifies(c, target))
    ensures Bringers(Next(s, CallNotifies(c, target)).calls, task) == Bringers(s.calls, task)
  {
    hide Bringers;
    if target.WakeCall? {
      BringersMove(s, target.c, Notified, task);
    }
    BringersMove(Woke(s, target), c, Returned, task);
  }

  lemma BringersStep(s: State, step: Step, task: Task)
    requires Enabled(s, step) && multiset(s.accepted)[task] == Bringers(s.calls, task)
    ensures var t := Next(s, step); multiset(t.accepted)[task] == Bringers(t.calls, task)
  {
    hide Bringers;
    match step
    case CallEnters(t) => BringersAppend(s.calls, Call(t, Entering), task);
    case CallLocks(c) => BringersMove(s, c, Holding, task);
    case CallChecks(c) => BringersCheck(s, c, task);
    case CallNotifies(c, target) => BringersNotify(s, c, target, task);
    case CallWakesSpuriously(c) => BringersMove(s, c, Notified, task);
    case StopNotifies => BringersAfterWake(s.calls, task);
    case _ =>
  }

  predicate ThrowsOnlyStopped(s: State) {
    forall c :: 0 <= c < |s.calls| && s.calls[c].pc == Threw ==> s.stop
  }

  lemma ThrowsOnlyStoppedStep(s: State, step: Step)
    requires ThrowsOnlyStopped(s) && Enabled(s, step)
    ensures ThrowsOnlyStopped(Next(s, step))
  {
  }

  lemma {:induction false} RunKeepsAccounts(s: State, steps: seq<Step>, task: Task)
    requires multiset(s.accepted)[task] == Bringers(s.calls, task) && ThrowsOnlyStopped(s) && Legal(s, steps)
    ensures var t := Run(s, steps); multiset(t.accepted)[task] == Bringers(t.calls, task) && ThrowsOnlyStopped(t)
    decreases steps
  {
    if steps != [] {
      BringersStep(s, steps[0], task);
      ThrowsOnlyStoppedStep(s, steps[0]);
      hide Bringers, ThrowsOnlyStopped, Next, Enabled;
      RunKeepsAccounts(Next(s, steps[0]), steps[1..], task);
    }
  }

  /** In every interleaving each task has been accepted once for each call that brought it and has
      returned or has only to notify; and no call throws while the pool runs. */
  lemma {:induction false} AcceptedAreTheCallsTasks(n: nat, steps: seq<Step>)
    requires Legal(Init(n), steps)
    ensures var s := Run(Init(n), steps);
            && (forall task :: multiset(s.accepted)[task] == Bringers(s.calls, task))
            && (forall c :: 0 <= c < |s.calls| && s.calls[c].pc == Threw ==> s.stop)
  {
    var s := Run(Init(n), steps);
    RunKeepsAccounts(Init(n), steps, 0);
    forall task ensures multiset(s.accepted)[task] == Bringers(s.calls, task) {
      RunKeepsAccounts(Init(n), steps, task);
    }
  }

  /** When all of at least one worker have returned, every task has run once for each call that brought it
      and returned. */
  lemma {:induction false} ReturnedCallsWereServed(n: nat, steps: seq<Step>)
    requires 0 < n && Legal(Init(n), steps) && AllDone(Run(Init(n), steps).workers)
    ensures var s := Run(Init(n), steps); forall task :: multiset(s.finished)[task] == Bringers(s.calls, task)
  {
    DrainedOnShutdown(n, steps);
    AcceptedAreTheCallsTasks(n, steps);
  }

  // ---------------------------------------------------------------- calls after the stop

  /** A call that looks at the queue of a stopped pool throws and leaves everything as it was. */
  lemma StoppedCallThrows(s: State, c: nat)
    requires s.stop && c < |s.calls| && s.calls[c].pc == Holding
    ensures Enabled(s, CallChecks(c))
    ensures Next(s, CallChecks(c)) == s.(lock := Nobody, calls := s.calls[c := Call(s.calls[c].task, Threw)])
  {
  }

  predicate IsOver(pc: CallPc) { pc == Returned || pc == Threw }

  lemma CallStep(s: State, step: Step, c: nat)
    requires Enabled(s, step) && c < |s.calls|
    ensures c < |Next(s, step).calls| && Next(s, step).calls[c].task == s.calls[c].task
    ensures IsOver(s.calls[c].pc) ==> Next(s, step).calls[c] == s.calls[c]
    ensures s.stop && IsPending(s.calls[c]) ==>
              IsPending(Next(s, step).calls[c]) || Next(s, step).calls[c].pc == Threw
    ensures s.stop ==> Next(s, step).stop
  {
  }

  /** Calls keep their tasks and end once: by returning or by throwing. */
  lemma {:induction false} CallsEndOnce(s: State, steps: seq<Step>, c: nat)
    requires Legal(s, steps) && c < |s.calls|
    ensures c < |Run(s, steps).calls| && Run(s, steps).calls[c].task == s.calls[c].task
    ensures IsOver(s.calls[c].pc) ==> Run(s, steps).calls[c] == s.calls[c]
    decreases steps
  {
    if steps != [] {
      CallStep(s, steps[0], c);
      hide Next, Enabled, IsOver;
      CallsEndOnce(Next(s, steps[0]), steps[1..], c);
    }
  }

  /** A call that had not appended its task when the pool was stopped can only throw. */
  lemma {:induction false} LateCallsThrow(s: State, steps: seq<Step>, c: nat)
    requires Legal(s, steps) && s.stop && c < |s.calls| && (IsPending(s.calls[c]) || s.calls[c].pc == Threw)
    ensures c < |Run(s, steps).calls| && (IsPending(Run(s, steps).calls[c]) || Run(s, steps).calls[c].pc == Threw)
    decreases steps
  {
    if steps != [] {
      CallStep(s, steps[0], c);
      hide Next, Enabled, IsPending;
      LateCallsThrow(Next(s, steps[0]), steps[1..], c);
    }
  }

  // ---------------------------------------------------------------- every run comes to rest

  predicate IsSpurious(step: Step) {
    step.WorkerWakesSpuriously? || step.CallWakesSpuriously?
  }

  predicate IsEntry(step: Step) { step.CallEnters? }

  predicate NoSpuriousWakeup(steps: seq<Step>) {
    forall i :: 0 <= i < |steps| ==> !IsSpurious(steps[i])
  }

  function WorkerWork(pc: WorkerPc): nat {
    match pc
    case Asleep => 0
    case Done => 0
    case Locked => 1
    case Start => 2
    case Woken => 2
    case Running(_) => 3
  }

  function WorkersWork(workers: seq<WorkerPc>): nat {
    if workers == [] then 0 else WorkerWork(workers[0]) + WorkersWork(workers[1..])
  }

  function CallWork(pc: CallPc): nat {
    match pc
    case Returned => 0
    case Threw => 0
    case MustNotify => 3
    case Waiting => 6
    case Holding => 7
    case Entering => 8
    case Notified => 8
  }

  function CallsWork(calls: seq<Call>): nat {
    if calls == [] then 0 else CallWork(calls[0].pc) + CallsWork(calls[1..])
  }

  function StopWork(s: State): nat {
    match s.stopper
    case Stopped => 0
    case Joining => 1
    case MustNotifyAll => 2 + 2 * |s.workers| + 2 * |s.calls|
    case StopHolding => 3 + 2 * |s.workers| + 2 * |s.calls|
    case NotCalled => 4 + 2 * |s.workers| + 2 * |s.calls|
  }

  /** How many steps are left to take when nobody calls `enqueue` any more. */
  function Work(s: State): nat {
    3 * |s.tasks| + WorkersWork(s.workers) + CallsWork(s.calls) + StopWork(s)
  }

  lemma {:induction false} WorkersWorkUpdate(workers: seq<WorkerPc>, w: nat, pc: WorkerPc)
    requires w < |workers|
    ensures WorkersWork(workers[w := pc]) + WorkerWork(workers[w]) == WorkersWork(workers) + WorkerWork(pc)
  {
    if w == 0 {
      assert workers[w := pc][1..] == workers[1..];
    } else {
      WorkersWorkUpdate(workers[1..], w - 1, pc);
      assert workers[w := pc][1..] == workers[1..][w - 1 := pc];
    }
  }

  lemma {:induction false} CallsWorkUpdate(calls: seq<Call>, c: nat, call: Call)
    requires c < |calls|
    ensures CallsWork(calls[c := call]) + CallWork(calls[c].pc) == CallsWork(calls) + CallWork(call.pc)
  {
    if c == 0 {
      assert calls[c := call][1..] == calls[1..];
    } else {
      CallsWorkUpdate(calls[1..], c - 1, call);
      assert calls[c := call][1..] == calls[1..][c - 1 := call];
    }
  }

  lemma {:induction false} CallsWorkAppend(calls: seq<Call>, call: Call)
    ensures CallsWork(calls + [call]) == CallsWork(calls) + CallWork(call.pc)
  {
    if calls == [] {
      assert [call][1..] == [];
    } else {
      CallsWorkAppend(calls[1..], call);
      assert (calls + [call])[1..] == calls[1..] + [call];
    }
  }

  lemma {:induction false} WorkAfterWakeWorkers(workers: seq<WorkerPc>)
    ensures WorkersWork(WakeWorkers(workers)) <= WorkersWork(workers) + 2 * |workers|
  {
    if workers != [] {
      WorkAfterWakeWorkers(workers[1..]);
      assert WakeWorkers(workers)[1..] == WakeWorkers(workers[1..]);
    }
  }

  lemma {:induction false} WorkAfterWakeCalls(calls: seq<Call>)
    ensures CallsWork(WakeCalls(calls)) <= CallsWork(calls) + 2 * |calls|
  {
    if calls != [] {
      WorkAfterWakeCalls(calls[1..]);
      assert WakeCalls(calls)[1..] == WakeCalls(calls[1..]);
    }
  }

  lemma NotifyWork(s: State, c: nat, target: Target)
    requires Enabled(s, CallNotifies(c, target))
    ensures Work(Next(s, CallNotifies(c, target))) < Work(s)
  {
    hide WorkersWork, CallsWork;
    var u := Woke(s, target);
    if target.WakeWorker? {
      WorkersWorkUpdate(s.workers, target.w, Woken);
    } else if target.WakeCall? {
      CallsWorkUpdate(s.calls, target.c, s.calls[target.c].(pc := Notified));
    }
    CallsWorkUpdate(u.calls, c, u.calls[c].(pc := Returned));
  }

  lemma CallCheckWork(s: State, c: nat)
    requires Enabled(s, CallChecks(c))
    ensures Work(Next(s, CallChecks(c))) < Work(s)
  {
    CallsWorkUpdate(s.calls, c, Next(s, CallChecks(c)).calls[c]);
    hide WorkersWork, CallsWork;
  }

  lemma WorkerStepWork(s: State, step: Step)
    requires Enabled(s, step) && IsWorkerStep(step) && !IsSpurious(step)
    ensures Work(Next(s, step)) < Work(s)
  {
    WorkersWorkUpdate(s.workers, step.w, Next(s, step).workers[step.w]);
    hide WorkersWork, CallsWork;
  }

  lemma CallStepWork(s: State, step: Step)
    requires Enabled(s, step) && IsCallStep(step) && !IsSpurious(step)
    ensures Work(Next(s, step)) < Work(s) + if IsEntry(step) then 11 else 0
  {
    hide WorkersWork, CallsWork;
    match step
    case CallEnters(task) => CallsWorkAppend(s.calls, Call(task, Entering));
    case CallLocks(c) => CallsWorkUpdate(s.calls, c, s.calls[c].(pc := Holding));
    case CallChecks(c) => CallCheckWork(s, c);
    case CallNotifies(c, target) => NotifyWork(s, c, target);
  }

  lemma StopStepWork(s: State, step: Step)
    requires Enabled(s, step) && !IsWorkerStep(step) && !IsCallStep(step)
    ensures Work(Next(s, step)) < Work(s)
  {
    hide WorkersWork, CallsWork;
    if step.StopNotifies? {
      WorkAfterWakeWorkers(s.workers);
      WorkAfterWakeCalls(s.calls);
    }
  }

  lemma WorkStep(s: State, step: Step)
    requires Enabled(s, step) && !IsSpurious(step)
    ensures Work(Next(s, step)) < Work(s) + if IsEntry(step) then 11 else 0
  {
    hide Work, Enabled, Next;
    if IsWorkerStep(step) {
      WorkerStepWork(s, step);
    } else if IsCallStep(step) {
      CallStepWork(s, step);
    } else {
      StopStepWork(s, step);
    }
  }

  /** However the threads interleave, a call of `enqueue` makes for at most eleven steps, its own and
      those of the workers and of others that it wakes: without new calls every run comes to rest. */
  lemma {:induction false} PoolComesToRest(s: State, steps: seq<Step>)
    requires Legal(s, steps) && NoSpuriousWakeup(steps)
    ensures |steps| + Work(Run(s, steps)) <= Work(s) + 11 * Count(steps, IsEntry)
    decreases steps
  {
    if steps != [] {
      assert !IsSpurious(steps[0]);
      WorkStep(s, steps[0]);
      assert forall i :: 0 <= i < |steps| - 1 ==> steps[1..][i] == steps[i + 1];
      hide Work, Enabled, Next, IsEntry, IsSpurious;
      PoolComesToRest(Next(s, steps[0]), steps[1..]);
    }
  }

  lemma ThreeSteps(s: State, a: Step, b: Step, c: Step)
    requires Enabled(s, a) && Enabled(Next(s, a), b) && Enabled(Next(Next(s, a), b), c)
    ensures Legal(s, [a, b, c]) && Run(s, [a, b, c]) == Next(Next(Next(s, a), b), c)
  {
    hide Enabled, Next;
    assert [a, b, c][1..] == [b, c] && [b, c][1..] == [c] && [c][1..] == [];
    var t := Next(s, a);
    var u := Next(t, b);
    assert Legal(Next(u, c), []) && Legal(u, [c]) && Legal(t, [b, c]);
    assert Run(u, [c]) == Next(u, c) && Run(t, [b, c]) == Next(u, c);
  }

  /** A spurious wake-up makes no difference: a worker that finds the queue still empty, or a call that finds
      it still full, is back asleep after two more steps. */
  lemma {:induction false} SpuriousWakeupsAreHarmless(s: State, k: nat)
    requires s.lock == Nobody && !s.stop
    ensures k < |s.workers| && s.workers[k] == Asleep && s.tasks == [] ==>
              Legal(s, [WorkerWakesSpuriously(k), WorkerLocks(k), WorkerChecks(k)])
              && Run(s, [WorkerWakesSpuriously(k), WorkerLocks(k), WorkerChecks(k)]) == s
    ensures k < |s.calls| && s.calls[k].pc == Waiting && |s.tasks| >= 100 ==>
              Legal(s, [CallWakesSpuriously(k), CallLocks(k), CallChecks(k)])
              && Run(s, [CallWakesSpuriously(k), CallLocks(k), CallChecks(k)]) == s
  {
    if k < |s.workers| && s.workers[k] == Asleep && s.tasks == [] {
      assert s.workers[k := Woken][k := Locked][k := Asleep] == s.workers;
      ThreeSteps(s, WorkerWakesSpuriously(k), WorkerLocks(k), WorkerChecks(k));
    }
    if k < |s.calls| && s.calls[k].pc == Waiting && |s.tasks| >= 100 {
      var call := s.calls[k];
      assert s.calls[k := call.(pc := Notified)][k := call.(pc := Holding)][k := call.(pc := Waiting)] == s.calls;
      ThreeSteps(s, CallWakesSpuriously(k), CallLocks(k), CallChecks(k));
    }
  }

  // ---------------------------------------------------------------- the state of rest

  /** Nothing is left to happen except a new call, a shutdown, or a spurious wake-up. */
  ghost predicate AtRest(s: State) {
    forall step :: Enabled(s, step) ==> step.CallEnters? || step.StopLocks? || IsSpurious(step)
  }

  predicate WorkersRest(s: State) {
    && s.lock == Nobody
    && (forall w :: 0 <= w < |s.workers| ==> s.workers[w] == Asleep || s.workers[w] == Done)
    && (forall c :: 0 <= c < |s.calls| ==> s.calls[c].pc == Waiting || IsOver(s.calls[c].pc))
  }

  lemma HolderCanMove(s: State)
    requires LockInv(s) && s.lock != Nobody
    ensures exists step :: Enabled(s, step) && !step.CallEnters? && !step.StopLocks? && !IsSpurious(step)
  {
    var step := match s.lock {
      case Worker(w) => WorkerChecks(w)
      case Caller(c) => CallChecks(c)
      case _ => StopSets
    };
    assert Enabled(s, step);
  }

  lemma SomeTarget(s: State) returns (target: Target)
    ensures NotifyMayPick(s, target)
  {
    if w :| 0 <= w < |s.workers| && s.workers[w] == Asleep {
      target := WakeWorker(w);
    } else if c :| 0 <= c < |s.calls| && s.calls[c].pc == Waiting {
      target := WakeCall(c);
    } else {
      target := NoTarget;
    }
  }

  /** A thread waits for the lock or to be woken, and for nothing else: tasks run, notifications are given and
      a stop goes on whoever holds the lock. */
  lemma {:induction false} OnlyTheLockBlocks(s: State, w: nat, c: nat)
    ensures w < |s.workers| && s.workers[w].Running? ==> Enabled(s, WorkerFinishes(w))
    ensures w < |s.workers| && (s.workers[w] == Start || s.workers[w] == Woken) && s.lock == Nobody ==>
              Enabled(s, WorkerLocks(w))
    ensures c < |s.calls| && s.calls[c].pc == MustNotify ==> exists target :: Enabled(s, CallNotifies(c, target))
    ensures c < |s.calls| && (s.calls[c].pc == Entering || s.calls[c].pc == Notified) && s.lock == Nobody ==>
              Enabled(s, CallLocks(c))
    ensures s.stopper == NotCalled && s.lock == Nobody ==> Enabled(s, StopLocks)
    ensures s.stopper == MustNotifyAll ==> Enabled(s, StopNotifies)
  {
    if c < |s.calls| && s.calls[c].pc == MustNotify {
      var target := SomeTarget(s);
      assert Enabled(s, CallNotifies(c, target));
    }
  }

  lemma EverybodyRests(s: State)
    requires LockInv(s) && AtRest(s)
    ensures WorkersRest(s)
  {
    if s.lock != Nobody {
      HolderCanMove(s);
    }
    forall w | 0 <= w < |s.workers| ensures s.workers[w] == Asleep || s.workers[w] == Done {
      assert !Enabled(s, WorkerLocks(w)) && !Enabled(s, WorkerChecks(w)) && !Enabled(s, WorkerFinishes(w));
    }
    forall c | 0 <= c < |s.calls| ensures s.calls[c].pc == Waiting || IsOver(s.calls[c].pc) {
      var target := SomeTarget(s);
      assert !Enabled(s, CallLocks(c)) && !Enabled(s, CallChecks(c)) && !Enabled(s, CallNotifies(c, target));
    }
  }

  lemma QueueIsServed(s: State)
    requires StopInv(s) && NoLostWakeup(s) && WorkersRest(s) && s.workers != []
    ensures s.tasks == []
  {
    CountNone(s.workers, IsAsleep);
    CountNone(s.workers, IsComing);
    CountNone(s.calls, OwesNotify);
    if Count(s.workers, IsAsleep) == 0 {
      assert s.workers[0] == Done;
    }
  }

  lemma StopperRests(s: State)
    requires LockInv(s) && StopInv(s) && AtRest(s) && WorkersRest(s)
    ensures s.stopper == NotCalled || s.stopper == Stopped
  {
    assert !Enabled(s, StopNotifies) && !Enabled(s, StopJoins);
  }

  /** Every call has ended, the tasks of those that returned have all run, each once for each call, no
      call was refused by a running pool, and a stop, if there was one, is over. */
  ghost predicate AllServed(s: State) {
    && s.tasks == []
    && (forall c :: 0 <= c < |s.calls| ==> s.calls[c].pc == Returned || (s.calls[c].pc == Threw && s.stop))
    && (forall task :: multiset(s.finished)[task] == Bringers(s.calls, task))
    && (s.stopper == NotCalled || s.stopper == Stopped)
  }

  /** A run that keeps the load within the capacity and has come to rest has served every call. */
  lemma {:induction false} AtRestMeansServed(n: nat, steps: seq<Step>)
    requires 0 < n && Legal(Init(n), steps) && LoadAtMost(Init(n), steps, 100) && AtRest(Run(Init(n), steps))
    ensures AllServed(Run(Init(n), steps))
  {
    var s := Run(Init(n), steps);
    ReachableInv(n, steps);
    RoomMeansNoWait(Init(n), steps);
    NobodyWaitsAtTheEnd(Init(n), steps);
    NoWakeupIsLostWithoutWaits(n, steps);
    AcceptedAreTheCallsTasks(n, steps);
    RunKeepsWorkers(Init(n), steps);
    hide Run, Legal, NoLostWakeup, LoadAtMost, NoCallWaits, Bringers, Runners, AtRest;
    EverybodyRests(s);
    QueueIsServed(s);
    StopperRests(s);
    forall task ensures Runners(s.workers, task) == 0 {
      NothingRuns(s.workers, task);
    }
    assert s.taken + [] == s.taken;
  }

  ghost predicate RestIsService(n: nat, k: nat) {
    forall steps :: Legal(Init(n), steps) && LoadAtMost(Init(n), steps, k) && AtRest(Run(Init(n), steps)) ==>
      AllServed(Run(Init(n), steps))
  }

  /** Every run of load at most k that comes to rest has served all its calls, if and only if k is at most
      100. */
  lemma {:induction false} RestIsServiceIff(n: nat, k: nat)
    requires 0 < n
    ensures RestIsService(n, k) <==> k <= 100
  {
    if k <= 100 {
      forall steps | Legal(Init(n), steps) && LoadAtMost(Init(n), steps, k) && AtRest(Run(Init(n), steps))
        ensures AllServed(Run(Init(n), steps)) {
        LoadGrows(Init(n), steps, k, 100);
        AtRestMeansServed(n, steps);
      }
    } else {
      WakeupsCanBeLost(n);
      var steps :| Legal(Init(n), steps) && LoadAtMost(Init(n), steps, CAPACITY + 1) && Stalled(Run(Init(n), steps));
      LoadGrows(Init(n), steps, CAPACITY + 1, k);
      assert AtRest(Run(Init(n), steps)) && !AllServed(Run(Init(n), steps));
    }
  }

  // ---------------------------------------------------------------- a stop can always complete

  lemma Prepend(s: State, step: Step, more: seq<Step>)
    requires Enabled(s, step) && Legal(Next(s, step), more)
    ensures Legal(s, [step] + more) && Run(s, [step] + more) == Run(Next(s, step), more)
  {
    assert ([step] + more)[1..] == more;
  }

  function StopRank(pc: StopPc): nat {
    match pc
    case NotCalled => 4
    case StopHolding => 3
    case MustNotifyAll => 2
    case Joining => 1
    case Stopped => 0
  }

  function ToJoin(s: State): nat {
    if s.stopper.Joining? then Measure(s) else 0
  }

  function Held(s: State): nat {
    if s.lock == Nobody then 0 else 1
  }

  lemma TowardsStop(s: State) returns (step: Step)
    requires Inv(s) && s.stopper != Stopped
    ensures Enabled(s, step)
    ensures var t := Next(s, step);
            || StopRank(t.stopper) < StopRank(s.stopper)
            || (t.stopper == s.stopper && (ToJoin(t) < ToJoin(s) || (ToJoin(t) <= ToJoin(s) && Held(t) < Held(s))))
  {
    if s.stopper == Joining && !AllDone(s.workers) {
      ShutdownProgresses(s);
      step :| Enabled(s, step) && (IsWorkerStep(step) || (s.lock.Caller? && step == CallChecks(s.lock.c)));
      MeasureStep(s, step);
    } else if s.stopper == NotCalled && s.lock.Worker? {
      step := WorkerChecks(s.lock.w);
    } else if s.stopper == NotCalled && s.lock.Caller? {
      step := CallChecks(s.lock.c);
    } else {
      step := match s.stopper {
        case NotCalled => StopLocks
        case StopHolding => StopSets
        case MustNotifyAll => StopNotifies
        case _ => StopJoins
      };
    }
  }

  lemma {:induction false} WayToStop(s: State) returns (steps: seq<Step>)
    requires Inv(s)
    ensures Legal(s, steps) && Run(s, steps).stopper == Stopped
    decreases StopRank(s.stopper), ToJoin(s), Held(s)
  {
    if s.stopper == Stopped {
      steps := [];
    } else {
      var step := TowardsStop(s);
      InvStep(s, step);
      hide Inv, Enabled, Next, ToJoin, Held;
      var more := WayToStop(Next(s, step));
      Prepend(s, step, more);
      steps := [step] + more;
    }
  }

  /** Whatever has happened, some continuation stops the pool, with every worker joined. */
  lemma {:induction false} StopCanComplete(n: nat, steps: seq<Step>)
    requires Legal(Init(n), steps)
    ensures exists more :: Legal(Run(Init(n), steps), more)
                           && Run(Run(Init(n), steps), more).stopper == Stopped
                           && AllDone(Run(Run(Init(n), steps), more).workers)
  {
    var s := Run(Init(n), steps);
    ReachableInv(n, steps);
    var more := WayToStop(s);
    RunKeepsInv(s, more);
  }

  // ---------------------------------------------------------------- workers at work

  function BusyWorkers(n: nat, k: nat): (s: seq<WorkerPc>)
    ensures |s| == n
  {
    seq(n, w requires 0 <= w < n => if w < k then Running(w) else Start)
  }

  /** The first k workers run a task each, and the others have not begun. */
  function Busy(n: nat, k: nat): State
    requires k <= n
  {
    State([], false, Nobody, BusyWorkers(n, k), Calls(0, k, Returned), NotCalled,
          Ids(0, k), Ids(0, k), [])
  }

  lemma BusyOneMore(n: nat, k: nat)
    requires k < n
    ensures Calls(0, k, Returned) + [Call(k, Returned)] == Calls(0, k + 1, Returned)
    ensures (Calls(0, k, Returned) + [Call(k, MustNotify)])[k := Call(k, Returned)] == Calls(0, k + 1, Returned)
    ensures Ids(0, k) + [k] == Ids(0, k + 1) && [k][1..] == []
    ensures Busy(n, k).workers[k] == Start
    ensures Busy(n, k).workers[k := Locked][k := Running(k)] == Busy(n, k + 1).workers
  {
  }

  lemma TakeOne(s0: State, s: State, w: nat)
    requires Reaches(s0, s) && s.lock == Nobody && s.tasks != [] && Load(s) <= CAPACITY + 1
    requires w < |s.workers| && s.workers[w] == Start
    ensures Reaches(s0, s.(tasks := s.tasks[1..], workers := s.workers[w := Locked][w := Running(s.tasks[0])],
                           taken := s.taken + [s.tasks[0]]))
  {
    ReachesNext(s0, s, WorkerLocks(w));
    ReachesNext(s0, Next(s, WorkerLocks(w)), WorkerChecks(w));
  }

  /** And one more task is queued. */
  function Queued(n: nat, k: nat, pc: CallPc): State
    requires k < n
  {
    var s := Busy(n, k);
    s.(tasks := [k], calls := s.calls + [Call(k, pc)], accepted := s.accepted + [k])
  }

  lemma BusyLoad(n: nat, k: nat)
    requires k < n
    ensures Load(Busy(n, k)) == 0 && Load(Queued(n, k, Returned)) == 1
  {
    NonePending(0, k, Returned);
    CountAppend(Calls(0, k, Returned), Call(k, Returned), IsPending);
  }

  lemma NotifyNobody(n: nat, k: nat)
    requires k < n
    ensures var s := Queued(n, k, MustNotify);
            Enabled(s, CallNotifies(k, NoTarget)) && Next(s, CallNotifies(k, NoTarget)) == Queued(n, k, Returned)
  {
    var calls := Calls(0, k, Returned);
    assert (calls + [Call(k, MustNotify)])[k := Call(k, Returned)] == calls + [Call(k, Returned)];
  }

  lemma {:induction false} KeepBusy(n: nat, k: nat)
    requires k <= n
    ensures Reaches(Init(n), Busy(n, k))
    decreases k
  {
    if k == 0 {
      ReachesSelf(Init(n));
      assert Init(n) == Busy(n, 0);
    } else {
      hide Reaches, Ids, Calls, BusyWorkers, Load;
      var s := Busy(n, k - 1);
      KeepBusy(n, k - 1);
      BusyOneMore(n, k - 1);
      BusyLoad(n, k - 1);
      AppendOne(Init(n), s, k - 1);
      assert [] + [k - 1] == [k - 1];
      NotifyNobody(n, k - 1);
      ReachesNext(Init(n), Queued(n, k - 1, MustNotify), CallNotifies(k - 1, NoTarget));
      TakeOne(Init(n), Queued(n, k - 1, Returned), k - 1);
    }
  }

  /** All the workers can be at work at once. */
  lemma {:induction false} AllWorkersCanBeBusy(n: nat)
    ensures exists steps :: Legal(Init(n), steps)
                            && |Run(Init(n), steps).workers| == n
                            && forall w: nat :: w < n ==> Run(Init(n), steps).workers[w] == Running(w)
  {
    KeepBusy(n, n);
    var steps :| Legal(Init(n), steps) && LoadAtMost(Init(n), steps, CAPACITY + 1) && Run(Init(n), steps) == Busy(n, n);
  }
}
