/** How much load the wake-ups of the worker pool bear: with queued tasks and calls under way never
    above the capacity nothing is lost, and one more is enough to lose every notification. */
module ThreadPoolStall {
  import opened Counting
  import opened ThreadPool

  // ---------------------------------------------------------------- load

  /** A call of `enqueue` that has not appended its task yet. */
  predicate IsPending(call: Call) {
    call.pc == Entering || call.pc == Holding || call.pc == Waiting || call.pc == Notified
  }

  function Load(s: State): nat {
    |s.tasks| + Count(s.calls, IsPending)
  }

  predicate LoadAtMost(s: State, steps: seq<Step>, k: nat)
    requires Legal(s, steps)
    decreases steps
  {
    Load(s) <= k && (steps == [] || LoadAtMost(Next(s, steps[0]), steps[1..], k))
  }

  lemma RoomForHolder(s: State, c: nat)
    requires Load(s) <= CAPACITY && c < |s.calls| && s.calls[c].pc == Holding
    ensures |s.tasks| < CAPACITY
  {
    CountNone(s.calls, IsPending);
  }

  lemma RoomStep(s: State, step: Step)
    requires Enabled(s, step) && Load(s) <= CAPACITY && forall c :: 0 <= c < |s.calls| ==> s.calls[c].pc != Waiting
    ensures forall c :: 0 <= c < |Next(s, step).calls| ==> Next(s, step).calls[c].pc != Waiting
  {
    if step.CallChecks? {
      RoomForHolder(s, step.c);
    }
  }

  lemma {:induction false} RoomMeansNoWait(s: State, steps: seq<Step>)
    requires Legal(s, steps) && LoadAtMost(s, steps, CAPACITY)
    requires forall c :: 0 <= c < |s.calls| ==> s.calls[c].pc != Waiting
    ensures NoCallWaits(s, steps)
    decreases steps
  {
    if steps != [] {
      RoomStep(s, steps[0]);
      hide Load, Enabled, Next;
      RoomMeansNoWait(Next(s, steps[0]), steps[1..]);
    }
  }

  lemma {:induction false} NobodyWaitsAtTheEnd(s: State, steps: seq<Step>)
    requires Legal(s, steps) && NoCallWaits(s, steps)
    ensures forall c :: 0 <= c < |Run(s, steps).calls| ==> Run(s, steps).calls[c].pc != Waiting
    decreases steps
  {
    if steps != [] {
      NobodyWaitsAtTheEnd(Next(s, steps[0]), steps[1..]);
    }
  }

  // ---------------------------------------------------------------- reaching states under a load

  ghost predicate Reaches(s: State, t: State) {
    exists steps :: Legal(s, steps) && LoadAtMost(s, steps, CAPACITY + 1) && Run(s, steps) == t
  }

  lemma ReachesSelf(s: State)
    requires Load(s) <= CAPACITY + 1
    ensures Reaches(s, s)
  {
    assert Legal(s, []) && LoadAtMost(s, [], CAPACITY + 1) && Run(s, []) == s;
  }

  lemma ReachesNext(s: State, t: State, step: Step)
    requires Reaches(s, t) && Enabled(t, step) && Load(Next(t, step)) <= CAPACITY + 1
    ensures Reaches(s, Next(t, step))
  {
    var steps :| Legal(s, steps) && LoadAtMost(s, steps, CAPACITY + 1) && Run(s, steps) == t;
    RunAppend(s, steps, step);
  }

  lemma {:induction false} RunAppend(s: State, steps: seq<Step>, step: Step)
    requires Legal(s, steps) && Enabled(Run(s, steps), step)
    requires LoadAtMost(s, steps, CAPACITY + 1) && Load(Next(Run(s, steps), step)) <= CAPACITY + 1
    ensures Legal(s, steps + [step]) && LoadAtMost(s, steps + [step], CAPACITY + 1)
    ensures Run(s, steps + [step]) == Next(Run(s, steps), step)
    decreases steps
  {
    hide Load, Enabled, Next;
    if steps == [] {
      var t := Next(s, step);
      assert steps + [step] == [step] && [step][1..] == [];
      assert Legal(t, []) && LoadAtMost(t, [], CAPACITY + 1);
    } else {
      assert (steps + [step])[1..] == steps[1..] + [step];
      RunAppend(Next(s, steps[0]), steps[1..], step);
    }
  }

  /** A new call locks, finds room and appends its task. */
  lemma AppendOne(s0: State, s: State, task: Task)
    requires Reaches(s0, s) && s.lock == Nobody && !s.stop && |s.tasks| < CAPACITY && Load(s) <= CAPACITY
    ensures Reaches(s0, s.(tasks := s.tasks + [task], calls := s.calls + [Call(task, MustNotify)],
                           accepted := s.accepted + [task]))
  {
    var c := |s.calls|;
    CountAppend(s.calls, Call(task, Entering), IsPending);
    CountAppend(s.calls, Call(task, Holding), IsPending);
    CountAppend(s.calls, Call(task, MustNotify), IsPending);
    ReachesNext(s0, s, CallEnters(task));
    var s1 := Next(s, CallEnters(task));
    assert s1.calls[c := Call(task, Holding)] == s.calls + [Call(task, Holding)];
    ReachesNext(s0, s1, CallLocks(c));
    var s2 := Next(s1, CallLocks(c));
    assert Next(s2, CallChecks(c)).calls == s.calls + [Call(task, MustNotify)];
    ReachesNext(s0, s2, CallChecks(c));
  }

  /** A call that locks and finds the queue full goes to sleep. */
  lemma WaitOnFull(s0: State, s: State, c: nat)
    requires Reaches(s0, s) && s.lock == Nobody && !s.stop && |s.tasks| == CAPACITY && Load(s) <= CAPACITY + 1
    requires c < |s.calls| && (s.calls[c].pc == Entering || s.calls[c].pc == Notified)
    ensures Reaches(s0, SetCall(s, c, Waiting))
  {
    CountUpdate(s.calls, c, s.calls[c].(pc := Holding), IsPending);
    CountUpdate(s.calls, c, s.calls[c].(pc := Waiting), IsPending);
    ReachesNext(s0, s, CallLocks(c));
    var s1 := Next(s, CallLocks(c));
    assert Next(s1, CallChecks(c)).calls == SetCall(s, c, Waiting).calls;
    ReachesNext(s0, s1, CallChecks(c));
  }

  /** A worker that finds the queue empty goes to sleep. */
  lemma SleepOnEmpty(s0: State, s: State, w: nat)
    requires Reaches(s0, s) && s.lock == Nobody && !s.stop && s.tasks == [] && Load(s) <= CAPACITY + 1
    requires w < |s.workers| && s.workers[w] == Start
    ensures Reaches(s0, SetWorker(s, w, Asleep))
  {
    ReachesNext(s0, s, WorkerLocks(w));
    var s1 := Next(s, WorkerLocks(w));
    assert Next(s1, WorkerChecks(w)).workers == SetWorker(s, w, Asleep).workers;
    ReachesNext(s0, s1, WorkerChecks(w));
  }

  // ---------------------------------------------------------------- the run

  function Ids(lo: nat, hi: nat): (s: seq<Task>)
    requires lo <= hi
    ensures |s| == hi - lo
  {
    seq(hi - lo, k requires 0 <= k < hi - lo => lo + k)
  }

  function Calls(lo: nat, hi: nat, pc: CallPc): (s: seq<Call>)
    requires lo <= hi
    ensures |s| == hi - lo
  {
    seq(hi - lo, k requires 0 <= k < hi - lo => Call(lo + k, pc))
  }

  function Workers(n: nat, asleep: nat): (s: seq<WorkerPc>)
    ensures |s| == n
  {
    seq(n, w => if w < asleep then Asleep else Start)
  }

  function Scene(n: nat, tasks: nat, asleep: nat, calls: seq<Call>): State {
    State(Ids(0, tasks), false, Nobody, Workers(n, asleep), calls, NotCalled, Ids(0, tasks), [], [])
  }

  lemma {:induction false} Park(n: nat, w: nat)
    requires w <= n
    ensures Reaches(Init(n), Scene(n, 0, w, []))
  {
    if w == 0 {
      ReachesSelf(Init(n));
      assert Init(n) == Scene(n, 0, 0, []);
    } else {
      Park(n, w - 1);
      SleepOnEmpty(Init(n), Scene(n, 0, w - 1, []), w - 1);
      assert Workers(n, w - 1)[w - 1 := Asleep] == Workers(n, w);
    }
  }

  lemma NonePending(lo: nat, hi: nat, pc: CallPc)
    requires lo <= hi && (pc == MustNotify || pc == Returned)
    ensures Count(Calls(lo, hi, pc), IsPending) == 0
  {
    CountNone(Calls(lo, hi, pc), IsPending);
  }

  /** i calls have appended their tasks and none of them has notified yet. */
  lemma {:induction false} Fill(n: nat, i: nat)
    requires i <= CAPACITY
    ensures Reaches(Init(n), Scene(n, i, n, Calls(0, i, MustNotify)))
  {
    if i == 0 {
      Park(n, n);
      assert Calls(0, 0, MustNotify) == [];
    } else {
      Fill(n, i - 1);
      NonePending(0, i - 1, MustNotify);
      AppendOne(Init(n), Scene(n, i - 1, n, Calls(0, i - 1, MustNotify)), i - 1);
      assert Ids(0, i - 1) + [i - 1] == Ids(0, i);
      assert Calls(0, i - 1, MustNotify) + [Call(i - 1, MustNotify)] == Calls(0, i, MustNotify);
    }
  }

  /** Of the calls that filled the queue, j have notified, and one more call waits on the full queue. */
  function Ringing(j: nat, waiter: CallPc): (s: seq<Call>)
    requires j <= CAPACITY
    ensures |s| == CAPACITY + 1
  {
    Calls(0, j, Returned) + Calls(j, CAPACITY, MustNotify) + [Call(CAPACITY, waiter)]
  }

  lemma OnePending(j: nat, waiter: CallPc)
    requires j <= CAPACITY
    ensures Count(Ringing(j, waiter), IsPending) <= 1
  {
    var front := Calls(0, j, Returned) + Calls(j, CAPACITY, MustNotify);
    CountNone(front, IsPending);
    CountAppend(front, Call(CAPACITY, waiter), IsPending);
  }

  lemma RingOne(j: nat)
    requires j < CAPACITY
    ensures var s := Ringing(j, Waiting);
            && s[CAPACITY] == Call(CAPACITY, Waiting) && s[j] == Call(j, MustNotify)
            && s[CAPACITY := Call(CAPACITY, Notified)][j := Call(j, Returned)] == Ringing(j + 1, Notified)
    ensures Ringing(j + 1, Notified)[CAPACITY := Call(CAPACITY, Waiting)] == Ringing(j + 1, Waiting)
    ensures Ringing(j + 1, Notified)[CAPACITY] == Call(CAPACITY, Notified)
  {
  }

  lemma FirstWait(n: nat)
    ensures Reaches(Init(n), Scene(n, CAPACITY, n, Ringing(0, Waiting)))
  {
    var s := Scene(n, CAPACITY, n, Calls(0, CAPACITY, MustNotify));
    Fill(n, CAPACITY);
    NonePending(0, CAPACITY, MustNotify);
    CountAppend(s.calls, Call(CAPACITY, Entering), IsPending);
    ReachesNext(Init(n), s, CallEnters(CAPACITY));
    var s1 := Next(s, CallEnters(CAPACITY));
    WaitOnFull(Init(n), s1, CAPACITY);
    assert SetCall(s1, CAPACITY, Waiting).calls == Ringing(0, Waiting);
  }

  /** Each notification goes to the waiter, who finds the queue full and waits again. */
  lemma {:induction false} Divert(n: nat, j: nat)
    requires j <= CAPACITY
    ensures Reaches(Init(n), Scene(n, CAPACITY, n, Ringing(j, Waiting)))
  {
    if j == 0 {
      FirstWait(n);
    } else {
      Divert(n, j - 1);
      RingOne(j - 1);
      OnePending(j, Notified);
      hide Ringing;
      var s, step := Scene(n, CAPACITY, n, Ringing(j - 1, Waiting)), CallNotifies(j - 1, WakeCall(CAPACITY));
      assert Next(s, step) == Scene(n, CAPACITY, n, Ringing(j, Notified));
      ReachesNext(Init(n), s, step);
      WaitOnFull(Init(n), Scene(n, CAPACITY, n, Ringing(j, Notified)), CAPACITY);
    }
  }

  /** Nothing is left to happen in the state except a new call, a shutdown, or a spurious wake-up. */
  ghost predicate Stalled(s: State) {
    && |s.tasks| == CAPACITY && !s.stop
    && (forall step :: Enabled(s, step) ==>
          step.CallEnters? || step.StopLocks? || step.WorkerWakesSpuriously? || step.CallWakesSpuriously?)
  }

  /** One call above the capacity is enough: whatever the number of workers, there is a run that ends
      with 100 tasks queued, every worker asleep, and every notification spent on the waiting call. */
  lemma {:induction false} WakeupsCanBeLost(n: nat)
    ensures exists steps :: Legal(Init(n), steps) && LoadAtMost(Init(n), steps, CAPACITY + 1)
                            && Stalled(Run(Init(n), steps)) && !SomeoneWillServe(Run(Init(n), steps))
  {
    Divert(n, CAPACITY);
    var s := Scene(n, CAPACITY, n, Ringing(CAPACITY, Waiting));
    assert s.calls == Calls(0, CAPACITY, Returned) + [Call(CAPACITY, Waiting)];
    assert Stalled(s) && !SomeoneWillServe(s);
    assert Reaches(Init(n), s);
  }

  lemma {:induction false} LoadGrows(s: State, steps: seq<Step>, k: nat, l: nat)
    requires Legal(s, steps) && LoadAtMost(s, steps, k) && k <= l
    ensures LoadAtMost(s, steps, l)
    decreases steps
  {
    if steps != [] {
      LoadGrows(Next(s, steps[0]), steps[1..], k, l);
    }
  }

  ghost predicate NeverLost(n: nat, k: nat) {
    forall steps :: Legal(Init(n), steps) && LoadAtMost(Init(n), steps, k) ==> SomeoneWillServe(Run(Init(n), steps))
  }

  /** Exactly how much load the pool bears: queued work always has a worker awake or a notification
      owed in every run whose queued tasks and pending calls never exceed k, if and only if k is at
      most the capacity of the queue. */
  lemma {:induction false} WakeupsAreSafeIff(n: nat, k: nat)
    requires 0 < n
    ensures NeverLost(n, k) <==> k <= CAPACITY
  {
    if k <= CAPACITY {
      forall steps | Legal(Init(n), steps) && LoadAtMost(Init(n), steps, k)
        ensures SomeoneWillServe(Run(Init(n), steps)) {
        LoadGrows(Init(n), steps, k, CAPACITY);
        RoomMeansNoWait(Init(n), steps);
        NoWakeupIsLostWithoutWaits(n, steps);
      }
    } else {
      WakeupsCanBeLost(n);
      var steps :| Legal(Init(n), steps) && LoadAtMost(Init(n), steps, CAPACITY + 1)
                   && !SomeoneWillServe(Run(Init(n), steps));
      LoadGrows(Init(n), steps, CAPACITY + 1, k);
    }
  }
}
