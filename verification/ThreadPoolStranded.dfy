/** Taking a task notifies nobody: a call of `enqueue` that waits on the full queue is still waiting
    when the workers have emptied it, and stays so until somebody else comes. */
module ThreadPoolStranded {
  import opened Counting
  import opened ThreadPool
  import opened ThreadPoolStall

  /** A call waits on an empty queue, and nothing is left to happen except a new call, a shutdown, or a
      spurious wake-up. */
  ghost predicate Stranded(s: State) {
    && s.tasks == [] && !s.stop
    && (exists c :: 0 <= c < |s.calls| && s.calls[c].pc == Waiting)
    && (forall step :: Enabled(s, step) ==>
          step.CallEnters? || step.StopLocks? || step.WorkerWakesSpuriously? || step.CallWakesSpuriously?)
  }

  /** Of i accepted tasks, j have been taken and run, and w workers sleep. */
  function Quiet(n: nat, i: nat, j: nat, w: nat, calls: seq<Call>): State
    requires j <= i
  {
    State(Ids(j, i), false, Nobody, Workers(n, w), calls, NotCalled, Ids(0, i), Ids(0, j), Ids(0, j))
  }

  lemma NobodyToNotify(n: nat, i: nat)
    ensures NobodySleeps(Quiet(n, i + 1, 0, 0, Calls(0, i, Returned) + [Call(i, MustNotify)]))
  {
  }

  /** i calls have appended their tasks and notified, while no worker slept. */
  lemma {:induction false} FillQuietly(n: nat, i: nat)
    requires i <= CAPACITY
    ensures Reaches(Init(n), Quiet(n, i, 0, 0, Calls(0, i, Returned)))
  {
    if i == 0 {
      ReachesSelf(Init(n));
      assert Init(n) == Quiet(n, 0, 0, 0, Calls(0, 0, Returned));
    } else {
      var s := Quiet(n, i - 1, 0, 0, Calls(0, i - 1, Returned));
      var t := Quiet(n, i, 0, 0, Calls(0, i - 1, Returned) + [Call(i - 1, MustNotify)]);
      FillQuietly(n, i - 1);
      NonePending(0, i - 1, Returned);
      AppendOne(Init(n), s, i - 1);
      assert Ids(0, i - 1) + [i - 1] == Ids(0, i);
      NobodyToNotify(n, i - 1);
      NonePending(0, i, Returned);
      assert t.calls[i - 1 := Call(i - 1, Returned)] == Calls(0, i, Returned);
      ReachesNext(Init(n), t, CallNotifies(i - 1, NoTarget));
    }
  }

  /** The calls that filled the queue have returned, and one more waits. */
  function WaiterCalls(): (s: seq<Call>)
    ensures |s| == CAPACITY + 1
  {
    Calls(0, CAPACITY, Returned) + [Call(CAPACITY, Waiting)]
  }

  lemma WaiterIsPending()
    ensures Count(WaiterCalls(), IsPending) == 1
  {
    NonePending(0, CAPACITY, Returned);
    CountAppend(Calls(0, CAPACITY, Returned), Call(CAPACITY, Waiting), IsPending);
  }

  lemma WaitQuietly(n: nat)
    ensures Reaches(Init(n), Quiet(n, CAPACITY, 0, 0, WaiterCalls()))
  {
    var s := Quiet(n, CAPACITY, 0, 0, Calls(0, CAPACITY, Returned));
    FillQuietly(n, CAPACITY);
    NonePending(0, CAPACITY, Returned);
    CountAppend(s.calls, Call(CAPACITY, Entering), IsPending);
    ReachesNext(Init(n), s, CallEnters(CAPACITY));
    var s1 := Next(s, CallEnters(CAPACITY));
    WaitOnFull(Init(n), s1, CAPACITY);
    assert SetCall(s1, CAPACITY, Waiting).calls == WaiterCalls();
  }

  /** The first worker takes the oldest task and runs it. */
  lemma ServeOne(s0: State, s: State)
    requires Reaches(s0, s) && s.lock == Nobody && s.tasks != [] && Load(s) <= CAPACITY + 1
    requires s.workers != [] && s.workers[0] == Start
    ensures Reaches(s0, s.(tasks := s.tasks[1..], taken := s.taken + [s.tasks[0]],
                           finished := s.finished + [s.tasks[0]]))
  {
    ReachesNext(s0, s, WorkerLocks(0));
    var s1 := Next(s, WorkerLocks(0));
    ReachesNext(s0, s1, WorkerChecks(0));
    var s2 := Next(s1, WorkerChecks(0));
    ReachesNext(s0, s2, WorkerFinishes(0));
    assert Next(s2, WorkerFinishes(0)).workers == s.workers;
  }

  lemma QuietTaken(n: nat, i: nat, j: nat, calls: seq<Call>)
    requires j < i
    ensures var s := Quiet(n, i, j, 0, calls);
            && s.tasks != [] && s.tasks[0] == j
            && s.(tasks := s.tasks[1..], taken := s.taken + [j], finished := s.finished + [j])
               == Quiet(n, i, j + 1, 0, calls)
  {
    assert Ids(j, i)[1..] == Ids(j + 1, i) && Ids(0, j) + [j] == Ids(0, j + 1);
  }

  lemma QuietParked(n: nat, i: nat, w: nat, calls: seq<Call>)
    requires w < n
    ensures var s := Quiet(n, i, i, w, calls);
            && s.tasks == [] && s.workers[w] == Start
            && SetWorker(s, w, Asleep) == Quiet(n, i, i, w + 1, calls)
  {
    assert Workers(n, w)[w := Asleep] == Workers(n, w + 1);
  }

  lemma QuietLoad(n: nat, j: nat, w: nat)
    requires j <= CAPACITY
    ensures Load(Quiet(n, CAPACITY, j, w, WaiterCalls())) <= CAPACITY + 1
  {
    WaiterIsPending();
  }

  lemma {:induction false} Drain(n: nat, j: nat)
    requires 0 < n && j <= CAPACITY
    ensures Reaches(Init(n), Quiet(n, CAPACITY, j, 0, WaiterCalls()))
  {
    if j == 0 {
      WaitQuietly(n);
    } else {
      hide Reaches, Ids, WaiterCalls, Load;
      Drain(n, j - 1);
      QuietLoad(n, j - 1, 0);
      QuietTaken(n, CAPACITY, j - 1, WaiterCalls());
      ServeOne(Init(n), Quiet(n, CAPACITY, j - 1, 0, WaiterCalls()));
    }
  }

  lemma {:induction false} ParkAll(n: nat, w: nat)
    requires 0 < n && w <= n
    ensures Reaches(Init(n), Quiet(n, CAPACITY, CAPACITY, w, WaiterCalls()))
  {
    if w == 0 {
      Drain(n, CAPACITY);
    } else {
      hide Reaches, Ids, WaiterCalls, Load;
      ParkAll(n, w - 1);
      QuietLoad(n, CAPACITY, w - 1);
      QuietParked(n, CAPACITY, w - 1, WaiterCalls());
      SleepOnEmpty(Init(n), Quiet(n, CAPACITY, CAPACITY, w - 1, WaiterCalls()), w - 1);
    }
  }

  /** Whatever the number of workers, one call above the capacity can be left waiting for good on a
      queue that is empty, although every task that was accepted has run. */
  lemma {:induction false} CallCanBeStranded(n: nat)
    requires 0 < n
    ensures exists steps :: Legal(Init(n), steps) && LoadAtMost(Init(n), steps, CAPACITY + 1)
                            && Stranded(Run(Init(n), steps))
                            && Run(Init(n), steps).finished == Run(Init(n), steps).accepted
  {
    var s := Quiet(n, CAPACITY, CAPACITY, n, WaiterCalls());
    ParkAll(n, n);
    assert s.calls[CAPACITY].pc == Waiting;
    assert Stranded(s);
    assert Reaches(Init(n), s);
  }

  ghost predicate NeverStranded(n: nat, k: nat) {
    forall steps :: Legal(Init(n), steps) && LoadAtMost(Init(n), steps, k) ==> !Stranded(Run(Init(n), steps))
  }

  /** Calls are never left behind in runs whose queued tasks and pending calls never exceed k, if and
      only if k is at most the capacity of the queue. */
  lemma {:induction false} CallsAreSafeIff(n: nat, k: nat)
    requires 0 < n
    ensures NeverStranded(n, k) <==> k <= CAPACITY
  {
    if k <= CAPACITY {
      forall steps | Legal(Init(n), steps) && LoadAtMost(Init(n), steps, k) ensures !Stranded(Run(Init(n), steps)) {
        LoadGrows(Init(n), steps, k, CAPACITY);
        RoomMeansNoWait(Init(n), steps);
        NobodyWaitsAtTheEnd(Init(n), steps);
      }
    } else {
      CallCanBeStranded(n);
      var steps :| Legal(Init(n), steps) && LoadAtMost(Init(n), steps, CAPACITY + 1) && Stranded(Run(Init(n), steps));
      LoadGrows(Init(n), steps, CAPACITY + 1, k);
    }
  }
}
