/** When `stop` ends the consumer thread, which reads the flag at one place only: between a callback
    and the next wait, outside the pause loop. */
module MessageConsumerStop {
  import opened Counting
  import opened MessageConsumer

  /** The consumer is about to read the stop flag, or will get there without waiting: it is not
      paused, and it is past the wait for a message or has a message to take. */
  predicate OnTheWayOut(s: State) {
    || s.consumer == Exited
    || s.consumer == CheckingStop
    || (!s.pauseFlag && (BeforePop(s.consumer) ==> s.queue != []))
  }

  /** How many steps the consumer can be away from the end of its thread. */
  function Distance(pc: ConsumerPc): nat {
    match pc
    case Exited => 0
    case CheckingStop => 1
    case EvaluatingPause => 2
    case AfterCallback => 3
    case AsleepInPause => 4
    case Delivering(_) => 4
    case InsidePop => 5
    case EnteringPop => 6
    case BlockedInPop => 7
    case TestingAgain => 7
    case EvaluatingWait => 8
    case WantsMessage => 9
    case AsleepForMessage => 10
  }

  predicate NoPause(steps: seq<Step>) {
    forall i :: 0 <= i < |steps| ==> steps[i] != Pause
  }

  predicate Asleep(pc: ConsumerPc) {
    pc == AsleepForMessage || pc == AsleepInPause
  }

  /** A wake-up that no notification causes; nobody owes it to a sleeper. */
  predicate IsSpurious(step: Step) {
    step == WakeForMessage || step == WakeInPause
  }

  lemma WayOutConsumerStep(s: State, step: Step)
    requires LockInv(s) && s.stopFlag && OnTheWayOut(s) && !Asleep(s.consumer)
    requires Enabled(s, step) && IsConsumerStep(step)
    ensures var t := Next(s, step);
            && t.stopFlag && OnTheWayOut(t) && !Asleep(t.consumer) && Distance(t.consumer) < Distance(s.consumer)
            && !IsSpurious(step)
  {
  }

  lemma WayOutClientStep(s: State, step: Step)
    requires LockInv(s) && s.stopFlag && OnTheWayOut(s) && !Asleep(s.consumer)
    requires Enabled(s, step) && !IsConsumerStep(step) && step != Pause
    ensures var t := Next(s, step);
            && t.stopFlag && OnTheWayOut(t) && !Asleep(t.consumer) && Distance(t.consumer) <= Distance(s.consumer)
            && !IsSpurious(step)
  {
  }

  predicate IsTheConsumers(step: Step) { IsConsumerStep(step) }

  predicate NoSpuriousWakeup(steps: seq<Step>) {
    forall i :: 0 <= i < |steps| ==> !IsSpurious(steps[i])
  }

  /** After a `stop` that finds the consumer on its way out, the consumer takes at most nine more steps
      in any interleaving without a pause, whatever is pushed and whatever the callback says; and it
      never falls asleep again. */
  lemma {:induction false} StopIsBounded(s: State, steps: seq<Step>)
    requires Inv(s) && s.stopFlag && OnTheWayOut(s) && !Asleep(s.consumer) && Legal(s, steps) && NoPause(steps)
    ensures OnTheWayOut(Run(s, steps)) && Run(s, steps).stopFlag && !Asleep(Run(s, steps).consumer)
    ensures NoSpuriousWakeup(steps)
    ensures Count(steps, IsTheConsumers) + Distance(Run(s, steps).consumer) <= Distance(s.consumer) <= 9
    decreases steps
  {
    if steps != [] {
      InvStep(s, steps[0]);
      if IsConsumerStep(steps[0]) {
        WayOutConsumerStep(s, steps[0]);
      } else {
        WayOutClientStep(s, steps[0]);
      }
      assert forall i :: 0 <= i < |steps| - 1 ==> steps[1..][i] == steps[i + 1];
      hide Inv, Enabled, Next, OnTheWayOut, Distance, IsConsumerStep, IsSpurious, Asleep;
      StopIsBounded(Next(s, steps[0]), steps[1..]);
      assert steps == [steps[0]] + steps[1..];
    }
  }

  /** And until its thread has ended, the consumer can take one of them, or the one client that holds
      its mutex can go on and release it. Nobody has to be woken. */
  lemma {:induction false} StopProgresses(s: State)
    requires Inv(s) && s.stopFlag && OnTheWayOut(s) && !Asleep(s.consumer) && s.consumer != Exited
    ensures exists step :: Enabled(s, step) && !IsSpurious(step)
                           && (IsConsumerStep(step) || (s.outer.HeldByClient? && step == PushAppends(s.outer.k)))
  {
    var step := if s.outer.HeldByClient? && (s.consumer == WantsMessage || s.consumer == AfterCallback)
                then PushAppends(s.outer.k) else OwnStep(s.consumer);
    assert Enabled(s, step);
  }

  /** The next step of the consumer when it has its mutex or can take it. */
  function OwnStep(pc: ConsumerPc): Step
    requires pc != Exited
  {
    match pc
    case CheckingStop => CheckStop
    case WantsMessage => LockForMessage
    case EvaluatingWait => EvaluateWait
    case AsleepForMessage => WakeForMessage
    case TestingAgain => TestAgain
    case EnteringPop => EnterPop
    case InsidePop => Pop
    case BlockedInPop => Pop
    case Delivering(_) => Deliver(true)
    case AfterCallback => LockForPause
    case EvaluatingPause => EvaluatePause
    case AsleepInPause => WakeInPause
  }

  predicate NoResumeNoRefusal(steps: seq<Step>) {
    forall i :: 0 <= i < |steps| ==> steps[i] != Resume && steps[i] != Deliver(false)
  }

  predicate NoMessages(steps: seq<Step>) {
    forall i :: 0 <= i < |steps| ==> !steps[i].PushAppends? && !steps[i].PublishAppends?
  }

  /** Behind the pause flag, past the place where the stop flag is read. */
  predicate Paused(s: State) {
    s.pauseFlag && s.consumer != CheckingStop && s.consumer != Exited
  }

  predicate Idle(s: State) {
    s.queue == [] && (s.consumer == WantsMessage || s.consumer == EvaluatingWait || s.consumer == AsleepForMessage)
  }

  lemma PausedStep(s: State, step: Step)
    requires Paused(s) && Enabled(s, step) && step != Resume && step != Deliver(false)
    ensures Paused(Next(s, step))
  {
  }

  /** A paused consumer does not end, however many messages come: the pause loop does not look at the
      stop flag. */
  lemma {:induction false} PausedConsumerNeverStops(s: State, steps: seq<Step>)
    requires Paused(s) && Legal(s, steps) && NoResumeNoRefusal(steps)
    ensures Paused(Run(s, steps))
    decreases steps
  {
    if steps != [] {
      PausedStep(s, steps[0]);
      assert forall i :: 0 <= i < |steps| - 1 ==> steps[1..][i] == steps[i + 1];
      hide Next, Enabled, Paused;
      PausedConsumerNeverStops(Next(s, steps[0]), steps[1..]);
    }
  }

  /** A consumer that waits on an empty queue does not end without a message: the wait does not look
      at the stop flag, and a `join` never returns. */
  lemma {:induction false} StopNeedsAMessage(s: State, steps: seq<Step>)
    requires Idle(s) && Legal(s, steps) && NoMessages(steps)
    ensures Idle(Run(s, steps))
    decreases steps
  {
    if steps != [] {
      assert !steps[0].PushAppends? && !steps[0].PublishAppends?;
      assert Idle(Next(s, steps[0]));
      assert forall i :: 0 <= i < |steps| - 1 ==> steps[1..][i] == steps[i + 1];
      hide Next, Enabled;
      StopNeedsAMessage(Next(s, steps[0]), steps[1..]);
    }
  }

  /** Nobody helps: no resume, no message, the callback accepts, and unless `spurious`, nobody wakes
      up without a notification. */
  predicate Unaided(steps: seq<Step>, spurious: bool) {
    NoResumeNoRefusal(steps) && NoMessages(steps) && (spurious || NoSpuriousWakeup(steps))
  }

  ghost predicate CanEndUnaided(s: State, spurious: bool) {
    exists steps :: Legal(s, steps) && Unaided(steps, spurious) && Run(s, steps).consumer == Exited
  }

  lemma NotOnTheWayOut(s: State)
    requires LockInv(s) && !OnTheWayOut(s)
    ensures Paused(s) || Idle(s)
  {
  }

  lemma StuckCannotEnd(s: State, spurious: bool)
    requires LockInv(s) && !OnTheWayOut(s)
    ensures !CanEndUnaided(s, spurious)
  {
    NotOnTheWayOut(s);
    forall steps | Legal(s, steps) && Unaided(steps, spurious) ensures Run(s, steps).consumer != Exited {
      if Paused(s) {
        PausedConsumerNeverStops(s, steps);
      } else {
        StopNeedsAMessage(s, steps);
      }
    }
  }

  lemma OwnStepIsEnabled(s: State)
    requires LockInv(s) && s.consumer != Exited && !s.outer.HeldByClient?
    ensures Enabled(s, OwnStep(s.consumer)) && IsConsumerStep(OwnStep(s.consumer))
    ensures !Next(s, OwnStep(s.consumer)).outer.HeldByClient?
  {
  }

  lemma {:induction false} WayOutIsTaken(s: State) returns (steps: seq<Step>)
    requires Inv(s) && s.stopFlag && OnTheWayOut(s) && !Asleep(s.consumer) && !s.outer.HeldByClient?
    ensures Legal(s, steps) && Unaided(steps, false) && Run(s, steps).consumer == Exited
    decreases Distance(s.consumer)
  {
    if s.consumer == Exited {
      steps := [];
    } else {
      var step := OwnStep(s.consumer);
      OwnStepIsEnabled(s);
      InvStep(s, step);
      WayOutConsumerStep(s, step);
      assert step != Resume && step != Deliver(false) && !step.PushAppends? && !step.PublishAppends?;
      hide Inv, Enabled, Next, OnTheWayOut, Distance, OwnStep, IsConsumerStep, IsSpurious, Asleep;
      var more := WayOutIsTaken(Next(s, step));
      steps := [step] + more;
      assert steps[1..] == more;
    }
  }

  lemma StopKeepsTheWayOut(s: State)
    requires Enabled(s, Stop)
    ensures OnTheWayOut(Next(s, Stop)) == OnTheWayOut(s)
    ensures Next(s, Stop).stopFlag && Next(s, Stop).outer == Free && !Asleep(Next(s, Stop).consumer)
  {
  }

  /** When `stop` ends the consumer by itself: exactly when it finds it about to read the flag, or
      neither paused nor waiting on an empty queue. Spurious wake-ups make no difference. */
  lemma {:induction false} StopEndsIff(s: State, spurious: bool)
    requires Inv(s) && Enabled(s, Stop)
    ensures CanEndUnaided(Next(s, Stop), spurious) <==> OnTheWayOut(s)
  {
    var t := Next(s, Stop);
    InvStep(s, Stop);
    StopKeepsTheWayOut(s);
    hide Enabled, Next, OnTheWayOut, Asleep;
    if OnTheWayOut(s) {
      var steps := WayOutIsTaken(t);
      assert Unaided(steps, spurious);
    } else {
      StuckCannotEnd(t, spurious);
    }
  }

  /** When it ends the consumer, it does so in every run without a pause: the consumer takes at most
      nine steps, none of them a spurious wake-up, and until it has ended it, or the client that holds
      its mutex, can go on. */
  lemma {:induction false} StopEndsInEveryRun(s: State, steps: seq<Step>)
    requires Inv(s) && Enabled(s, Stop) && OnTheWayOut(s) && Legal(Next(s, Stop), steps) && NoPause(steps)
    ensures var t := Run(Next(s, Stop), steps);
            && Count(steps, IsTheConsumers) <= 9 && NoSpuriousWakeup(steps) && !Asleep(t.consumer)
            && (t.consumer != Exited ==>
                  exists step :: Enabled(t, step) && !IsSpurious(step)
                                 && (IsConsumerStep(step) || (t.outer.HeldByClient? && step == PushAppends(t.outer.k))))
  {
    InvStep(s, Stop);
    StopKeepsTheWayOut(s);
    hide Inv, Enabled, Next, Legal, Run, OnTheWayOut, Asleep, IsSpurious, IsConsumerStep, NoSpuriousWakeup;
    StopIsBounded(Next(s, Stop), steps);
    RunKeepsInv(Next(s, Stop), steps);
    if Run(Next(s, Stop), steps).consumer != Exited {
      StopProgresses(Run(Next(s, Stop), steps));
    }
  }

  lemma InitInv()
    ensures Inv(INIT)
  {
  }

  /** A reachable idle consumer that no stop ends. */
  lemma {:induction false} StopMissesIdleConsumer()
    ensures exists steps :: Legal(INIT, steps) && Enabled(Run(INIT, steps), Stop)
                            && Run(INIT, steps).queue == [] && !Run(INIT, steps).pauseFlag
                            && !CanEndUnaided(Next(Run(INIT, steps), Stop), true)
  {
    hide Legal, Run, Inv, CanEndUnaided, Next;
    var steps := UpToTheWait(INIT);
    InitInv();
    RunKeepsInv(INIT, steps);
    StopEndsIff(Run(INIT, steps), true);
  }

  lemma PublishOne(s: State, steps: seq<Step>, m: Message) returns (r: seq<Step>)
    requires Legal(s, steps) && Run(s, steps).consumer != BlockedInPop && InnerFree(Run(s, steps))
    ensures var t := Run(s, steps);
            && Legal(s, r)
            && Run(s, r) == t.(clients := t.clients + [Returned], queue := t.queue + [m], pushed := t.pushed + [m])
  {
    var t := Run(s, steps);
    var u := Next(t, CallPublish(m));
    assert u.clients[|t.clients| := Returned] == t.clients + [Returned];
    assert Next(u, PublishAppends(|t.clients|))
        == t.(clients := t.clients + [Returned], queue := t.queue + [m], pushed := t.pushed + [m]);
    r := TwoStepsMore(s, steps, CallPublish(m), PublishAppends(|t.clients|));
  }

  lemma NoSteps()
    ensures Legal(INIT, []) && Run(INIT, []) == INIT
  {
  }

  lemma TakesOne(m: Message) returns (steps: seq<Step>)
    ensures Legal(INIT, steps)
    ensures Run(INIT, steps) == State([], false, false, Free, Delivering(m), [Returned], [m], [])
  {
    hide Enabled, Next, Legal, Run;
    NoSteps();
    var before := PublishOne(INIT, [], m);
    var s := Run(INIT, before);
    assert s == State([m], false, false, Free, CheckingStop, [Returned], [m], []);
    var more := UpToTheCallback(s);
    RunsInSequence(INIT, before, more);
    steps := before + more;
    assert [m][1..] == [];
  }

  /** The consumer delivers one message and falls asleep in the pause loop. */
  lemma PausedAfterOne(m: Message) returns (steps: seq<Step>)
    ensures Legal(INIT, steps)
    ensures Run(INIT, steps) == State([], true, false, Free, AsleepInPause, [Returned], [m], [m])
  {
    hide Enabled, Next, Legal, Run;
    var one := TakesOne(m);
    PauseAfterCallback(Run(INIT, one));
    var two := TwoStepsMore(INIT, one, Deliver(true), Pause);
    steps := TwoStepsMore(INIT, two, LockForPause, EvaluatePause);
  }

  lemma PauseAfterCallback(s: State)
    requires s.consumer.Delivering? && s.outer == Free
    ensures Enabled(s, Deliver(true)) && Enabled(Next(s, Deliver(true)), Pause)
    ensures var t := Next(Next(s, Deliver(true)), Pause);
            && t == s.(pauseFlag := true, consumer := AfterCallback, delivered := s.delivered + [s.consumer.message])
            && Enabled(t, LockForPause) && Enabled(Next(t, LockForPause), EvaluatePause)
            && Next(Next(t, LockForPause), EvaluatePause) == t.(consumer := AsleepInPause)
  {
  }

  /** A reachable paused consumer, with a message queued, that no stop ends. */
  lemma {:induction false} StopMissesPausedConsumer(m: Message)
    ensures exists steps :: Legal(INIT, steps) && Enabled(Run(INIT, steps), Stop)
                            && Run(INIT, steps).queue == [m] && Run(INIT, steps).pauseFlag
                            && !CanEndUnaided(Next(Run(INIT, steps), Stop), true)
  {
    var before := PausedAfterOne(m);
    var steps := PublishOne(INIT, before, m);
    var s := Run(INIT, steps);
    InitInv();
    RunKeepsInv(INIT, steps);
    assert Enabled(s, Stop) && !OnTheWayOut(s);
    hide Inv, Enabled, Next, Legal, Run, OnTheWayOut, CanEndUnaided;
    StopEndsIff(s, true);
  }
}
