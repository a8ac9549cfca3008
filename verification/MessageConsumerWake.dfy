/** What wakes the consumer: a resume ends the pause loop, every run comes to rest, and a consumer at rest
    has ended, is paused, or has delivered everything. */
module MessageConsumerWake {
  import opened Counting
  import opened MessageConsumer
  import opened MessageConsumerStop

  // ---------------------------------------------------------------- the pause loop

  lemma PauseSleepStep(s: State, step: Step)
    requires s.consumer == AsleepInPause ==> s.pauseFlag
    requires Enabled(s, step)
    ensures Next(s, step).consumer == AsleepInPause ==> Next(s, step).pauseFlag
  {
  }

  lemma {:induction false} PauseSleepRun(s: State, steps: seq<Step>)
    requires s.consumer == AsleepInPause ==> s.pauseFlag
    requires Legal(s, steps)
    ensures Run(s, steps).consumer == AsleepInPause ==> Run(s, steps).pauseFlag
    decreases steps
  {
    if steps != [] {
      PauseSleepStep(s, steps[0]);
      hide Enabled, Next;
      PauseSleepRun(Next(s, steps[0]), steps[1..]);
    }
  }

  /** In every interleaving the consumer sleeps in the pause loop only while it is paused. */
  lemma {:induction false} SleepsInPauseOnlyPaused(steps: seq<Step>)
    requires Legal(INIT, steps)
    ensures Run(INIT, steps).consumer == AsleepInPause ==> Run(INIT, steps).pauseFlag
  {
    PauseSleepRun(INIT, steps);
  }

  /** Where a notification leaves the consumer. */
  function Awoken(pc: ConsumerPc): ConsumerPc {
    match pc
    case AsleepForMessage => WantsMessage
    case AsleepInPause => AfterCallback
    case _ => pc
  }

  /** A client that finds the mutex free can pause, resume or stop; each sets its flag and wakes the
      consumer, and so does the end of a push. Nothing else changes. */
  lemma CallsWakeTheConsumer(s: State, k: nat)
    ensures s.outer == Free ==>
              && Enabled(s, Pause) && Next(s, Pause) == s.(pauseFlag := true, consumer := Awoken(s.consumer))
              && Enabled(s, Resume) && Next(s, Resume) == s.(pauseFlag := false, consumer := Awoken(s.consumer))
              && Enabled(s, Stop) && Next(s, Stop) == s.(stopFlag := true, consumer := Awoken(s.consumer))
    ensures k < |s.clients| && s.clients[k] == PushOwesNotify ==>
              && Enabled(s, PushNotifies(k))
              && Next(s, PushNotifies(k)) == s.(clients := s.clients[k := Returned], consumer := Awoken(s.consumer))
  {
  }

  /** Clients can call at any time, the callback can answer either way, and a thread waits for a mutex or to be
      woken, and for nothing else. */
  lemma {:induction false} OnlyTheMutexBlocks(s: State, k: nat, m: Message, keepGoing: bool)
    requires LockInv(s)
    ensures Enabled(s, CallPush(m)) && Enabled(s, CallPublish(m))
    ensures s.consumer.Delivering? ==> Enabled(s, Deliver(keepGoing))
    ensures k < |s.clients| && s.clients[k].PushWantsOuter? && s.outer == Free ==> Enabled(s, PushLocks(k))
    ensures k < |s.clients| && s.clients[k].PushHoldsOuter? ==> Enabled(s, PushAppends(k))
    ensures k < |s.clients| && s.clients[k] == PushOwesNotify ==> Enabled(s, PushNotifies(k))
    ensures k < |s.clients| && s.clients[k].PublishWantsInner? && s.consumer != InsidePop ==>
              Enabled(s, PublishAppends(k))
    ensures s.consumer != Exited && (s.consumer == WantsMessage || s.consumer == AfterCallback ==> s.outer == Free) ==>
              exists step :: IsConsumerStep(step) && Enabled(s, step)
  {
    if s.consumer != Exited && (s.consumer == WantsMessage || s.consumer == AfterCallback ==> s.outer == Free) {
      assert IsConsumerStep(OwnStep(s.consumer)) && Enabled(s, OwnStep(s.consumer));
    }
  }

  predicate PastCallback(pc: ConsumerPc) {
    pc == AfterCallback || pc == EvaluatingPause || pc == CheckingStop
  }

  function ToCheck(pc: ConsumerPc): nat {
    match pc
    case AfterCallback => 2
    case EvaluatingPause => 1
    case _ => 0
  }

  predicate NoCheck(steps: seq<Step>) {
    forall i :: 0 <= i < |steps| ==> steps[i] != CheckStop
  }

  lemma ResumedStep(s: State, step: Step)
    requires Enabled(s, step) && !s.pauseFlag && PastCallback(s.consumer) && step != Pause && step != CheckStop
    ensures var t := Next(s, step);
            && !t.pauseFlag && PastCallback(t.consumer) && !IsSpurious(step)
            && ToCheck(t.consumer) + (if IsTheConsumers(step) then 1 else 0) == ToCheck(s.consumer)
  {
  }

  lemma {:induction false} ResumedIsBounded(s: State, steps: seq<Step>)
    requires Legal(s, steps) && !s.pauseFlag && PastCallback(s.consumer) && NoPause(steps) && NoCheck(steps)
    ensures var t := Run(s, steps);
            && !t.pauseFlag && PastCallback(t.consumer) && NoSpuriousWakeup(steps)
            && Count(steps, IsTheConsumers) + ToCheck(t.consumer) == ToCheck(s.consumer)
    decreases steps
  {
    if steps != [] {
      assert steps[0] != Pause && steps[0] != CheckStop;
      ResumedStep(s, steps[0]);
      assert forall i :: 0 <= i < |steps| - 1 ==> steps[1..][i] == steps[i + 1];
      hide Enabled, Next, PastCallback, ToCheck, IsTheConsumers, IsSpurious;
      ResumedIsBounded(Next(s, steps[0]), steps[1..]);
      assert steps == [steps[0]] + steps[1..];
    }
  }

  lemma ResumedProgresses(s: State)
    requires LockInv(s) && PastCallback(s.consumer) && s.consumer != CheckingStop
    ensures exists step :: Enabled(s, step) && !IsSpurious(step)
                           && (IsConsumerStep(step) || (s.outer.HeldByClient? && step == PushAppends(s.outer.k)))
  {
    var step := if s.consumer == EvaluatingPause then EvaluatePause
                else if s.outer.HeldByClient? then PushAppends(s.outer.k) else LockForPause;
    assert Enabled(s, step);
  }

  /** A resume ends the pause loop: as long as nobody pauses again, a consumer that it finds past its
      callback, asleep or not, comes to read the stop flag within two steps of its own, no one has to wake
      it, and it or the client that holds its mutex can always go on. */
  lemma {:induction false} ResumeEndsThePause(before: seq<Step>, steps: seq<Step>)
    requires Legal(INIT, before) && Run(INIT, before).outer == Free
    requires var pc := Run(INIT, before).consumer; PastCallback(pc) || pc == AsleepInPause
    requires Legal(Next(Run(INIT, before), Resume), steps) && NoPause(steps) && NoCheck(steps)
    ensures var t := Run(Next(Run(INIT, before), Resume), steps);
            && PastCallback(t.consumer) && Count(steps, IsTheConsumers) + ToCheck(t.consumer) <= 2
            && NoSpuriousWakeup(steps)
            && (t.consumer != CheckingStop ==>
                  exists step :: Enabled(t, step) && !IsSpurious(step)
                                 && (IsConsumerStep(step) || (t.outer.HeldByClient? && step == PushAppends(t.outer.k))))
  {
    var s := Run(INIT, before);
    InitInv();
    RunKeepsInv(INIT, before);
    InvStep(s, Resume);
    CallsWakeTheConsumer(s, 0);
    hide Legal, Run, Enabled, Next, OrderInv, NoSpuriousWakeup, IsSpurious, IsConsumerStep;
    ResumedIsBounded(Next(s, Resume), steps);
    RunKeepsInv(Next(s, Resume), steps);
    var t := Run(Next(s, Resume), steps);
    if t.consumer != CheckingStop {
      ResumedProgresses(t);
    }
  }

  // ---------------------------------------------------------------- every run comes to rest

  /** What a client does of its own accord, rather than because it has begun to. */
  predicate IsClientCall(step: Step) {
    step.CallPush? || step.CallPublish? || step == Pause || step == Resume || step == Stop
  }

  function PcWork(pc: ConsumerPc): nat {
    match pc
    case Exited => 0
    case AsleepForMessage => 0
    case AsleepInPause => 0
    case BlockedInPop => 1
    case InsidePop => 2
    case EnteringPop => 3
    case TestingAgain => 4
    case EvaluatingWait => 5
    case WantsMessage => 6
    case CheckingStop => 7
    case EvaluatingPause => 8
    case AfterCallback => 9
    case Delivering(_) => 10
  }

  function ClientWork(pc: ClientPc): nat {
    match pc
    case Returned => 0
    case PushOwesNotify => 10
    case PublishWantsInner(_) => 10
    case PushHoldsOuter(_) => 20
    case PushWantsOuter(_) => 21
  }

  function ClientsWork(clients: seq<ClientPc>): nat {
    if clients == [] then 0 else ClientWork(clients[0]) + ClientsWork(clients[1..])
  }

  /** How many steps are left to take when no client calls any more. */
  function Work(s: State): nat {
    9 * |s.queue| + PcWork(s.consumer) + ClientsWork(s.clients)
  }

  lemma {:induction false} ClientsWorkUpdate(clients: seq<ClientPc>, k: nat, pc: ClientPc)
    requires k < |clients|
    ensures ClientsWork(clients[k := pc]) + ClientWork(clients[k]) == ClientsWork(clients) + ClientWork(pc)
  {
    if k == 0 {
      assert clients[k := pc][1..] == clients[1..];
    } else {
      ClientsWorkUpdate(clients[1..], k - 1, pc);
      assert clients[k := pc][1..] == clients[1..][k - 1 := pc];
    }
  }

  lemma {:induction false} ClientsWorkAppend(clients: seq<ClientPc>, pc: ClientPc)
    ensures ClientsWork(clients + [pc]) == ClientsWork(clients) + ClientWork(pc)
  {
    if clients == [] {
      assert [pc][1..] == [];
    } else {
      ClientsWorkAppend(clients[1..], pc);
      assert (clients + [pc])[1..] == clients[1..] + [pc];
    }
  }

  lemma ConsumerStepWork(s: State, step: Step)
    requires LockInv(s) && Enabled(s, step) && IsConsumerStep(step) && !IsSpurious(step)
    ensures Work(Next(s, step)) < Work(s)
  {
    hide ClientsWork;
  }

  lemma PcWorkBound(pc: ConsumerPc)
    ensures PcWork(pc) <= PcWork(Awoken(pc)) <= PcWork(pc) + 9
  {
  }

  lemma ClientStepWork(s: State, step: Step)
    requires LockInv(s) && Enabled(s, step) && !IsConsumerStep(step)
    ensures Work(Next(s, step)) < Work(s) + if IsClientCall(step) then 22 else 0
  {
    hide ClientsWork, PcWork;
    PcWorkBound(s.consumer);
    match step
    case CallPush(m) => ClientsWorkAppend(s.clients, PushWantsOuter(m));
    case CallPublish(m) => ClientsWorkAppend(s.clients, PublishWantsInner(m));
    case PushLocks(k) => ClientsWorkUpdate(s.clients, k, PushHoldsOuter(s.clients[k].message));
    case PushAppends(k) => ClientsWorkUpdate(s.clients, k, PushOwesNotify);
    case PushNotifies(k) => ClientsWorkUpdate(s.clients, k, Returned);
    case PublishAppends(k) => ClientsWorkUpdate(s.clients, k, Returned);
    case _ =>
  }

  /** A call of a client makes for at most 22 steps, its own and those of the consumer: without new calls
      every run comes to rest, whatever the callback answers. */
  lemma {:induction false} ConsumerComesToRest(s: State, steps: seq<Step>)
    requires Inv(s) && Legal(s, steps) && NoSpuriousWakeup(steps)
    ensures |steps| + Work(Run(s, steps)) <= Work(s) + 22 * Count(steps, IsClientCall)
    decreases steps
  {
    if steps != [] {
      assert !IsSpurious(steps[0]);
      InvStep(s, steps[0]);
      if IsConsumerStep(steps[0]) {
        ConsumerStepWork(s, steps[0]);
      } else {
        ClientStepWork(s, steps[0]);
      }
      assert forall i :: 0 <= i < |steps| - 1 ==> steps[1..][i] == steps[i + 1];
      hide Inv, Enabled, Next, Work, IsConsumerStep, IsClientCall, IsSpurious;
      ConsumerComesToRest(Next(s, steps[0]), steps[1..]);
    }
  }

  // ---------------------------------------------------------------- the state of rest

  /** Nothing is left to happen except a new call of a client or a spurious wake-up. */
  ghost predicate AtRest(s: State) {
    forall step :: Enabled(s, step) ==> IsClientCall(step) || IsSpurious(step)
  }

  lemma RestingConsumer(s: State)
    requires LockInv(s) && AtRest(s)
    ensures s.outer == Free && (s.consumer == Exited || Asleep(s.consumer))
  {
    if s.outer.HeldByClient? {
      HolderCanMove(s);
    } else if s.consumer != Exited && !Asleep(s.consumer) {
      OwnStepIsEnabled(s);
      OwnStepIsItsOwn(s.consumer);
    }
  }

  lemma HolderCanMove(s: State)
    requires LockInv(s) && s.outer.HeldByClient?
    ensures Enabled(s, PushAppends(s.outer.k))
  {
  }

  lemma OwnStepIsItsOwn(pc: ConsumerPc)
    requires pc != Exited && !Asleep(pc)
    ensures !IsClientCall(OwnStep(pc)) && !IsSpurious(OwnStep(pc))
  {
  }

  lemma RestingClients(s: State)
    requires AtRest(s) && s.outer == Free && InnerFree(s)
    ensures forall k :: 0 <= k < |s.clients| ==> s.clients[k] == Returned || s.clients[k].PushHoldsOuter?
  {
    forall k | 0 <= k < |s.clients| ensures s.clients[k] == Returned || s.clients[k].PushHoldsOuter? {
      assert !Enabled(s, PushLocks(k)) && !Enabled(s, PushNotifies(k)) && !Enabled(s, PublishAppends(k));
    }
  }

  /** Every client has returned; the consumer has ended, is paused, or has delivered every message. */
  predicate AllServed(s: State) {
    && (forall k :: 0 <= k < |s.clients| ==> s.clients[k] == Returned)
    && (|| s.consumer == Exited
        || (s.consumer == AsleepInPause && s.pauseFlag)
        || (s.consumer == AsleepForMessage && s.queue == [] && s.delivered == s.pushed))
  }

  lemma RestIsServed(s: State)
    requires Inv(s) && AtRest(s) && Attended(s) && (s.consumer == AsleepInPause ==> s.pauseFlag)
    ensures AllServed(s)
  {
    RestingConsumer(s);
    RestingClients(s);
    hide AtRest;
    assert s.delivered + [] + [] == s.delivered;
  }

  /** A run in which every message comes through the consumer's own `push` and that has come to rest has
      served every call. */
  lemma {:induction false} AtRestMeansServed(steps: seq<Step>)
    requires Legal(INIT, steps) && NoPublish(steps) && AtRest(Run(INIT, steps))
    ensures AllServed(Run(INIT, steps))
  {
    InitInv();
    RunKeepsInv(INIT, steps);
    NoWakeupIsLostThroughPush(steps);
    SleepsInPauseOnlyPaused(steps);
    hide Legal, Run, Inv, Attended, AtRest, AllServed;
    RestIsServed(Run(INIT, steps));
  }

  ghost predicate RestIsService(k: nat) {
    forall steps :: Legal(INIT, steps) && Count(steps, IsPublish) <= k && AtRest(Run(INIT, steps)) ==>
      AllServed(Run(INIT, steps))
  }

  lemma MissedIsAtRest(s: State)
    requires s.outer == Free && s.consumer == AsleepForMessage && s.clients == [ClientPc.Returned] && s.queue != []
    ensures AtRest(s) && !AllServed(s)
  {
  }

  /** Every run with at most k messages pushed straight to the queue that comes to rest has served every
      call, if and only if k is 0. */
  lemma {:induction false} RestIsServiceIff(k: nat)
    ensures RestIsService(k) <==> k == 0
  {
    if k == 0 {
      forall steps | Legal(INIT, steps) && Count(steps, IsPublish) <= 0 && AtRest(Run(INIT, steps))
        ensures AllServed(Run(INIT, steps)) {
        CountNone(steps, IsPublish);
        assert forall i :: 0 <= i < |steps| ==> !IsPublish(steps[i]);
        AtRestMeansServed(steps);
      }
    } else {
      var steps := [CheckStop, LockForMessage, EvaluateWait, CallPublish(0), PublishAppends(0)];
      PublishedMessageCanBeMissed(0);
      OnePublish();
      hide Legal, Run;
      MissedIsAtRest(Run(INIT, steps));
    }
  }

  // ---------------------------------------------------------------- runs that exist

  function Returns(n: nat): (clients: seq<ClientPc>)
    ensures |clients| == n
  {
    seq(n, _ => ClientPc.Returned)
  }

  /** These messages have been pushed, and the consumer has not begun. */
  function Pushed(messages: seq<Message>): State {
    State(messages, false, false, Free, CheckingStop, Returns(|messages|), messages, [])
  }

  lemma PushOne(messages: seq<Message>, m: Message, steps: seq<Step>) returns (r: seq<Step>)
    requires Legal(INIT, steps) && Run(INIT, steps) == Pushed(messages)
    ensures Legal(INIT, r) && Run(INIT, r) == Pushed(messages + [m])
  {
    var s, k := Pushed(messages), |messages|;
    PushSteps(s, m);
    assert Returns(k) + [ClientPc.Returned] == Returns(k + 1);
    hide Legal, Run, Enabled, Next, Returns;
    r := TwoStepsMore(INIT, steps, CallPush(m), PushLocks(k));
    r := TwoStepsMore(INIT, r, PushAppends(k), PushNotifies(k));
  }

  lemma PushSteps(s: State, m: Message)
    requires s.outer == Free && s.consumer == CheckingStop
    ensures var k, called := |s.clients|, Next(s, CallPush(m));
            && Enabled(called, PushLocks(k))
            && var locked := Next(called, PushLocks(k));
            && Enabled(locked, PushAppends(k))
            && var appended := Next(locked, PushAppends(k));
            && Enabled(appended, PushNotifies(k))
            && Next(appended, PushNotifies(k)) == s.(queue := s.queue + [m], pushed := s.pushed + [m],
                                                     clients := s.clients + [ClientPc.Returned])
  {
    var k := |s.clients|;
    assert (s.clients + [PushWantsOuter(m)])[k := PushHoldsOuter(m)][k := PushOwesNotify][k := ClientPc.Returned]
        == s.clients + [ClientPc.Returned];
  }

  lemma {:induction false} PushInTurn(messages: seq<Message>) returns (steps: seq<Step>)
    ensures Legal(INIT, steps) && Run(INIT, steps) == Pushed(messages)
    decreases |messages|
  {
    if messages == [] {
      steps := [];
      assert Pushed([]) == INIT;
    } else {
      var n := |messages| - 1;
      var before := PushInTurn(messages[..n]);
      hide Legal, Run, Pushed;
      steps := PushOne(messages[..n], messages[n], before);
      assert messages[..n] + [messages[n]] == messages;
    }
  }

  lemma {:induction false} AllAreDelivered(queue: seq<Message>)
    ensures Uninterrupted(queue, false, false, _ => true) == (queue, [], SleepsForMessage)
  {
    if queue != [] {
      AllAreDelivered(queue[1..]);
      assert [queue[0]] + queue[1..] == queue;
    }
  }

  /** Any messages can be pushed and delivered, all of them and in order. */
  lemma {:induction false} AnyMessagesAreDelivered(messages: seq<Message>)
    ensures exists steps :: Legal(INIT, steps)
                            && Run(INIT, steps).pushed == Run(INIT, steps).delivered == messages
                            && Run(INIT, steps).consumer == AsleepForMessage
  {
    var before := PushInTurn(messages);
    var more := LoopIsAnInterleaving(Pushed(messages), _ => true);
    AllAreDelivered(messages);
    hide Legal, Run, Uninterrupted;
    RunsInSequence(INIT, before, more);
    assert [] + messages == messages;
  }

  /** A spurious wake-up makes no difference: after two more steps the consumer sleeps where it slept. */
  lemma {:induction false} SpuriousWakeupsAreHarmless(s: State)
    requires s.outer == Free
    ensures s.consumer == AsleepForMessage && s.queue == [] ==>
              Legal(s, [WakeForMessage, LockForMessage, EvaluateWait])
              && Run(s, [WakeForMessage, LockForMessage, EvaluateWait]) == s
    ensures s.consumer == AsleepInPause && s.pauseFlag ==>
              Legal(s, [WakeInPause, LockForPause, EvaluatePause])
              && Run(s, [WakeInPause, LockForPause, EvaluatePause]) == s
  {
    if s.consumer == AsleepForMessage && s.queue == [] {
      ThreeSteps(s, WakeForMessage, LockForMessage, EvaluateWait);
    }
    if s.consumer == AsleepInPause && s.pauseFlag {
      ThreeSteps(s, WakeInPause, LockForPause, EvaluatePause);
    }
  }

  lemma ThreeSteps(s: State, a: Step, b: Step, c: Step)
    requires Enabled(s, a) && Enabled(Next(s, a), b) && Enabled(Next(Next(s, a), b), c)
    ensures Legal(s, [a, b, c]) && Run(s, [a, b, c]) == Next(Next(Next(s, a), b), c)
  {
    hide Enabled, Next;
    OneStepMore(s, [], a);
    OneStepMore(s, [] + [a], b);
    OneStepMore(s, [] + [a] + [b], c);
    assert [] + [a] + [b] + [c] == [a, b, c];
  }
}
