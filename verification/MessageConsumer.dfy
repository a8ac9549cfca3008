/** A pausable consumer thread over a blocking queue: two mutexes, two condition variables, and the
    pause, resume and stop flags, as a step system with any number of client calls. */
module MessageConsumer {
  import opened BlockingFifo
  import opened Counting

  type Message = nat

  /** The consumer thread in `run`. `HoldingOuter*` are the points at which it holds the consumer's
      mutex; `InsidePop` also holds the queue's. */
  datatype ConsumerPc =
    | CheckingStop
    | WantsMessage
    | EvaluatingWait
    | AsleepForMessage
    | TestingAgain
    | EnteringPop
    | InsidePop
    | BlockedInPop
    | Delivering(message: Message)
    | AfterCallback
    | EvaluatingPause
    | AsleepInPause
    | Exited

  datatype ClientPc =
    | PushWantsOuter(message: Message)
    | PushHoldsOuter(message: Message)
    | PushOwesNotify
    | PublishWantsInner(message: Message)
    | Returned

  datatype Outer = Free | HeldByConsumer | HeldByClient(k: nat)

  /** The queue's own mutex is only ever held inside one step, except by the consumer in `pop`.
      `pushed` and `delivered` are histories. */
  datatype State = State(
    queue: seq<Message>, pauseFlag: bool, stopFlag: bool,
    outer: Outer, consumer: ConsumerPc, clients: seq<ClientPc>,
    pushed: seq<Message>, delivered: seq<Message>)

  datatype Step =
    | CheckStop
    | LockForMessage
    | EvaluateWait
    | WakeForMessage
    | TestAgain
    | EnterPop
    | Pop
    | Deliver(keepGoing: bool)
    | LockForPause
    | EvaluatePause
    | WakeInPause
    | CallPush(message: Message)
    | PushLocks(k: nat)
    | PushAppends(k: nat)
    | PushNotifies(k: nat)
    | CallPublish(message: Message)
    | PublishAppends(k: nat)
    | Pause
    | Resume
    | Stop

  const INIT: State := State([], false, false, Free, CheckingStop, [], [], [])

  /** The queue's mutex is free unless the consumer is inside `pop`. */
  predicate InnerFree(s: State) {
    s.consumer != InsidePop
  }

  predicate Enabled(s: State, step: Step) {
    match step
    case CheckStop => s.consumer == CheckingStop
    case LockForMessage => s.consumer == WantsMessage && s.outer == Free
    case EvaluateWait => s.consumer == EvaluatingWait
    case WakeForMessage => s.consumer == AsleepForMessage
    case TestAgain => s.consumer == TestingAgain
    case EnterPop => s.consumer == EnteringPop
    case Pop => s.consumer == InsidePop
    case Deliver(_) => s.consumer.Delivering?
    case LockForPause => s.consumer == AfterCallback && s.outer == Free
    case EvaluatePause => s.consumer == EvaluatingPause
    case WakeInPause => s.consumer == AsleepInPause
    case CallPush(_) => true
    case PushLocks(k) => k < |s.clients| && s.clients[k].PushWantsOuter? && s.outer == Free
    case PushAppends(k) => k < |s.clients| && s.clients[k].PushHoldsOuter? && InnerFree(s)
    case PushNotifies(k) => k < |s.clients| && s.clients[k] == PushOwesNotify
    case CallPublish(_) => true
    case PublishAppends(k) => k < |s.clients| && s.clients[k].PublishWantsInner? && InnerFree(s)
    case Pause => s.outer == Free
    case Resume => s.outer == Free
    case Stop => s.outer == Free
  }

  function SetClient(s: State, k: nat, pc: ClientPc): State
    requires k < |s.clients|
  {
    s.(clients := s.clients[k := pc])
  }

  /** `notify_one` on the consumer's condition variable: only the consumer ever waits on it. */
  function Notify(s: State): State {
    if s.consumer == AsleepForMessage then s.(consumer := WantsMessage)
    else if s.consumer == AsleepInPause then s.(consumer := AfterCallback)
    else s
  }

  /** `notify_one` on the queue's condition variable. */
  function NotifyQueue(s: State): State {
    if s.consumer == BlockedInPop then s.(consumer := EnteringPop) else s
  }

  function Append(s: State, message: Message): State {
    NotifyQueue(s.(queue := s.queue + [message], pushed := s.pushed + [message]))
  }

  function Next(s: State, step: Step): State
    requires Enabled(s, step)
  {
    match step
    case CheckStop => s.(consumer := if s.stopFlag then Exited else WantsMessage)
    case LockForMessage => s.(consumer := EvaluatingWait, outer := HeldByConsumer)
    case EvaluateWait =>
      if s.queue == [] then s.(consumer := AsleepForMessage, outer := Free) else s.(consumer := TestingAgain)
    case WakeForMessage => s.(consumer := WantsMessage)
    case TestAgain =>
      if s.queue == [] then s.(consumer := AfterCallback, outer := Free) else s.(consumer := EnteringPop)
    case EnterPop => s.(consumer := InsidePop)
    case Pop =>
      match PopSection(s.queue) {
        case (Blocks, _) => s.(consumer := BlockedInPop)
        case (Popped(m), rest) => s.(consumer := Delivering(m), queue := rest, outer := Free)
      }
    case Deliver(keepGoing) =>
      s.(consumer := if keepGoing then AfterCallback else Exited, delivered := s.delivered + [s.consumer.message])
    case LockForPause => s.(consumer := EvaluatingPause, outer := HeldByConsumer)
    case EvaluatePause => s.(consumer := if s.pauseFlag then AsleepInPause else CheckingStop, outer := Free)
    case WakeInPause => s.(consumer := AfterCallback)
    case CallPush(m) => s.(clients := s.clients + [PushWantsOuter(m)])
    case PushLocks(k) => SetClient(s, k, PushHoldsOuter(s.clients[k].message)).(outer := HeldByClient(k))
    case PushAppends(k) => Append(SetClient(s, k, PushOwesNotify), s.clients[k].message).(outer := Free)
    case PushNotifies(k) => Notify(SetClient(s, k, Returned))
    case CallPublish(m) => s.(clients := s.clients + [PublishWantsInner(m)])
    case PublishAppends(k) => Append(SetClient(s, k, Returned), s.clients[k].message)
    case Pause => Notify(s.(pauseFlag := true))
    case Resume => Notify(s.(pauseFlag := false))
    case Stop => Notify(s.(stopFlag := true))
  }

  predicate Legal(s: State, steps: seq<Step>)
    decreases steps
  {
    steps == [] || (Enabled(s, steps[0]) && Legal(Next(s, steps[0]), steps[1..]))
  }

  function Run(s: State, steps: seq<Step>): State
    requires Legal(s, steps)
    decreases steps
  {
    if steps == [] then s else Run(Next(s, steps[0]), steps[1..])
  }

  // ---------------------------------------------------------------- invariants

  function InFlight(pc: ConsumerPc): seq<Message> {
    if pc.Delivering? then [pc.message] else []
  }

  predicate ConsumerHoldsOuter(pc: ConsumerPc) {
    || pc == EvaluatingWait || pc == TestingAgain || pc == EnteringPop || pc == InsidePop
    || pc == BlockedInPop || pc == EvaluatingPause
  }

  /** The messages pushed are those delivered, in flight and queued, in order. */
  predicate OrderInv(s: State) {
    s.pushed == s.delivered + InFlight(s.consumer) + s.queue
  }

  /** Who owns the outer mutex, and the fact that keeps the nested wait harmless: past the first
      test the queue cannot become empty, since nobody else pops. */
  predicate LockInv(s: State) {
    && (ConsumerHoldsOuter(s.consumer) <==> s.outer == HeldByConsumer)
    && (forall k :: 0 <= k < |s.clients| ==> (s.clients[k].PushHoldsOuter? <==> s.outer == HeldByClient(k)))
    && (s.outer.HeldByClient? ==> s.outer.k < |s.clients|)
    && (s.consumer == TestingAgain || s.consumer == EnteringPop || s.consumer == InsidePop ==> s.queue != [])
    && s.consumer != BlockedInPop
  }

  predicate Inv(s: State) {
    OrderInv(s) && LockInv(s)
  }

  predicate IsConsumerStep(step: Step) {
    || step.CheckStop? || step.LockForMessage? || step.EvaluateWait? || step.WakeForMessage? || step.TestAgain?
    || step.EnterPop? || step.Pop? || step.Deliver? || step.LockForPause? || step.EvaluatePause? || step.WakeInPause?
  }

  lemma AppendKeepsOrder(s: State, message: Message)
    requires OrderInv(s) && s.consumer != BlockedInPop
    ensures Append(s, message) == s.(queue := s.queue + [message], pushed := s.pushed + [message])
    ensures OrderInv(Append(s, message))
  {
    assert s.delivered + InFlight(s.consumer) + s.queue + [message]
        == s.delivered + InFlight(s.consumer) + (s.queue + [message]);
  }

  lemma OrderStep(s: State, step: Step)
    requires Inv(s) && Enabled(s, step)
    ensures OrderInv(Next(s, step))
  {
    match step
    case Pop =>
      assert s.queue == [s.queue[0]] + s.queue[1..];
      assert s.delivered + [] + s.queue == s.delivered + [s.queue[0]] + s.queue[1..];
    case Deliver(_) =>
      assert s.delivered + InFlight(s.consumer) + s.queue == (s.delivered + InFlight(s.consumer)) + [] + s.queue;
    case PushAppends(k) => AppendKeepsOrder(SetClient(s, k, PushOwesNotify), s.clients[k].message);
    case PublishAppends(k) => AppendKeepsOrder(SetClient(s, k, Returned), s.clients[k].message);
    case _ => assert InFlight(Next(s, step).consumer) == InFlight(s.consumer);
  }

  lemma LockConsumerStep(s: State, step: Step)
    requires LockInv(s) && Enabled(s, step) && IsConsumerStep(step)
    ensures LockInv(Next(s, step))
  {
  }

  lemma LockClientStep(s: State, step: Step)
    requires LockInv(s) && Enabled(s, step) && !IsConsumerStep(step)
    ensures LockInv(Next(s, step))
  {
  }

  lemma InvStep(s: State, step: Step)
    requires Inv(s) && Enabled(s, step)
    ensures Inv(Next(s, step))
  {
    OrderStep(s, step);
    if IsConsumerStep(step) {
      LockConsumerStep(s, step);
    } else {
      LockClientStep(s, step);
    }
  }

  lemma {:induction false} RunKeepsInv(s: State, steps: seq<Step>)
    requires Inv(s) && Legal(s, steps)
    ensures Inv(Run(s, steps))
    decreases steps
  {
    if steps != [] {
      InvStep(s, steps[0]);
      hide Inv, Next;
      RunKeepsInv(Next(s, steps[0]), steps[1..]);
    }
  }

  /** In every interleaving, the pushed messages are the delivered ones, then at most one in flight,
      then the queue, in order; and `pop`, reached while the outer mutex is held, never blocks. */
  lemma {:induction false} DeliveredInOrderWithoutBlocking(steps: seq<Step>)
    requires Legal(INIT, steps)
    ensures var s := Run(INIT, steps);
            && s.pushed == s.delivered + InFlight(s.consumer) + s.queue
            && s.consumer != BlockedInPop
            && (s.consumer == InsidePop ==> s.queue != [])
  {
    RunKeepsInv(INIT, steps);
  }

  // ---------------------------------------------------------------- pause and stop

  predicate IsPop(step: Step) { step == Pop }

  predicate BeforePop(pc: ConsumerPc) {
    || pc == WantsMessage || pc == EvaluatingWait || pc == AsleepForMessage || pc == TestingAgain
    || pc == EnteringPop || pc == InsidePop || pc == BlockedInPop
  }

  /** How many messages the consumer can still take before it meets the pause loop. */
  function PauseBudget(pc: ConsumerPc): nat {
    if BeforePop(pc) || pc == CheckingStop then 1 else 0
  }

  /** How many messages it can still take before it reads the stop flag. */
  function StopBudget(pc: ConsumerPc): nat {
    if BeforePop(pc) then 1 else 0
  }

  predicate NoResume(steps: seq<Step>) {
    forall i :: 0 <= i < |steps| ==> steps[i] != Resume
  }

  lemma PauseBudgetStep(s: State, step: Step)
    requires Enabled(s, step) && s.pauseFlag && step != Resume
    ensures Next(s, step).pauseFlag
    ensures PauseBudget(Next(s, step).consumer) + (if IsPop(step) && s.queue != [] then 1 else 0)
         <= PauseBudget(s.consumer)
  {
  }

  lemma {:induction false} PauseBounds(s: State, steps: seq<Step>)
    requires Inv(s) && s.pauseFlag && Legal(s, steps) && NoResume(steps)
    ensures Count(steps, IsPop) <= PauseBudget(s.consumer)
    decreases steps
  {
    if steps != [] {
      InvStep(s, steps[0]);
      PauseBudgetStep(s, steps[0]);
      assert forall i :: 0 <= i < |steps| - 1 ==> steps[1..][i] == steps[i + 1];
      PauseBounds(Next(s, steps[0]), steps[1..]);
    }
  }

  /** From a pause until the next resume at most one message is taken from the queue. */
  lemma AtMostOnePopWhilePaused(before: seq<Step>, paused: seq<Step>)
    requires Legal(INIT, before) && Run(INIT, before).pauseFlag
    requires Legal(Run(INIT, before), paused) && NoResume(paused)
    ensures Count(paused, IsPop) <= 1
  {
    RunKeepsInv(INIT, before);
    PauseBounds(Run(INIT, before), paused);
  }

  lemma StopBudgetStep(s: State, step: Step)
    requires Enabled(s, step) && s.stopFlag
    ensures Next(s, step).stopFlag
    ensures StopBudget(Next(s, step).consumer) + (if IsPop(step) && s.queue != [] then 1 else 0)
         <= StopBudget(s.consumer)
  {
  }

  lemma {:induction false} StopBounds(s: State, steps: seq<Step>)
    requires Inv(s) && s.stopFlag && Legal(s, steps)
    ensures Count(steps, IsPop) <= StopBudget(s.consumer)
    decreases steps
  {
    if steps != [] {
      InvStep(s, steps[0]);
      StopBudgetStep(s, steps[0]);
      StopBounds(Next(s, steps[0]), steps[1..]);
    }
  }

  /** After `stop` at most one more message is taken, whatever the clients do. */
  lemma {:induction false} AtMostOnePopAfterStop(before: seq<Step>, after: seq<Step>)
    requires Legal(INIT, before) && Run(INIT, before).stopFlag
    requires Legal(Run(INIT, before), after)
    ensures Count(after, IsPop) <= 1
  {
    RunKeepsInv(INIT, before);
    StopBounds(Run(INIT, before), after);
  }

  /** Once the thread has left its loop, by the flag or because the callback refused, it takes and
      delivers nothing any more. */
  lemma {:induction false} ExitIsFinal(s: State, steps: seq<Step>)
    requires s.consumer == Exited && Legal(s, steps)
    ensures Run(s, steps).consumer == Exited && Run(s, steps).delivered == s.delivered
    ensures Count(steps, IsPop) == 0
    decreases steps
  {
    if steps != [] {
      ExitIsFinal(Next(s, steps[0]), steps[1..]);
    }
  }

  /** A callback that returns false ends the consumer: nothing is taken after it. */
  lemma {:induction false} NothingAfterRefusal(before: seq<Step>, after: seq<Step>)
    requires Legal(INIT, before) && Enabled(Run(INIT, before), Deliver(false))
    requires Legal(Next(Run(INIT, before), Deliver(false)), after)
    ensures Count(after, IsPop) == 0
    ensures Run(Next(Run(INIT, before), Deliver(false)), after).delivered
         == Run(INIT, before).delivered + [Run(INIT, before).consumer.message]
  {
    ExitIsFinal(Next(Run(INIT, before), Deliver(false)), after);
  }

  // ---------------------------------------------------------------- wake-ups

  predicate OwesNotify(pc: ClientPc) { pc == PushOwesNotify }

  /** While the consumer sleeps for a message, one is queued only if its pusher is about to notify. */
  predicate Attended(s: State) {
    s.consumer == AsleepForMessage && s.queue != [] ==>
      exists k :: 0 <= k < |s.clients| && s.clients[k] == PushOwesNotify
  }

  predicate NoPublish(steps: seq<Step>) {
    forall i :: 0 <= i < |steps| ==> !steps[i].CallPublish?
  }

  predicate NobodyPublishes(s: State) {
    forall k :: 0 <= k < |s.clients| ==> !s.clients[k].PublishWantsInner?
  }

  lemma AttendedStep(s: State, step: Step)
    requires Attended(s) && NobodyPublishes(s) && Enabled(s, step) && !step.CallPublish?
    ensures Attended(Next(s, step)) && NobodyPublishes(Next(s, step))
  {
    var t := Next(s, step);
    if s.consumer == AsleepForMessage && s.queue != [] {
      var k :| 0 <= k < |s.clients| && s.clients[k] == PushOwesNotify;
      assert k < |t.clients| && (t.clients[k] == PushOwesNotify || step == PushNotifies(k));
    } else if step.PushAppends? {
      assert t.clients[step.k] == PushOwesNotify;
    }
  }

  lemma {:induction false} AttendedRun(s: State, steps: seq<Step>)
    requires Attended(s) && NobodyPublishes(s) && Legal(s, steps) && NoPublish(steps)
    ensures Attended(Run(s, steps))
    decreases steps
  {
    if steps != [] {
      AttendedStep(s, steps[0]);
      assert forall i :: 0 <= i < |steps| - 1 ==> steps[1..][i] == steps[i + 1];
      AttendedRun(Next(s, steps[0]), steps[1..]);
    }
  }

  /** No wake-up is lost as long as every message comes through the consumer's own `push`. */
  lemma {:induction false} NoWakeupIsLostThroughPush(steps: seq<Step>)
    requires Legal(INIT, steps) && NoPublish(steps)
    ensures Attended(Run(INIT, steps))
  {
    AttendedRun(INIT, steps);
  }

  /** A message published straight to the queue can be missed: the consumer sleeps beside a
      non-empty queue, and no client has anything left to do. */
  lemma {:induction false} PublishedMessageCanBeMissed(m: Message)
    ensures var steps := [CheckStop, LockForMessage, EvaluateWait, CallPublish(m), PublishAppends(0)];
            && Legal(INIT, steps)
            && var s := Run(INIT, steps);
            && s.queue == [m] && s.consumer == AsleepForMessage && !s.stopFlag && s.outer == Free
            && s.clients == [Returned]
  {
    var s1 := Next(INIT, CheckStop);
    var s2 := Next(s1, LockForMessage);
    var s3 := Next(s2, EvaluateWait);
    var s4 := Next(s3, CallPublish(m));
    var s5 := Next(s4, PublishAppends(0));
    assert s5.queue == [m] && s5.clients == [Returned];
    RunOfFive(CheckStop, LockForMessage, EvaluateWait, CallPublish(m), PublishAppends(0));
  }

  lemma RunOfFive(a: Step, b: Step, c: Step, d: Step, e: Step)
    requires Enabled(INIT, a) && Enabled(Next(INIT, a), b) && Enabled(Next(Next(INIT, a), b), c)
    requires Enabled(Next(Next(Next(INIT, a), b), c), d) && Enabled(Next(Next(Next(Next(INIT, a), b), c), d), e)
    ensures Legal(INIT, [a, b, c, d, e])
    ensures Run(INIT, [a, b, c, d, e]) == Next(Next(Next(Next(Next(INIT, a), b), c), d), e)
  {
    hide Enabled, Next;
    assert [a, b, c, d, e][1..] == [b, c, d, e] && [b, c, d, e][1..] == [c, d, e];
    assert [c, d, e][1..] == [d, e] && [d, e][1..] == [e] && [e][1..] == [];
    var s1 := Next(INIT, a);
    var s2 := Next(s1, b);
    var s3 := Next(s2, c);
    var s4 := Next(s3, d);
    assert Legal(Next(s4, e), []) && Legal(s4, [e]) && Legal(s3, [d, e]);
    assert Legal(s2, [c, d, e]) && Legal(s1, [b, c, d, e]);
    assert Run(s4, [e]) == Next(s4, e) && Run(s3, [d, e]) == Next(s4, e) && Run(s2, [c, d, e]) == Next(s4, e);
  }

  predicate IsPublish(step: Step) { step.CallPublish? }

  ghost predicate AlwaysAttended(k: nat) {
    forall steps :: Legal(INIT, steps) && Count(steps, IsPublish) <= k ==> Attended(Run(INIT, steps))
  }

  /** So the consumer can be relied on exactly when nobody pushes to its queue directly. */
  lemma {:induction false} WakeupsAreSafeIff(k: nat)
    ensures AlwaysAttended(k) <==> k == 0
  {
    if k == 0 {
      forall steps | Legal(INIT, steps) && Count(steps, IsPublish) <= 0 ensures Attended(Run(INIT, steps)) {
        CountNone(steps, IsPublish);
        assert forall i :: 0 <= i < |steps| ==> !IsPublish(steps[i]);
        NoWakeupIsLostThroughPush(steps);
      }
    } else {
      var steps := [CheckStop, LockForMessage, EvaluateWait, CallPublish(0), PublishAppends(0)];
      PublishedMessageCanBeMissed(0);
      OnePublish();
      assert !Attended(Run(INIT, steps));
    }
  }

  lemma OnePublish()
    ensures Count([CheckStop, LockForMessage, EvaluateWait, CallPublish(0), PublishAppends(0)], IsPublish) == 1
  {
    assert [CheckStop, LockForMessage, EvaluateWait, CallPublish(0), PublishAppends(0)]
        == [CheckStop, LockForMessage, EvaluateWait] + [CallPublish(0)] + [PublishAppends(0)];
    CountNone([CheckStop, LockForMessage, EvaluateWait], IsPublish);
    CountAppend([CheckStop, LockForMessage, EvaluateWait], CallPublish(0), IsPublish);
    CountAppend([CheckStop, LockForMessage, EvaluateWait] + [CallPublish(0)], PublishAppends(0), IsPublish);
  }

  // ---------------------------------------------------------------- the loop on its own

  /** How a stretch of the loop without interference ends. */
  datatype Rest = LeftLoop | SleepsForMessage | SleepsInPause

  /** What the loop delivers and leaves in the queue when nobody else touches the queue or the flags. */
  function Uninterrupted(queue: seq<Message>, pause: bool, stop: bool, callback: Message -> bool)
    : (seq<Message>, seq<Message>, Rest)
  {
    if stop then ([], queue, LeftLoop)
    else
      match PopSection(queue)
      case (Blocks, _) => ([], queue, SleepsForMessage)
      case (Popped(m), rest) =>
        if !callback(m) then ([m], rest, LeftLoop)
        else if pause then ([m], rest, SleepsInPause)
        else
          var (delivered, left, end) := Uninterrupted(rest, pause, stop, callback);
          ([m] + delivered, left, end)
  }

  /** The loop delivers a prefix of the queue: everything, unless it is stopped, refused or paused. */
  lemma {:induction false} UninterruptedDelivers(queue: seq<Message>, pause: bool, stop: bool,
                                                 callback: Message -> bool)
    ensures var (delivered, left, end) := Uninterrupted(queue, pause, stop, callback);
            && queue == delivered + left
            && (forall i :: 0 <= i < |delivered| - 1 ==> callback(delivered[i]))
            && (stop <==> delivered == [] && end == LeftLoop)
            && (end == SleepsForMessage ==>
                  left == [] && (delivered != [] ==> !pause && callback(delivered[|delivered| - 1])))
            && (end == LeftLoop && !stop ==> !callback(delivered[|delivered| - 1]))
            && (pause ==> |delivered| <= 1)
  {
    if !stop && queue != [] && callback(queue[0]) && !pause {
      UninterruptedDelivers(queue[1..], pause, stop, callback);
      assert queue == [queue[0]] + queue[1..];
    }
  }

  /** `notified` counts the calls of `notify_one` on the consumer's own condition variable. */
  class MessageConsumer {
    const queue: MessageQueue<Message>
    var pauseFlag: bool
    var stopFlag: bool
    ghost var notified: nat

    constructor (queue: MessageQueue<Message>)
      ensures this.queue == queue && !pauseFlag && !stopFlag && notified == 0
    {
      this.queue, pauseFlag, stopFlag, notified := queue, false, false, 0;
    }

    method Pause()
      modifies this
      ensures pauseFlag && stopFlag == old(stopFlag) && notified == old(notified) + 1
    {
      pauseFlag := true;
      notified := notified + 1;
    }

    method Resume()
      modifies this
      ensures !pauseFlag && stopFlag == old(stopFlag) && notified == old(notified) + 1
    {
      pauseFlag := false;
      notified := notified + 1;
    }

    method Stop()
      modifies this
      ensures stopFlag && pauseFlag == old(pauseFlag) && notified == old(notified) + 1
    {
      stopFlag := true;
      notified := notified + 1;
    }

    method Push(message: Message)
      modifies this`notified, queue
      ensures queue.queue == old(queue.queue) + [message]
      ensures notified == old(notified) + 1 && queue.notified == old(queue.notified) + 1
    {
      queue.Push(message);
      notified := notified + 1;
    }

    /** `run`, up to the point where it leaves its loop or would wait. */
    method RunUntilItWaits(callback: Message -> bool) returns (delivered: seq<Message>, end: Rest)
      modifies queue`queue
      ensures (delivered, queue.queue, end) == old(Uninterrupted(queue.queue, pauseFlag, stopFlag, callback))
    {
      delivered := [];
      ghost var all := Uninterrupted(queue.queue, pauseFlag, stopFlag, callback);
      assert [] + all.0 == all.0;
      while !stopFlag
        invariant pauseFlag == old(pauseFlag) && stopFlag == old(stopFlag)
        invariant var (more, left, last) := Uninterrupted(queue.queue, pauseFlag, stopFlag, callback);
                  (delivered + more, left, last) == all
        decreases |queue.queue|
      {
        assert delivered + [] == delivered;
        var empty := queue.Empty();
        if empty {
          return delivered, SleepsForMessage;
        }
        var popped := queue.Pop();
        Associative(delivered, [popped.value], Uninterrupted(queue.queue, pauseFlag, stopFlag, callback).0);
        delivered := delivered + [popped.value];
        if !callback(popped.value) {
          return delivered, LeftLoop;
        }
        if pauseFlag {
          return delivered, SleepsInPause;
        }
      }
      return delivered, LeftLoop;
    }
  }

  lemma {:induction false} OneStepMore(s: State, steps: seq<Step>, step: Step)
    requires Legal(s, steps) && Enabled(Run(s, steps), step)
    ensures Legal(s, steps + [step]) && Run(s, steps + [step]) == Next(Run(s, steps), step)
    decreases steps
  {
    hide Enabled, Next;
    if steps == [] {
      assert [step][1..] == [] && Legal(Next(s, step), []);
    } else {
      OneStepMore(Next(s, steps[0]), steps[1..], step);
      assert (steps + [step])[1..] == steps[1..] + [step];
    }
  }

  lemma {:induction false} RunsInSequence(s: State, a: seq<Step>, b: seq<Step>)
    requires Legal(s, a) && Legal(Run(s, a), b)
    ensures Legal(s, a + b) && Run(s, a + b) == Run(Run(s, a), b)
    decreases a
  {
    hide Enabled, Next;
    if a == [] {
      assert a + b == b;
    } else {
      RunsInSequence(Next(s, a[0]), a[1..], b);
      assert (a + b)[1..] == a[1..] + b;
    }
  }

  lemma TwoStepsMore(s: State, steps: seq<Step>, a: Step, b: Step) returns (r: seq<Step>)
    requires Legal(s, steps) && Enabled(Run(s, steps), a) && Enabled(Next(Run(s, steps), a), b)
    ensures Legal(s, r) && Run(s, r) == Next(Next(Run(s, steps), a), b)
  {
    hide Enabled, Next;
    OneStepMore(s, steps, a);
    OneStepMore(s, steps + [a], b);
    r := steps + [a] + [b];
  }

  lemma UpToTheWait(s: State) returns (steps: seq<Step>)
    requires s.consumer == CheckingStop && s.outer == Free && !s.stopFlag
    ensures Legal(s, steps)
    ensures Run(s, steps) == if s.queue == [] then s.(consumer := AsleepForMessage)
                             else s.(consumer := TestingAgain, outer := HeldByConsumer)
  {
    steps := TwoStepsMore(s, [], CheckStop, LockForMessage);
    OneStepMore(s, steps, EvaluateWait);
    steps := steps + [EvaluateWait];
  }

  lemma UpToTheCallback(s: State) returns (steps: seq<Step>)
    requires s.consumer == CheckingStop && s.outer == Free && !s.stopFlag && s.queue != []
    ensures Legal(s, steps) && Run(s, steps) == s.(consumer := Delivering(s.queue[0]), queue := s.queue[1..])
  {
    steps := UpToTheWait(s);
    steps := TwoStepsMore(s, steps, TestAgain, EnterPop);
    OneStepMore(s, steps, Pop);
    steps := steps + [Pop];
  }

  function PcAt(end: Rest): ConsumerPc {
    match end
    case LeftLoop => Exited
    case SleepsForMessage => AsleepForMessage
    case SleepsInPause => AsleepInPause
  }

  /** The sequential loop is one of the interleavings of the step system. */
  lemma {:induction false} LoopIsAnInterleaving(s: State, callback: Message -> bool) returns (steps: seq<Step>)
    requires s.consumer == CheckingStop && s.outer == Free
    ensures var (delivered, left, end) := Uninterrupted(s.queue, s.pauseFlag, s.stopFlag, callback);
            Legal(s, steps)
            && Run(s, steps) == s.(queue := left, consumer := PcAt(end), delivered := s.delivered + delivered)
    decreases |s.queue|
  {
    if s.stopFlag {
      OneStepMore(s, [], CheckStop);
      assert s.delivered + [] == s.delivered;
      steps := [] + [CheckStop];
    } else if s.queue == [] {
      assert s.delivered + [] == s.delivered;
      steps := UpToTheWait(s);
    } else {
      var m := s.queue[0];
      steps := UpToTheCallback(s);
      OneStepMore(s, steps, Deliver(callback(m)));
      steps := steps + [Deliver(callback(m))];
      if callback(m) {
        steps := TwoStepsMore(s, steps, LockForPause, EvaluatePause);
        if !s.pauseFlag {
          var more := LoopIsAnInterleaving(Run(s, steps), callback);
          RunsInSequence(s, steps, more);
          Associative(s.delivered, [m], Uninterrupted(s.queue[1..], s.pauseFlag, s.stopFlag, callback).0);
          steps := steps + more;
        }
      }
    }
  }

  lemma Associative(x: seq<Message>, y: seq<Message>, z: seq<Message>)
    ensures x + (y + z) == x + y + z
  {
  }
}
