/** The accept loop goes on: every round comes back to its head, every run comes to rest, and what is
    left at rest are the connections whose launch failed. */
module HttpServiceLoop {
  import opened BlockingFifo
  import opened Counting
  import opened HttpService

  // ---------------------------------------------------------------- rounds of the loop

  /** How many steps the accept thread is away from the head of its loop. */
  function ToHead(pc: AcceptorPc): nat {
    match pc
    case Cleaning => 1
    case Leaving(_) => 2
    case Pooled(_) => 3
    case Built(_) => 4
    case _ => 0
  }

  predicate OfAcceptor(step: Step) { IsAcceptorStep(step) }

  predicate IsAccept(step: Step) { step.Accept? }

  predicate IsFailedAccept(step: Step) { step.AcceptFails? }

  predicate StaysInLoop(steps: seq<Step>) {
    forall i :: 0 <= i < |steps| ==> steps[i] != LeaveLoop
  }

  lemma LoopStep(s: State, step: Step)
    requires Enabled(s, step) && !Leaves(s.acceptor) && step != LeaveLoop
    ensures var t := Next(s, step);
            && !Leaves(t.acceptor)
            && ToHead(t.acceptor) + (if OfAcceptor(step) then 1 else 0)
               == ToHead(s.acceptor) + (if IsAccept(step) then 5 else 0) + (if IsFailedAccept(step) then 2 else 0)
  {
    hide Collect, Unready;
    match step
    case LeaveTry => CollectKeepsTheRest(s.(acceptor := Cleaning), s.acceptor.c);
    case HandleAndClose(h) => CloseKeepsTheRest(SetHandler(s, h, Handled(s.handlers[h].c)), s.handlers[h].c);
    case Release(h) => CollectKeepsTheRest(SetHandler(s, h, Finished), s.handlers[h].c);
    case _ =>
  }

  /** As long as `run` does not leave its loop, a round takes five steps of the accept thread for a client
      and two for an accept that failed, and ends at the head of the loop. */
  lemma {:induction false} RoundsComeBack(s: State, steps: seq<Step>)
    requires !Leaves(s.acceptor) && Legal(s, steps) && StaysInLoop(steps)
    ensures !Leaves(Run(s, steps).acceptor)
    ensures Count(steps, OfAcceptor) + ToHead(Run(s, steps).acceptor)
         == ToHead(s.acceptor) + 5 * Count(steps, IsAccept) + 2 * Count(steps, IsFailedAccept)
    decreases steps
  {
    if steps != [] {
      assert steps[0] != LeaveLoop;
      LoopStep(s, steps[0]);
      assert forall i :: 0 <= i < |steps| - 1 ==> steps[1..][i] == steps[i + 1];
      hide Enabled, Next, Leaves, ToHead, IsAccept, IsFailedAccept, OfAcceptor;
      RoundsComeBack(Next(s, steps[0]), steps[1..]);
    }
  }

  /** And until it is there, the accept thread can move, whatever the handlers do. */
  lemma {:induction false} RoundProgresses(s: State)
    requires FifoInv(s) && !Leaves(s.acceptor) && s.acceptor != Accepting
    ensures exists step :: Enabled(s, step) && OfAcceptor(step) && ToHead(Next(s, step).acceptor) < ToHead(s.acceptor)
  {
    var step := match s.acceptor {
      case Built(_) => AddToPool
      case Pooled(_) => LaunchSucceeds
      case Leaving(_) => LeaveTry
      case _ => CleanUp
    };
    assert Enabled(s, step);
    LoopStep(s, step);
  }

  /** So in every run that stays in the loop, the accept thread is in it and takes at most four steps to
      its head, with one of them always possible; and there it can take any client. */
  lemma {:induction false} AcceptorComesBack(steps: seq<Step>, more: seq<Step>)
    requires Legal(INIT, steps) && StaysInLoop(steps)
    requires Legal(Run(INIT, steps), more) && StaysInLoop(more)
    requires Count(more, IsAccept) == 0 && Count(more, IsFailedAccept) == 0
    ensures var t := Run(Run(INIT, steps), more);
            && !Leaves(t.acceptor) && Count(more, OfAcceptor) + ToHead(t.acceptor) <= 4
            && (t.acceptor != Accepting ==> exists step :: Enabled(t, step) && OfAcceptor(step))
            && (t.acceptor == Accepting ==> forall fd: nat :: fd !in t.kernel ==> Enabled(t, Accept(fd)))
  {
    RoundsComeBack(INIT, steps);
    RoundsComeBack(Run(INIT, steps), more);
    ReachableInv(steps);
    RunKeepsInv(Run(INIT, steps), more);
    var t := Run(Run(INIT, steps), more);
    forall fd: nat | t.acceptor == Accepting && fd !in t.kernel ensures Enabled(t, Accept(fd)) {
    }
    hide Run, Legal, Enabled, Next, OwnerInv, SupplyInv, FutureInv, CloseInv, KernelInv;
    if t.acceptor != Accepting {
      RoundProgresses(t);
    }
  }

  // ---------------------------------------------------------------- any number of clients

  /** All the clients with these descriptors have been served, and the thread is at the head of the loop. */
  function Served(fds: seq<nat>): State {
    State(seq(|fds|, i requires 0 <= i < |fds| => Conn(fds[i], false, 1)), {}, [], Upto(|fds|), [], Accepting,
          seq(|fds|, _ => Finished), [], 0)
  }

  lemma Prepend(s: State, step: Step, more: seq<Step>)
    requires Enabled(s, step) && Legal(Next(s, step), more)
    ensures Legal(s, [step] + more) && Run(s, [step] + more) == Run(Next(s, step), more)
  {
    assert ([step] + more)[1..] == more;
  }

  lemma {:induction false} OneStepMore(s: State, steps: seq<Step>, step: Step)
    requires Legal(s, steps) && Enabled(Run(s, steps), step)
    ensures Legal(s, steps + [step]) && Run(s, steps + [step]) == Next(Run(s, steps), step)
    decreases steps
  {
    hide Enabled, Next;
    if steps == [] {
      assert [step][1..] == [] && Legal(Next(s, step), []);
    } else {
      OneStepMore(Next(s, steps[0]), steps[1..], step);
      assert (steps + [step])[1..] == steps[1..] + [step];
    }
  }

  /** Accepted, pooled and launched. */
  function Taken(fds: seq<nat>, fd: nat): State {
    var s, n := Served(fds), |fds|;
    s.(conns := s.conns + [Conn(fd, true, 0)], kernel := {fd}, pool := [n], handlers := s.handlers + [Launched],
       futures := [n], acceptor := Leaving(n))
  }

  lemma TakeClient(fds: seq<nat>, fd: nat)
    ensures Enabled(Served(fds), Accept(fd))
    ensures var s := Next(Served(fds), Accept(fd));
            Enabled(s, AddToPool) && Enabled(Next(s, AddToPool), LaunchSucceeds)
            && Next(Next(s, AddToPool), LaunchSucceeds) == Taken(fds, fd)
  {
  }

  /** Fetched, while the accept thread cleans up. */
  function Fetched(fds: seq<nat>, fd: nat): State {
    var s, n := Served(fds), |fds|;
    s.(conns := s.conns + [Conn(fd, true, 0)], kernel := {fd}, fetched := s.fetched + [n],
       handlers := s.handlers + [Holding(n)], futures := [n], acceptor := Cleaning)
  }

  lemma FetchClient(fds: seq<nat>, fd: nat)
    ensures var s, n := Taken(fds, fd), |fds|;
            Enabled(s, LeaveTry) && Enabled(Next(s, LeaveTry), Fetch(n))
            && Next(Next(s, LeaveTry), Fetch(n)) == Fetched(fds, fd)
  {
    var s, n := Taken(fds, fd), |fds|;
    assert n in s.pool;
    assert Next(s, LeaveTry) == s.(acceptor := Cleaning);
    assert s.handlers[n := Holding(n)] == Served(fds).handlers + [Holding(n)];
  }

  function Closed(fds: seq<nat>, fd: nat, pc: HandlerPc): State {
    var s, n := Served(fds), |fds|;
    s.(conns := s.conns + [Conn(fd, false, 1)], fetched := s.fetched + [n], handlers := s.handlers + [pc],
       futures := [n], acceptor := Cleaning)
  }

  lemma CloseClient(fds: seq<nat>, fd: nat)
    ensures var s, n := Fetched(fds, fd), |fds|;
            Enabled(s, HandleAndClose(n)) && Next(s, HandleAndClose(n)) == Closed(fds, fd, Handled(n))
            && Enabled(Next(s, HandleAndClose(n)), Release(n))
            && Next(Next(s, HandleAndClose(n)), Release(n)) == Closed(fds, fd, Finished)
  {
    var s, n := Fetched(fds, fd), |fds|;
    assert s.handlers[n := Handled(n)] == Served(fds).handlers + [Handled(n)];
    assert s.conns[n := Conn(fd, false, 1)] == Served(fds).conns + [Conn(fd, false, 1)];
    assert {fd} - {fd} == {};
    var t := Closed(fds, fd, Handled(n));
    assert t.handlers[n := Finished] == Served(fds).handlers + [Finished];
  }

  lemma ForgetHandler(fds: seq<nat>, fd: nat)
    ensures var s := Closed(fds, fd, Finished);
            Enabled(s, CleanUp) && Next(s, CleanUp) == Served(fds + [fd])
  {
    var s, n := Closed(fds, fd, Finished), |fds|;
    assert [n][1..] == [];
    assert Unready([n], s.handlers) == [];
    UptoNext(n);
    assert s.conns == Served(fds + [fd]).conns && s.handlers == Served(fds + [fd]).handlers;
  }

  lemma ServeOneMore(steps: seq<Step>, fds: seq<nat>, fd: nat) returns (r: seq<Step>)
    requires Legal(INIT, steps) && Run(INIT, steps) == Served(fds)
    ensures Legal(INIT, r) && Run(INIT, r) == Served(fds + [fd])
  {
    TakeClient(fds, fd);
    FetchClient(fds, fd);
    CloseClient(fds, fd);
    ForgetHandler(fds, fd);
    hide Legal, Run, Enabled, Next, Served, Taken, Fetched, Closed;
    var n := |fds|;
    OneStepMore(INIT, steps, Accept(fd));
    r := steps + [Accept(fd)];
    OneStepMore(INIT, r, AddToPool);
    r := r + [AddToPool];
    OneStepMore(INIT, r, LaunchSucceeds);
    r := r + [LaunchSucceeds];
    OneStepMore(INIT, r, LeaveTry);
    r := r + [LeaveTry];
    OneStepMore(INIT, r, Fetch(n));
    r := r + [Fetch(n)];
    OneStepMore(INIT, r, HandleAndClose(n));
    r := r + [HandleAndClose(n)];
    OneStepMore(INIT, r, Release(n));
    r := r + [Release(n)];
    OneStepMore(INIT, r, CleanUp);
    r := r + [CleanUp];
  }

  lemma {:induction false} ServeInTurn(fds: seq<nat>) returns (steps: seq<Step>)
    ensures Legal(INIT, steps) && Run(INIT, steps) == Served(fds)
    decreases |fds|
  {
    if fds == [] {
      steps := [];
      assert Served([]) == INIT;
    } else {
      var n := |fds| - 1;
      var before := ServeInTurn(fds[..n]);
      hide Legal, Run, Served;
      steps := ServeOneMore(before, fds[..n], fds[n]);
      assert fds[..n] + [fds[n]] == fds;
    }
  }

  /** Whatever descriptors the kernel hands out, some run accepts, serves and closes all these clients and
      is back at the head of its loop. */
  lemma {:induction false} AnyNumberOfClientsIsServed(fds: seq<nat>)
    ensures exists steps :: Legal(INIT, steps) && Run(INIT, steps) == Served(fds)
  {
    var steps := ServeInTurn(fds);
  }

  // ---------------------------------------------------------------- the way out is open

  function LoopRank(pc: AcceptorPc): nat {
    if Leaves(pc) then 0 else 1 + ToHead(pc)
  }

  function ToReturn(s: State): nat {
    if Leaves(s.acceptor) then Remaining(s) else 0
  }

  lemma TowardsReturn(s: State) returns (step: Step)
    requires Inv(s) && s.acceptor != Returned
    ensures Enabled(s, step)
    ensures var t := Next(s, step);
            LoopRank(t.acceptor) < LoopRank(s.acceptor)
            || (LoopRank(t.acceptor) == LoopRank(s.acceptor) && ToReturn(t) < ToReturn(s))
  {
    if Leaves(s.acceptor) {
      ReturnProgresses(s);
      step :| Enabled(s, step) && !step.WakeBlocked?;
      if IsAcceptorStep(step) {
        LeavingAcceptorStep(s, step);
      } else {
        LeavingHandlerStep(s, step);
      }
    } else if s.acceptor == Accepting {
      step := LeaveLoop;
    } else {
      RoundProgresses(s);
      step :| Enabled(s, step) && OfAcceptor(step) && ToHead(Next(s, step).acceptor) < ToHead(s.acceptor);
      LoopStep(s, step);
    }
    hide Inv, Enabled, Next, Remaining, Leaves, ToHead;
  }

  lemma {:induction false} WayToReturn(s: State) returns (steps: seq<Step>)
    requires Inv(s)
    ensures Legal(s, steps) && Run(s, steps).acceptor == Returned
    decreases LoopRank(s.acceptor), ToReturn(s)
  {
    if s.acceptor == Returned {
      steps := [];
    } else {
      var step := TowardsReturn(s);
      InvStep(s, step);
      hide Inv, Enabled, Next, LoopRank, ToReturn;
      var more := WayToReturn(Next(s, step));
      Prepend(s, step, more);
      steps := [step] + more;
    }
  }

  /** Whatever has happened, some continuation returns from `run`. */
  lemma {:induction false} RunCanReturn(steps: seq<Step>)
    requires Legal(INIT, steps)
    ensures exists more :: Legal(Run(INIT, steps), more) && Run(Run(INIT, steps), more).acceptor == Returned
  {
    ReachableInv(steps);
    var more := WayToReturn(Run(INIT, steps));
  }

  // ---------------------------------------------------------------- every run comes to rest

  function AcceptorWork(pc: AcceptorPc): nat {
    match pc
    case Returned => 0
    case Tearing => 1
    case Draining => 2
    case Accepting => 3
    case Cleaning => 4
    case Leaving(_) => 5
    case Pooled(_) => 9
    case Built(_) => 11
  }

  /** How many steps are left to take when nobody connects any more. */
  function Work(s: State): nat {
    HandlerRanks(s.handlers) + |s.pool| + AcceptorWork(s.acceptor)
  }

  lemma {:induction false} RanksAppend(handlers: seq<HandlerPc>, pc: HandlerPc)
    ensures HandlerRanks(handlers + [pc]) == HandlerRanks(handlers) + HandlerRank(pc)
  {
    if handlers == [] {
      assert [pc][1..] == [];
    } else {
      RanksAppend(handlers[1..], pc);
      assert (handlers + [pc])[1..] == handlers[1..] + [pc];
    }
  }

  lemma AcceptorWorkStep(s: State, step: Step)
    requires Enabled(s, step) && IsAcceptorStep(step)
    ensures Work(Next(s, step)) < Work(s) + (if IsAccept(step) then 9 else 0) + (if IsFailedAccept(step) then 2 else 0)
  {
    hide HandlerRanks, Collect, Unready;
    match step
    case LaunchSucceeds => RanksAppend(s.handlers, Launched);
    case LeaveTry => CollectKeepsTheRest(s.(acceptor := Cleaning), s.acceptor.c);
    case DropPooled =>
      CollectKeepsTheRest(s.(pool := s.pool[1..], dropped := s.dropped + [s.pool[0]]), s.pool[0]);
    case _ =>
  }

  lemma HandlerWorkStep(s: State, step: Step)
    requires Inv(s) && Enabled(s, step) && !IsAcceptorStep(step)
    ensures Work(Next(s, step)) < Work(s)
  {
    if step.Fetch? {
      FetchFindsSupply(s, step.h);
    }
    HandlerStepKeepsFutures(s, step);
    RanksUpdate(s.handlers, step.h, Next(s, step).handlers[step.h]);
    HandlerStepCounts(s, step);
    hide Inv, Enabled, Next, HandlerRanks;
  }

  /** A client makes for at most nine steps, of the accept thread and of its handler, and an accept that
      failed for two: without new clients every run comes to rest. */
  lemma {:induction false} ServiceComesToRest(s: State, steps: seq<Step>)
    requires Inv(s) && Legal(s, steps)
    ensures |steps| + Work(Run(s, steps)) <= Work(s) + 9 * Count(steps, IsAccept) + 2 * Count(steps, IsFailedAccept)
    decreases steps
  {
    if steps != [] {
      InvStep(s, steps[0]);
      if IsAcceptorStep(steps[0]) {
        AcceptorWorkStep(s, steps[0]);
      } else {
        HandlerWorkStep(s, steps[0]);
      }
      hide Inv, Work, Enabled, Next, IsAccept, IsFailedAccept;
      ServiceComesToRest(Next(s, steps[0]), steps[1..]);
    }
  }

  // ---------------------------------------------------------------- the state of rest

  /** Nothing is left to happen except a new client, an accept that fails, or the end of the loop. */
  ghost predicate AtRest(s: State) {
    forall step :: Enabled(s, step) ==> step.Accept? || step.AcceptFails? || step.LeaveLoop?
  }

  /** A connection that no handler has fetched and the pool has not dropped is open. */
  predicate WaitingIsOpen(s: State) {
    forall c :: |s.fetched| + |s.dropped| <= c < |s.conns| ==> s.conns[c].open
  }

  /** So is one that its handler is still working on. */
  predicate HeldIsOpen(s: State) {
    forall h :: 0 <= h < |s.handlers| && s.handlers[h].Holding? ==>
      s.handlers[h].c < |s.conns| && s.conns[s.handlers[h].c].open
  }

  lemma CollectTouchesOne(s: State, c: nat)
    requires c < |s.conns|
    ensures |Collect(s, c).conns| == |s.conns|
    ensures Collect(s, c).fetched == s.fetched && Collect(s, c).dropped == s.dropped
    ensures forall d :: 0 <= d < |s.conns| && d != c ==> Collect(s, c).conns[d] == s.conns[d]
    ensures Referenced(s, c) ==> Collect(s, c) == s
  {
  }

  lemma LastIsPooled(s: State, c: nat)
    requires FifoInv(s) && !s.acceptor.Built? && |s.fetched| + |s.dropped| <= c < |s.conns|
    ensures c in s.pool
  {
    assert (s.fetched + s.dropped + s.pool)[c] == s.pool[c - |s.fetched| - |s.dropped|];
  }

  lemma WaitingAcceptorStep(s: State, step: Step)
    requires FifoInv(s) && WaitingIsOpen(s) && Enabled(s, step) && IsAcceptorStep(step)
    ensures WaitingIsOpen(Next(s, step))
  {
    hide Collect, Referenced, Unready;
    match step
    case LeaveTry =>
      var c := s.acceptor.c;
      CollectTouchesOne(s.(acceptor := Cleaning), c);
      if |s.fetched| + |s.dropped| <= c {
        LastIsPooled(s, c);
        PooledIsReferenced(s.(acceptor := Cleaning), c);
      }
    case DropPooled =>
      FirstIsNext(s);
      CollectTouchesOne(s.(pool := s.pool[1..], dropped := s.dropped + [s.pool[0]]), s.pool[0]);
    case _ =>
  }

  lemma PooledIsReferenced(s: State, c: nat)
    requires c in s.pool
    ensures Referenced(s, c)
  {
  }

  lemma FirstIsNext(s: State)
    requires FifoInv(s) && s.pool != []
    ensures s.pool[0] == |s.fetched| + |s.dropped|
  {
    assert (s.fetched + s.dropped + s.pool)[|s.fetched| + |s.dropped|] == s.pool[0];
  }

  lemma WaitingHandlerStep(s: State, step: Step)
    requires OwnerInv(s) && WaitingIsOpen(s) && Enabled(s, step) && !IsAcceptorStep(step)
    ensures WaitingIsOpen(Next(s, step))
  {
    hide Collect;
    match step
    case HandleAndClose(h) => assert HandlerHolds(s.handlers[h], s.handlers[h].c);
    case Release(h) =>
      assert HandlerHolds(s.handlers[h], s.handlers[h].c);
      CollectTouchesOne(SetHandler(s, h, Finished), s.handlers[h].c);
    case _ =>
  }

  lemma HeldAcceptorStep(s: State, step: Step)
    requires FifoInv(s) && OwnerInv(s) && HeldIsOpen(s) && Enabled(s, step) && IsAcceptorStep(step)
    ensures HeldIsOpen(Next(s, step))
  {
    hide Collect, Referenced, Unready;
    match step
    case LeaveTry =>
      var c, u := s.acceptor.c, s.(acceptor := Cleaning);
      CollectTouchesOne(u, c);
      CollectKeepsTheRest(u, c);
      if h :| 0 <= h < |s.handlers| && s.handlers[h] == Holding(c) {
        HolderIsReference(u, h, c);
      }
    case DropPooled =>
      var u := s.(pool := s.pool[1..], dropped := s.dropped + [s.pool[0]]);
      FirstIsNext(s);
      CollectTouchesOne(u, s.pool[0]);
      CollectKeepsTheRest(u, s.pool[0]);
      forall h | 0 <= h < |s.handlers| && s.handlers[h].Holding? ensures s.handlers[h].c != s.pool[0] {
        assert HandlerHolds(s.handlers[h], s.handlers[h].c);
      }
    case _ =>
  }

  lemma HolderIsReference(s: State, h: nat, c: nat)
    requires h < |s.handlers| && s.handlers[h] == Holding(c)
    ensures Referenced(s, c)
  {
    assert HandlerHolds(s.handlers[h], c);
  }

  lemma HoldersDiffer(s: State, g: nat, h: nat)
    requires OwnerInv(s) && g < |s.handlers| && h < |s.handlers| && g != h
    requires s.handlers[g].Holding? && (s.handlers[h].Holding? || s.handlers[h].Handled?)
    ensures s.handlers[g].c != s.handlers[h].c
  {
    assert HandlerHolds(s.handlers[g], s.handlers[g].c) && HandlerHolds(s.handlers[h], s.handlers[h].c);
  }

  lemma HeldHandlerStep(s: State, step: Step)
    requires FifoInv(s) && OwnerInv(s) && WaitingIsOpen(s) && HeldIsOpen(s)
    requires Enabled(s, step) && !IsAcceptorStep(step) && (step.Fetch? ==> s.dropped == [])
    ensures HeldIsOpen(Next(s, step))
  {
    hide Collect, OwnerInv;
    match step
    case Fetch(h) =>
      if s.pool != [] {
        FirstIsNext(s);
        FetchedAreConns(s);
      }
    case HandleAndClose(h) =>
      forall g | 0 <= g < |s.handlers| && g != h && s.handlers[g].Holding? ensures s.handlers[g].c != s.handlers[h].c {
        HoldersDiffer(s, g, h);
      }
    case Release(h) =>
      var u := SetHandler(s, h, Finished);
      CollectTouchesOne(u, s.handlers[h].c);
      CollectKeepsTheRest(u, s.handlers[h].c);
      forall g | 0 <= g < |s.handlers| && g != h && s.handlers[g].Holding? ensures s.handlers[g].c != s.handlers[h].c {
        HoldersDiffer(s, g, h);
      }
    case _ =>
  }

  lemma OpenStep(s: State, step: Step)
    requires Inv(s) && WaitingIsOpen(s) && HeldIsOpen(s) && Enabled(s, step)
    ensures WaitingIsOpen(Next(s, step)) && HeldIsOpen(Next(s, step))
  {
    hide FifoInv, OwnerInv, SupplyInv, FutureInv, CloseInv, KernelInv, WaitingIsOpen, HeldIsOpen, Next, Enabled;
    if IsAcceptorStep(step) {
      WaitingAcceptorStep(s, step);
      HeldAcceptorStep(s, step);
    } else {
      WaitingHandlerStep(s, step);
      if step.Fetch? {
        NothingDroppedBefore(s, step.h);
      }
      HeldHandlerStep(s, step);
    }
  }

  /** The pool is emptied only when nobody is left to fetch. */
  lemma NothingDroppedBefore(s: State, h: nat)
    requires FifoInv(s) && FutureInv(s) && Enabled(s, Fetch(h))
    ensures s.dropped == []
  {
  }

  lemma {:induction false} RunKeepsOpen(s: State, steps: seq<Step>)
    requires Inv(s) && WaitingIsOpen(s) && HeldIsOpen(s) && Legal(s, steps)
    ensures WaitingIsOpen(Run(s, steps)) && HeldIsOpen(Run(s, steps))
    decreases steps
  {
    if steps != [] {
      InvStep(s, steps[0]);
      OpenStep(s, steps[0]);
      hide Inv, Next, Enabled, WaitingIsOpen, HeldIsOpen;
      RunKeepsOpen(Next(s, steps[0]), steps[1..]);
    }
  }

  /** Every handler has finished. What the handlers fetched is closed, once; what is left in the pool is
      open, as many connections as there were launches that failed, and nothing else is. */
  ghost predicate AllServed(s: State) {
    && (s.acceptor == Accepting || s.acceptor == Returned)
    && (forall h :: 0 <= h < |s.handlers| ==> s.handlers[h] == Finished)
    && (forall c :: 0 <= c < |s.fetched| ==> c < |s.conns| && s.conns[c].closes == 1)
    && (s.acceptor == Accepting ==>
          && |s.fetched| + s.failed == |s.conns| && |s.pool| == s.failed
          && (forall c :: |s.fetched| <= c < |s.conns| ==> s.conns[c].open))
  }

  lemma RestingThreads(s: State)
    requires Inv(s) && AtRest(s)
    ensures s.acceptor == Accepting || s.acceptor == Returned
    ensures forall h :: 0 <= h < |s.handlers| ==> s.handlers[h] == Finished
  {
    forall h | 0 <= h < |s.handlers| ensures s.handlers[h] == Finished {
      if s.handlers[h] != Finished {
        HandlerCanMove(s, h);
      }
    }
    if Leaves(s.acceptor) && s.acceptor != Returned {
      ReturnProgresses(s);
    } else if s.acceptor != Accepting && s.acceptor != Returned {
      RoundProgresses(s);
    }
  }

  lemma FetchedAreClosed(s: State, c: nat)
    requires Inv(s) && c < |s.fetched|
    requires s.acceptor == Accepting || s.acceptor == Returned
    requires forall h :: 0 <= h < |s.handlers| ==> s.handlers[h] == Finished
    ensures c < |s.conns| && s.conns[c].closes == 1
  {
    FetchedAreConns(s);
    NotPooled(s, c);
    assert !Referenced(s, c);
  }

  lemma RestIsServed(s: State)
    requires Inv(s) && WaitingIsOpen(s) && AtRest(s)
    ensures AllServed(s)
  {
    RestingThreads(s);
    CountNone(s.handlers, IsLaunched);
    forall c | 0 <= c < |s.fetched| ensures c < |s.conns| && s.conns[c].closes == 1 {
      FetchedAreClosed(s, c);
    }
    hide OwnerInv, FutureInv, CloseInv, KernelInv, AtRest, Upto;
    assert |s.fetched + s.dropped + s.pool| == Added(s);
  }

  /** Whatever the threads did, a run that has come to rest has served as many clients as handlers could be
      launched, the first ones in the order of acceptance, and left the others open. */
  lemma {:induction false} AtRestMeansServed(steps: seq<Step>)
    requires Legal(INIT, steps) && AtRest(Run(INIT, steps))
    ensures AllServed(Run(INIT, steps))
  {
    ReachableInv(steps);
    InitInv();
    RunKeepsOpen(INIT, steps);
    hide Inv, WaitingIsOpen, AtRest, AllServed;
    RestIsServed(Run(INIT, steps));
  }

  /** A client whose handler could not be launched: nobody will serve it or close it before another client
      comes. */
  lemma {:induction false} FailedLaunchStrandsTheClient(fd: nat)
    ensures exists steps :: Legal(INIT, steps) && AtRest(Run(INIT, steps))
                            && Run(INIT, steps).conns == [Conn(fd, true, 0)] && Run(INIT, steps).pool == [0]
  {
    var s := State([Conn(fd, true, 0)], {fd}, [0], [], [], Cleaning, [], [], 1);
    LaunchFailsOnce(fd, s);
    hide Legal, Run, Enabled, Next, AtRest;
    NoSteps();
    OneStepMore(INIT, [], Accept(fd));
    OneStepMore(INIT, [] + [Accept(fd)], AddToPool);
    OneStepMore(INIT, [] + [Accept(fd)] + [AddToPool], LaunchFails);
    OneStepMore(INIT, [] + [Accept(fd)] + [AddToPool] + [LaunchFails], LeaveTry);
    OneStepMore(INIT, [] + [Accept(fd)] + [AddToPool] + [LaunchFails] + [LeaveTry], CleanUp);
  }

  lemma NoSteps()
    ensures Legal(INIT, []) && Run(INIT, []) == INIT
  {
  }

  lemma LaunchFailsOnce(fd: nat, s: State)
    requires s == State([Conn(fd, true, 0)], {fd}, [0], [], [], Cleaning, [], [], 1)
    ensures Enabled(INIT, Accept(fd))
    ensures var t := Next(INIT, Accept(fd));
            && Enabled(t, AddToPool) && Enabled(Next(t, AddToPool), LaunchFails)
            && Enabled(Next(Next(t, AddToPool), LaunchFails), LeaveTry)
            && Next(Next(Next(t, AddToPool), LaunchFails), LeaveTry) == s
    ensures Enabled(s, CleanUp) && AtRest(Next(s, CleanUp))
    ensures Next(s, CleanUp).conns == [Conn(fd, true, 0)] && Next(s, CleanUp).pool == [0]
  {
  }

  /** A launch can succeed or fail, and a handler that has been launched takes the oldest connection that no
      handler has had. */
  lemma {:induction false} HandlersTakeTurns(steps: seq<Step>, h: nat)
    requires Legal(INIT, steps)
    ensures var s := Run(INIT, steps);
            && (s.acceptor.Pooled? ==> Enabled(s, LaunchSucceeds) && Enabled(s, LaunchFails))
            && (h < |s.handlers| && s.handlers[h] == Launched ==>
                  && Enabled(s, Fetch(h)) && s.pool != []
                  && Next(s, Fetch(h)) == s.(handlers := s.handlers[h := Holding(|s.fetched|)],
                                             pool := s.pool[1..], fetched := s.fetched + [|s.fetched|]))
  {
    var s := Run(INIT, steps);
    ReachableInv(steps);
    if h < |s.handlers| && s.handlers[h] == Launched {
      FetchFindsSupply(s, h);
      FetchKeepsOrder(s);
    }
  }

  // ---------------------------------------------------------------- when a connection is closed

  lemma CloseReaches(s: State, c: nat)
    requires c < |s.conns| && s.conns[c].open && s.conns[c].closes == 0
    ensures var t := CloseSocket(s, c); |t.conns| == |s.conns| && t.conns[c].closes == 1 && s.conns[c].fd !in t.kernel
  {
  }

  lemma ClosesAtOnce(s: State, h: nat, c: nat)
    requires CloseInv(s) && HeldIsOpen(s) && h < |s.handlers| && s.handlers[h] == Holding(c)
    ensures Enabled(s, HandleAndClose(h)) && Enabled(s, HandleWithoutClose(h))
    ensures Next(s, HandleWithoutClose(h)).conns == s.conns && Next(s, HandleWithoutClose(h)).kernel == s.kernel
    ensures var t := Next(s, HandleAndClose(h));
            c < |t.conns| == |s.conns| && t.conns[c].closes == 1 && s.conns[c].fd !in t.kernel
  {
    hide Referenced;
    CloseReaches(SetHandler(s, h, Handled(c)), c);
    hide CloseSocket;
  }

  /** A handler that closes, or whose request throws, closes its connection at once; one that does neither
      leaves it open. */
  lemma {:induction false} HandlerClosesAtOnce(steps: seq<Step>, h: nat, c: nat)
    requires Legal(INIT, steps) && h < |Run(INIT, steps).handlers| && Run(INIT, steps).handlers[h] == Holding(c)
    ensures var s := Run(INIT, steps);
            && Enabled(s, HandleAndClose(h)) && Enabled(s, HandleWithoutClose(h))
            && Next(s, HandleWithoutClose(h)).conns == s.conns && Next(s, HandleWithoutClose(h)).kernel == s.kernel
            && var t := Next(s, HandleAndClose(h));
            && c < |t.conns| == |s.conns| && t.conns[c].closes == 1 && s.conns[c].fd !in t.kernel
  {
    ReachableInv(steps);
    InitInv();
    RunKeepsOpen(INIT, steps);
    hide Legal, Run, Enabled, Next, CloseInv, HeldIsOpen, WaitingIsOpen, OwnerInv, FifoInv, FutureInv, SupplyInv,
      KernelInv;
    ClosesAtOnce(Run(INIT, steps), h, c);
  }

  lemma ReleaseCloses(s: State, h: nat, c: nat)
    requires Inv(s) && h < |s.handlers| && s.handlers[h] == Handled(c)
    ensures Enabled(s, Release(h))
    ensures var t := Next(s, Release(h));
            c < |t.conns| && (AcceptorHolds(s.acceptor, c) || t.conns[c].closes == 1)
  {
    hide KernelInv, SupplyInv, FutureInv;
    assert HandlerHolds(s.handlers[h], c);
    FetchedAreConns(s);
    NotPooled(s, c);
    var u := SetHandler(s, h, Finished);
    forall g | 0 <= g < |u.handlers| ensures !HandlerHolds(u.handlers[g], c) {
      assert g != h ==> !HandlerHolds(s.handlers[g], c);
    }
    assert Referenced(u, c) ==> AcceptorHolds(s.acceptor, c);
    hide OwnerInv, FifoInv, Referenced;
    CollectKeepsTheRest(u, c);
    if !AcceptorHolds(s.acceptor, c) {
      CollectCloses(u, c);
    }
  }

  lemma NotPooled(s: State, c: nat)
    requires FifoInv(s) && c < |s.fetched|
    ensures c !in s.pool
  {
    forall i | 0 <= i < |s.pool| ensures s.pool[i] != c {
      assert (s.fetched + s.dropped + s.pool)[|s.fetched| + |s.dropped| + i] == s.pool[i];
    }
  }

  lemma CollectCloses(s: State, c: nat)
    requires c < |s.conns| && s.conns[c].closes == (if s.conns[c].open then 0 else 1) && !Referenced(s, c)
    ensures Collect(s, c).conns[c].closes == 1
  {
  }

  /** And the connection that a handler lets go of is closed, unless the accept thread has not let go of it
      yet. */
  lemma {:induction false} ReleasedIsClosed(steps: seq<Step>, h: nat, c: nat)
    requires Legal(INIT, steps) && h < |Run(INIT, steps).handlers| && Run(INIT, steps).handlers[h] == Handled(c)
    ensures var s := Run(INIT, steps);
            && Enabled(s, Release(h))
            && var t := Next(s, Release(h));
            && c < |t.conns| && (AcceptorHolds(s.acceptor, c) || t.conns[c].closes == 1)
  {
    ReachableInv(steps);
    hide Legal, Run, Enabled, Next, Inv, AcceptorHolds;
    ReleaseCloses(Run(INIT, steps), h, c);
  }
}
