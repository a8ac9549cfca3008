/** The accept thread, the asynchronous handlers and the connection pool they share, as a step
    system over every interleaving, down to the `::close` of each accepted descriptor. */
module HttpService {
  import opened BlockingFifo
  import opened Counting

  /** A `Connection` and its socket: identified by the order of acceptance, because the kernel
      hands out a closed descriptor number again. */
  datatype Conn = Conn(fd: nat, open: bool, closes: nat)

  /** Where `run` is: at the head of the loop, inside `processNewConnection` with a local reference
      to connection c, cleaning up futures, or past the loop. */
  datatype AcceptorPc =
    | Accepting
    | Built(c: nat)
    | Pooled(c: nat)
    | Leaving(c: nat)
    | Cleaning
    | Draining
    | Tearing
    | Returned

  datatype HandlerPc =
    | Launched
    | Blocked
    | Holding(c: nat)
    | Handled(c: nat)
    | Finished

  /** `kernel` holds the open descriptors. `fetched` and `dropped` are histories of the pool: what
      handlers took from it and what its destruction let go. `failed` counts launches that threw. */
  datatype State = State(
    conns: seq<Conn>, kernel: set<nat>, pool: seq<nat>, fetched: seq<nat>, dropped: seq<nat>,
    acceptor: AcceptorPc, handlers: seq<HandlerPc>, futures: seq<nat>, failed: nat)

  datatype Step =
    | Accept(fd: nat)
    | AcceptFails
    | AddToPool
    | LaunchSucceeds
    | LaunchFails
    | LeaveTry
    | CleanUp
    | LeaveLoop
    | FuturesReady
    | DropPooled
    | Return
    | Fetch(h: nat)
    | WakeBlocked(h: nat)
    | HandleAndClose(h: nat)
    | HandleWithoutClose(h: nat)
    | Release(h: nat)

  const INIT: State := State([], {}, [], [], [], Accepting, [], [], 0)

  // ---------------------------------------------------------------- sockets and references

  predicate AcceptorHolds(pc: AcceptorPc, c: nat) {
    pc == Built(c) || pc == Pooled(c) || pc == Leaving(c)
  }

  predicate HandlerHolds(pc: HandlerPc, c: nat) {
    pc == Holding(c) || pc == Handled(c)
  }

  /** Some `shared_ptr` to the connection is alive. */
  predicate Referenced(s: State, c: nat) {
    || c in s.pool
    || AcceptorHolds(s.acceptor, c)
    || exists h :: 0 <= h < |s.handlers| && HandlerHolds(s.handlers[h], c)
  }

  /** `Socket::close`: the descriptor is closed once and forgotten. */
  function CloseSocket(s: State, c: nat): State
    requires c < |s.conns|
  {
    var conn := s.conns[c];
    if conn.open then
      s.(conns := s.conns[c := conn.(open := false, closes := conn.closes + 1)], kernel := s.kernel - {conn.fd})
    else s
  }

  /** A reference has just gone away: the last one runs the destructor, which closes. */
  function Collect(s: State, c: nat): State
    requires c < |s.conns|
  {
    if Referenced(s, c) then s else CloseSocket(s, c)
  }

  predicate IsLaunched(pc: HandlerPc) { pc == Launched }

  // ---------------------------------------------------------------- the accept thread's own objects

  predicate IsReady(future: nat, handlers: seq<HandlerPc>) {
    future < |handlers| && handlers[future] == Finished
  }

  /** The futures that `remove_if` keeps, in order. */
  function Unready(futures: seq<nat>, handlers: seq<HandlerPc>): seq<nat> {
    if futures == [] then []
    else (if IsReady(futures[0], handlers) then [] else [futures[0]]) + Unready(futures[1..], handlers)
  }

  /** A clean-up forgets exactly the handlers that have finished. */
  lemma {:induction false} UnreadyIff(futures: seq<nat>, handlers: seq<HandlerPc>, h: nat)
    ensures h in Unready(futures, handlers) <==> h in futures && !IsReady(h, handlers)
  {
    if futures != [] {
      UnreadyIff(futures[1..], handlers, h);
    }
  }

  lemma UnreadyStep(kept: seq<nat>, futures: seq<nat>, handlers: seq<HandlerPc>, i: nat)
    requires i < |futures|
    ensures kept + Unready(futures[i..], handlers)
         == (if IsReady(futures[i], handlers) then kept else kept + [futures[i]]) + Unready(futures[i + 1..], handlers)
  {
    hide IsReady;
    assert futures[i..][1..] == futures[i + 1..];
  }

  /** The future vector that `run` owns, and what it does between two calls of the kernel. Handlers
      are known by the order of their launch. */
  class HttpService {
    var connectionFutures: seq<nat>

    constructor ()
      ensures connectionFutures == []
    {
      connectionFutures := [];
    }

    /** A negative descriptor is an accept that failed. The connection is in the pool before the
        handler is launched, and it stays there when the launch throws. */
    method ProcessNewConnection(clientFd: int, connection: nat, pool: ConnectionPool<nat>, launches: bool, handler: nat)
      modifies this, pool
      ensures pool.connectionPool == old(pool.connectionPool) + if clientFd >= 0 then [connection] else []
      ensures pool.notified == old(pool.notified) + if clientFd >= 0 then 1 else 0
      ensures connectionFutures == old(connectionFutures) + if clientFd >= 0 && launches then [handler] else []
    {
      if clientFd >= 0 {
        pool.AddConnection(connection);
        if launches {
          connectionFutures := connectionFutures + [handler];
        }
      }
    }

    method CleanUpConnectionFutures(handlers: seq<HandlerPc>)
      modifies this
      ensures connectionFutures == old(Unready(connectionFutures, handlers))
    {
      hide IsReady;
      var kept, i := [], 0;
      ghost var all := connectionFutures;
      while i < |connectionFutures|
        invariant connectionFutures == all && 0 <= i <= |all|
        invariant kept + Unready(all[i..], handlers) == Unready(all, handlers)
      {
        UnreadyStep(kept, all, handlers, i);
        if !IsReady(connectionFutures[i], handlers) {
          kept := kept + [connectionFutures[i]];
        }
        i := i + 1;
      }
      connectionFutures := kept;
    }
  }

  // ---------------------------------------------------------------- steps

  predicate Enabled(s: State, step: Step) {
    match step
    case Accept(fd) => s.acceptor == Accepting && fd !in s.kernel
    case AcceptFails => s.acceptor == Accepting
    case AddToPool => s.acceptor.Built?
    case LaunchSucceeds => s.acceptor.Pooled?
    case LaunchFails => s.acceptor.Pooled?
    case LeaveTry => s.acceptor.Leaving? && s.acceptor.c < |s.conns|
    case CleanUp => s.acceptor == Cleaning
    case LeaveLoop => s.acceptor == Accepting
    case FuturesReady => s.acceptor == Draining && forall h :: h in s.futures ==> IsReady(h, s.handlers)
    case DropPooled => s.acceptor == Tearing && s.pool != [] && s.pool[0] < |s.conns|
    case Return => s.acceptor == Tearing && s.pool == []
    case Fetch(h) => h < |s.handlers| && s.handlers[h] == Launched
    case WakeBlocked(h) => h < |s.handlers| && s.handlers[h] == Blocked
    case HandleAndClose(h) => h < |s.handlers| && s.handlers[h].Holding? && s.handlers[h].c < |s.conns|
    case HandleWithoutClose(h) => h < |s.handlers| && s.handlers[h].Holding?
    case Release(h) => h < |s.handlers| && s.handlers[h].Handled? && s.handlers[h].c < |s.conns|
  }

  function SetHandler(s: State, h: nat, pc: HandlerPc): State
    requires h < |s.handlers|
  {
    s.(handlers := s.handlers[h := pc])
  }

  function Next(s: State, step: Step): State
    requires Enabled(s, step)
  {
    match step
    case Accept(fd) =>
      s.(conns := s.conns + [Conn(fd, true, 0)], kernel := s.kernel + {fd}, acceptor := Built(|s.conns|))
    case AcceptFails => s.(acceptor := Cleaning)
    case AddToPool => s.(pool := s.pool + [s.acceptor.c], acceptor := Pooled(s.acceptor.c))
    case LaunchSucceeds =>
      s.(handlers := s.handlers + [Launched], futures := s.futures + [|s.handlers|], acceptor := Leaving(s.acceptor.c))
    case LaunchFails => s.(failed := s.failed + 1, acceptor := Leaving(s.acceptor.c))
    case LeaveTry => Collect(s.(acceptor := Cleaning), s.acceptor.c)
    case CleanUp => s.(futures := Unready(s.futures, s.handlers), acceptor := Accepting)
    case LeaveLoop => s.(acceptor := Draining)
    case FuturesReady => s.(acceptor := Tearing)
    case DropPooled => Collect(s.(pool := s.pool[1..], dropped := s.dropped + [s.pool[0]]), s.pool[0])
    case Return => s.(acceptor := Returned)
    case Fetch(h) =>
      match PopSection(s.pool) {
        case (Blocks, _) => SetHandler(s, h, Blocked)
        case (Popped(c), rest) => SetHandler(s, h, Holding(c)).(pool := rest, fetched := s.fetched + [c])
      }
    case WakeBlocked(h) => SetHandler(s, h, Launched)
    case HandleAndClose(h) => CloseSocket(SetHandler(s, h, Handled(s.handlers[h].c)), s.handlers[h].c)
    case HandleWithoutClose(h) => SetHandler(s, h, Handled(s.handlers[h].c))
    case Release(h) => Collect(SetHandler(s, h, Finished), s.handlers[h].c)
  }

  predicate Legal(s: State, steps: seq<Step>)
    decreases steps
  {
    steps == [] || (Enabled(s, steps[0]) && Legal(Next(s, steps[0]), steps[1..]))
  }

  function Run(s: State, steps: seq<Step>): State
    requires Legal(s, steps)
    decreases steps
  {
    if steps == [] then s else Run(Next(s, steps[0]), steps[1..])
  }

  // ---------------------------------------------------------------- invariants

  /** The connections 0, 1, ..., n-1 in the order of acceptance. */
  function Upto(n: nat): (r: seq<nat>)
    ensures |r| == n
  {
    seq(n, k requires 0 <= k < n => k)
  }

  lemma UptoNext(n: nat)
    ensures Upto(n + 1) == Upto(n) + [n]
  {
  }

  function Added(s: State): int {
    |s.conns| - (if s.acceptor.Built? then 1 else 0)
  }

  /** Connections enter the pool and leave it in the order of acceptance, each once. */
  predicate FifoInv(s: State) {
    && 0 <= Added(s)
    && s.fetched + s.dropped + s.pool == Upto(Added(s))
    && (s.acceptor.Built? || s.acceptor.Pooled? || s.acceptor.Leaving? ==> s.acceptor.c == |s.conns| - 1)
    && (!s.acceptor.Tearing? && !s.acceptor.Returned? ==> s.dropped == [])
  }

  /** A connection has at most one handler. */
  ghost predicate OwnerInv(s: State) {
    && (forall h, c: nat :: 0 <= h < |s.handlers| && HandlerHolds(s.handlers[h], c) ==> c < |s.fetched|)
    && (forall g, h, c: nat :: 0 <= g < h < |s.handlers| ==>
          !HandlerHolds(s.handlers[g], c) || !HandlerHolds(s.handlers[h], c))
  }

  /** The pool has a connection for every handler that has not fetched yet, besides those whose
      launch failed and the one whose launch is under way; so nobody ever blocks in the pool. */
  predicate SupplyInv(s: State) {
    && (forall h :: 0 <= h < |s.handlers| ==> s.handlers[h] != Blocked)
    && |s.pool| + |s.dropped| == Count(s.handlers, IsLaunched) + s.failed + (if s.acceptor.Pooled? then 1 else 0)
  }

  predicate FutureInv(s: State) {
    && (forall h :: h in s.futures ==> h < |s.handlers|)
    && (forall h :: 0 <= h < |s.handlers| && h !in s.futures ==> s.handlers[h] == Finished)
    && (s.acceptor.Tearing? || s.acceptor.Returned? ==> forall h :: 0 <= h < |s.handlers| ==> s.handlers[h] == Finished)
    && (s.acceptor.Returned? ==> s.pool == [])
  }

  /** A connection is open or has been closed exactly once, and an open one is still referenced. */
  predicate CloseInv(s: State) {
    forall c :: 0 <= c < |s.conns| ==>
      && s.conns[c].closes == (if s.conns[c].open then 0 else 1)
      && (s.conns[c].open ==> Referenced(s, c))
  }

  /** The open descriptors are those of the open connections, one each: no `::close` can hit a
      descriptor number that the kernel has meanwhile given to somebody else. */
  predicate KernelInv(s: State) {
    && (forall c :: 0 <= c < |s.conns| && s.conns[c].open ==> s.conns[c].fd in s.kernel)
    && (forall c, d :: 0 <= c < d < |s.conns| && s.conns[c].open && s.conns[d].open ==> s.conns[c].fd != s.conns[d].fd)
    && (forall fd :: fd in s.kernel ==> exists c :: 0 <= c < |s.conns| && s.conns[c].open && s.conns[c].fd == fd)
  }

  ghost predicate Inv(s: State) {
    FifoInv(s) && OwnerInv(s) && SupplyInv(s) && FutureInv(s) && CloseInv(s) && KernelInv(s)
  }

  lemma CollectKeepsTheRest(s: State, c: nat)
    requires c < |s.conns|
    ensures var t := Collect(s, c);
            && |t.conns| == |s.conns|
            && t == s.(conns := t.conns, kernel := t.kernel)
  {
  }

  lemma CloseKeepsTheRest(s: State, c: nat)
    requires c < |s.conns|
    ensures var t := CloseSocket(s, c);
            && |t.conns| == |s.conns|
            && t == s.(conns := t.conns, kernel := t.kernel)
  {
  }

  predicate IsAcceptorStep(step: Step) {
    || step.Accept? || step.AcceptFails? || step.AddToPool? || step.LaunchSucceeds? || step.LaunchFails?
    || step.LeaveTry? || step.CleanUp? || step.LeaveLoop? || step.FuturesReady? || step.DropPooled? || step.Return?
  }

  lemma FifoAcceptorStep(s: State, step: Step)
    requires Inv(s) && Enabled(s, step) && IsAcceptorStep(step)
    ensures FifoInv(Next(s, step))
  {
    hide OwnerInv, SupplyInv, CloseInv, KernelInv, FutureInv, Referenced, Collect, CloseSocket, Unready, Upto;
    match step
    case LeaveTry => CollectKeepsTheRest(s.(acceptor := Cleaning), s.acceptor.c);
    case AddToPool =>
      UptoNext(Added(s));
      assert s.fetched + s.dropped + (s.pool + [s.acceptor.c]) == s.fetched + s.dropped + s.pool + [s.acceptor.c];
    case DropPooled =>
      CollectKeepsTheRest(s.(pool := s.pool[1..], dropped := s.dropped + [s.pool[0]]), s.pool[0]);
      assert s.fetched + (s.dropped + [s.pool[0]]) + s.pool[1..] == s.fetched + s.dropped + s.pool;
    case _ =>
  }

  lemma FifoHandlerStep(s: State, step: Step)
    requires Inv(s) && Enabled(s, step) && !IsAcceptorStep(step)
    ensures FifoInv(Next(s, step))
  {
    hide OwnerInv, SupplyInv, CloseInv, KernelInv, Referenced, Collect, CloseSocket, Unready, Upto;
    match step
    case HandleAndClose(h) => CloseKeepsTheRest(SetHandler(s, h, Handled(s.handlers[h].c)), s.handlers[h].c);
    case Release(h) => CollectKeepsTheRest(SetHandler(s, h, Finished), s.handlers[h].c);
    case Fetch(h) =>
      if s.pool != [] {
        FetchKeepsOrder(s);
      }
    case _ =>
  }

  lemma FifoStep(s: State, step: Step)
    requires Inv(s) && Enabled(s, step)
    ensures FifoInv(Next(s, step))
  {
    hide Inv, Enabled, Next;
    if IsAcceptorStep(step) {
      FifoAcceptorStep(s, step);
    } else {
      FifoHandlerStep(s, step);
    }
  }

  lemma FetchKeepsOrder(s: State)
    requires FifoInv(s) && s.pool != [] && s.dropped == []
    ensures (s.fetched + [s.pool[0]]) + s.dropped + s.pool[1..] == s.fetched + s.dropped + s.pool
    ensures s.pool[0] == |s.fetched|
  {
    assert (s.fetched + s.dropped + s.pool)[|s.fetched|] == s.pool[0];
  }

  /** A handler that keeps its connection, or lets it go, takes it from nobody. */
  lemma OwnerMoved(s: State, t: State, h: nat, pc: HandlerPc)
    requires OwnerInv(s) && h < |s.handlers| && t.handlers == s.handlers[h := pc] && t.fetched == s.fetched
    requires forall c: nat :: HandlerHolds(pc, c) ==> HandlerHolds(s.handlers[h], c)
    ensures OwnerInv(t)
  {
    assert forall g, c: nat :: 0 <= g < |t.handlers| && HandlerHolds(t.handlers[g], c) ==>
        HandlerHolds(s.handlers[g], c);
  }

  /** The next connection in the order of acceptance is nobody's yet. */
  lemma OwnerFetched(s: State, t: State, h: nat)
    requires OwnerInv(s) && h < |s.handlers|
    requires t.handlers == s.handlers[h := Holding(|s.fetched|)] && t.fetched == s.fetched + [|s.fetched|]
    ensures OwnerInv(t)
  {
    assert forall g, c: nat :: 0 <= g < |t.handlers| && g != h && HandlerHolds(t.handlers[g], c) ==>
        HandlerHolds(s.handlers[g], c) && c < |s.fetched|;
  }

  lemma OwnerStep(s: State, step: Step)
    requires Inv(s) && Enabled(s, step)
    ensures OwnerInv(Next(s, step))
  {
    var t := Next(s, step);
    match step
    case Fetch(h) =>
      if s.pool != [] {
        FetchKeepsOrder(s);
        OwnerFetched(s, t, h);
      } else {
        OwnerMoved(s, t, h, Blocked);
      }
    case WakeBlocked(h) => OwnerMoved(s, t, h, Launched);
    case HandleAndClose(h) => OwnerMoved(s, t, h, Handled(s.handlers[h].c));
    case HandleWithoutClose(h) => OwnerMoved(s, t, h, Handled(s.handlers[h].c));
    case Release(h) => OwnerMoved(s, t, h, Finished);
    case LaunchSucceeds =>
      assert forall g, c: nat :: 0 <= g < |t.handlers| && HandlerHolds(t.handlers[g], c) ==>
          g < |s.handlers| && HandlerHolds(s.handlers[g], c);
    case _ => assert t.handlers == s.handlers && t.fetched == s.fetched;
  }

  lemma SupplyMoved(s: State, h: nat, pc: HandlerPc)
    requires h < |s.handlers| && s.handlers[h] != Launched && pc != Launched
    ensures Count(s.handlers[h := pc], IsLaunched) == Count(s.handlers, IsLaunched)
  {
    CountUpdate(s.handlers, h, pc, IsLaunched);
  }

  lemma SupplyFetch(s: State, h: nat)
    requires Inv(s) && Enabled(s, Fetch(h))
    ensures SupplyInv(Next(s, Fetch(h)))
  {
    FetchFindsSupply(s, h);
    CountUpdate(s.handlers, h, Holding(s.pool[0]), IsLaunched);
  }

  lemma SupplyCollect(s: State, c: nat)
    requires SupplyInv(s) && c < |s.conns|
    ensures SupplyInv(Collect(s, c))
  {
  }

  lemma SupplyStep(s: State, step: Step)
    requires Inv(s) && Enabled(s, step)
    ensures SupplyInv(Next(s, step))
  {
    hide FifoInv, OwnerInv, FutureInv, CloseInv, KernelInv, Referenced, Collect;
    match step
    case LaunchSucceeds => CountAppend(s.handlers, Launched, IsLaunched);
    case Fetch(h) => SupplyFetch(s, h);
    case LeaveTry => SupplyCollect(s.(acceptor := Cleaning), s.acceptor.c);
    case DropPooled => SupplyCollect(s.(pool := s.pool[1..], dropped := s.dropped + [s.pool[0]]), s.pool[0]);
    case HandleAndClose(h) => SupplyMoved(s, h, Handled(s.handlers[h].c));
    case HandleWithoutClose(h) => SupplyMoved(s, h, Handled(s.handlers[h].c));
    case Release(h) =>
      SupplyMoved(s, h, Finished);
      SupplyCollect(SetHandler(s, h, Finished), s.handlers[h].c);
    case _ =>
  }

  /** A handler that is about to fetch finds the pool stocked. */
  lemma FetchFindsSupply(s: State, h: nat)
    requires SupplyInv(s) && FifoInv(s) && FutureInv(s) && h < |s.handlers| && s.handlers[h] == Launched
    ensures s.pool != [] && Count(s.handlers, IsLaunched) <= |s.pool|
  {
    CountNone(s.handlers, IsLaunched);
  }

  lemma CleanUpKeepsUnready(s: State, h: nat)
    requires Enabled(s, CleanUp)
    ensures h in Next(s, CleanUp).futures <==> h in s.futures && !IsReady(h, s.handlers)
  {
    UnreadyIff(s.futures, s.handlers, h);
  }

  lemma FutureCleanUp(s: State)
    requires FutureInv(s) && Enabled(s, CleanUp)
    ensures FutureInv(Next(s, CleanUp))
  {
    var t := Next(s, CleanUp);
    forall h: nat ensures h in t.futures <==> h in s.futures && !IsReady(h, s.handlers) {
      CleanUpKeepsUnready(s, h);
    }
    hide Unready;
  }

  lemma FutureCollect(s: State, c: nat)
    requires FutureInv(s) && c < |s.conns|
    ensures FutureInv(Collect(s, c))
  {
    CollectKeepsTheRest(s, c);
    hide Collect;
  }

  lemma FutureAcceptorStep(s: State, step: Step)
    requires FutureInv(s) && Enabled(s, step) && IsAcceptorStep(step)
    ensures FutureInv(Next(s, step))
  {
    hide Collect, Unready, Referenced;
    match step
    case CleanUp => FutureCleanUp(s);
    case LeaveTry => FutureCollect(s.(acceptor := Cleaning), s.acceptor.c);
    case DropPooled => FutureCollect(s.(pool := s.pool[1..], dropped := s.dropped + [s.pool[0]]), s.pool[0]);
    case _ =>
  }

  lemma FutureMoved(s: State, h: nat, pc: HandlerPc)
    requires FutureInv(s) && h < |s.handlers| && s.handlers[h] != Finished
    ensures FutureInv(SetHandler(s, h, pc))
  {
  }

  lemma FutureHandlerStep(s: State, step: Step)
    requires FutureInv(s) && Enabled(s, step) && !IsAcceptorStep(step)
    ensures FutureInv(Next(s, step))
  {
    var t := SetHandler(s, step.h, Next(s, step).handlers[step.h]);
    FutureMoved(s, step.h, Next(s, step).handlers[step.h]);
    HandlerStepKeepsFutures(s, step);
    hide Enabled, Next, SetHandler;
  }

  /** A handler step changes one handler, and besides that only connections and the pool. */
  lemma HandlerStepKeepsFutures(s: State, step: Step)
    requires Enabled(s, step) && !IsAcceptorStep(step)
    ensures var t := Next(s, step);
            && t.handlers == s.handlers[step.h := t.handlers[step.h]]
            && t.futures == s.futures && t.acceptor == s.acceptor
            && (s.pool == [] ==> t.pool == [])
  {
    match step
    case HandleAndClose(h) => CloseKeepsTheRest(SetHandler(s, h, Handled(s.handlers[h].c)), s.handlers[h].c);
    case Release(h) => CollectKeepsTheRest(SetHandler(s, h, Finished), s.handlers[h].c);
    case _ =>
  }

  lemma FutureStep(s: State, step: Step)
    requires FutureInv(s) && Enabled(s, step)
    ensures FutureInv(Next(s, step))
  {
    hide FutureInv, Enabled, Next;
    if IsAcceptorStep(step) {
      FutureAcceptorStep(s, step);
    } else {
      FutureHandlerStep(s, step);
    }
  }

  // ---------------------------------------------------------------- closing

  /** Everything `CloseInv` asks, except that connection c may have lost its last reference. */
  predicate CloseInvBut(s: State, c: nat) {
    forall d :: 0 <= d < |s.conns| ==>
      && s.conns[d].closes == (if s.conns[d].open then 0 else 1)
      && (s.conns[d].open && d != c ==> Referenced(s, d))
  }

  lemma CollectRestores(s: State, c: nat)
    requires c < |s.conns| && CloseInvBut(s, c)
    ensures CloseInv(Collect(s, c))
  {
    var t := Collect(s, c);
    forall d | 0 <= d < |t.conns| ensures Referenced(t, d) <==> Referenced(s, d) {
    }
  }

  lemma CloseKeepsReferences(s: State, c: nat)
    requires c < |s.conns| && CloseInv(s)
    ensures CloseInv(CloseSocket(s, c))
  {
    var t := CloseSocket(s, c);
    forall d | 0 <= d < |t.conns| ensures Referenced(t, d) <==> Referenced(s, d) {
    }
  }

  /** If every reference of s except those to c is still there, only c can be without one. */
  lemma ReferencesMoved(s: State, t: State, c: nat)
    requires CloseInv(s) && t.conns == s.conns
    requires forall d :: 0 <= d < |s.conns| && d != c && Referenced(s, d) ==> Referenced(t, d)
    ensures CloseInvBut(t, c)
    ensures Referenced(t, c) ==> CloseInv(t)
  {
  }

  lemma HandlerMoved(s: State, h: nat, pc: HandlerPc, d: nat)
    requires h < |s.handlers| && Referenced(s, d)
    requires HandlerHolds(s.handlers[h], d) ==> HandlerHolds(pc, d)
    ensures Referenced(SetHandler(s, h, pc), d)
  {
    var t := SetHandler(s, h, pc);
    if g :| 0 <= g < |s.handlers| && HandlerHolds(s.handlers[g], d) {
      assert HandlerHolds(t.handlers[g], d);
    }
  }

  lemma AcceptorCloseStep(s: State, step: Step)
    requires FifoInv(s) && CloseInv(s) && Enabled(s, step)
    requires step.Accept? || step.AddToPool? || step.LaunchSucceeds? || step.LaunchFails? || step.LeaveTry?
    ensures CloseInv(Next(s, step))
  {
    match step
    case Accept(fd) =>
      var t := Next(s, step);
      forall d | 0 <= d < |s.conns| && Referenced(s, d) ensures Referenced(t, d) {
      }
    case LaunchSucceeds =>
      var t := Next(s, step);
      forall d | 0 <= d < |s.conns| && Referenced(s, d) ensures Referenced(t, d) {
        if h :| 0 <= h < |s.handlers| && HandlerHolds(s.handlers[h], d) {
          assert HandlerHolds(t.handlers[h], d);
        }
      }
    case LeaveTry =>
      ReferencesMoved(s, s.(acceptor := Cleaning), s.acceptor.c);
      CollectRestores(s.(acceptor := Cleaning), s.acceptor.c);
    case AddToPool => ReferencesMoved(s, Next(s, step), s.acceptor.c);
    case LaunchFails => ReferencesMoved(s, Next(s, step), s.acceptor.c);
  }

  lemma FetchCloseStep(s: State, h: nat)
    requires CloseInv(s) && Enabled(s, Fetch(h))
    ensures CloseInv(Next(s, Fetch(h)))
  {
    var t := Next(s, Fetch(h));
    forall d | 0 <= d < |s.conns| && Referenced(s, d) ensures Referenced(t, d) {
      if s.pool != [] && d == s.pool[0] {
        assert HandlerHolds(t.handlers[h], d);
      } else {
        HandlerMoved(s, h, t.handlers[h], d);
        assert d in s.pool ==> d in t.pool;
      }
    }
  }

  lemma HandlerCloseStep(s: State, step: Step)
    requires CloseInv(s) && Enabled(s, step)
    requires step.WakeBlocked? || step.HandleAndClose? || step.HandleWithoutClose? || step.Release?
    ensures CloseInv(Next(s, step))
  {
    var pc := Next(s, step).handlers[step.h];
    var t := SetHandler(s, step.h, pc);
    var c := if step.WakeBlocked? then 0 else s.handlers[step.h].c;
    forall d | 0 <= d < |s.conns| && Referenced(s, d) && (step.Release? ==> d != c) ensures Referenced(t, d) {
      HandlerMoved(s, step.h, pc, d);
    }
    if step.Release? {
      ReferencesMoved(s, t, c);
      CollectRestores(t, c);
    } else if step.HandleAndClose? {
      CloseKeepsReferences(t, c);
    }
  }

  lemma DropCloseStep(s: State)
    requires CloseInv(s) && Enabled(s, DropPooled)
    ensures CloseInv(Next(s, DropPooled))
  {
    var t := s.(pool := s.pool[1..], dropped := s.dropped + [s.pool[0]]);
    forall d | 0 <= d < |s.conns| && d != s.pool[0] && Referenced(s, d) ensures Referenced(t, d) {
      assert d in s.pool ==> d in t.pool;
    }
    ReferencesMoved(s, t, s.pool[0]);
    CollectRestores(t, s.pool[0]);
  }

  lemma CloseStep(s: State, step: Step)
    requires FifoInv(s) && CloseInv(s) && Enabled(s, step)
    ensures CloseInv(Next(s, step))
  {
    if step.Accept? || step.AddToPool? || step.LaunchSucceeds? || step.LaunchFails? || step.LeaveTry? {
      AcceptorCloseStep(s, step);
    } else if step.Fetch? {
      FetchCloseStep(s, step.h);
    } else if step.WakeBlocked? || step.HandleAndClose? || step.HandleWithoutClose? || step.Release? {
      HandlerCloseStep(s, step);
    } else if step.DropPooled? {
      DropCloseStep(s);
    } else {
      var t := Next(s, step);
      forall d | 0 <= d < |s.conns| ensures Referenced(t, d) <==> Referenced(s, d) {
      }
    }
  }

  lemma CloseKeepsKernel(s: State, c: nat)
    requires KernelInv(s) && c < |s.conns|
    ensures KernelInv(CloseSocket(s, c))
  {
    var t := CloseSocket(s, c);
    forall fd | fd in t.kernel ensures exists d :: 0 <= d < |t.conns| && t.conns[d].open && t.conns[d].fd == fd {
      var d :| 0 <= d < |s.conns| && s.conns[d].open && s.conns[d].fd == fd;
      assert t.conns[d].open && t.conns[d].fd == fd;
    }
  }

  lemma AcceptKeepsKernel(s: State, fd: nat)
    requires KernelInv(s) && fd !in s.kernel
    ensures KernelInv(s.(conns := s.conns + [Conn(fd, true, 0)], kernel := s.kernel + {fd}))
  {
    var t := s.(conns := s.conns + [Conn(fd, true, 0)], kernel := s.kernel + {fd});
    assert t.conns[|s.conns|].open && t.conns[|s.conns|].fd == fd;
    assert forall c :: 0 <= c < |s.conns| ==> t.conns[c] == s.conns[c];
  }

  lemma KernelInvSame(s: State, t: State)
    requires KernelInv(s) && t.conns == s.conns && t.kernel == s.kernel
    ensures KernelInv(t)
  {
  }

  lemma KernelStep(s: State, step: Step)
    requires KernelInv(s) && Enabled(s, step)
    ensures KernelInv(Next(s, step))
  {
    hide Referenced, KernelInv, CloseSocket;
    var t := Next(s, step);
    match step
    case Accept(fd) =>
      AcceptKeepsKernel(s, fd);
      KernelInvSame(s.(conns := s.conns + [Conn(fd, true, 0)], kernel := s.kernel + {fd}), t);
    case LeaveTry => CollectKeepsKernel(s, s.(acceptor := Cleaning), s.acceptor.c);
    case DropPooled => CollectKeepsKernel(s, s.(pool := s.pool[1..], dropped := s.dropped + [s.pool[0]]), s.pool[0]);
    case HandleAndClose(h) =>
      KernelInvSame(s, SetHandler(s, h, Handled(s.handlers[h].c)));
      CloseKeepsKernel(SetHandler(s, h, Handled(s.handlers[h].c)), s.handlers[h].c);
    case Release(h) => CollectKeepsKernel(s, SetHandler(s, h, Finished), s.handlers[h].c);
    case _ => KernelInvSame(s, t);
  }

  lemma CollectKeepsKernel(s: State, t: State, c: nat)
    requires KernelInv(s) && t.conns == s.conns && t.kernel == s.kernel && c < |s.conns|
    ensures KernelInv(Collect(t, c))
  {
    KernelInvSame(s, t);
    CloseKeepsKernel(t, c);
  }

  lemma InvStep(s: State, step: Step)
    requires Inv(s) && Enabled(s, step)
    ensures Inv(Next(s, step))
  {
    FifoStep(s, step);
    OwnerStep(s, step);
    SupplyStep(s, step);
    FutureStep(s, step);
    CloseStep(s, step);
    KernelStep(s, step);
  }

  lemma {:induction false} RunKeepsInv(s: State, steps: seq<Step>)
    requires Inv(s) && Legal(s, steps)
    ensures Inv(Run(s, steps))
    decreases steps
  {
    if steps != [] {
      InvStep(s, steps[0]);
      hide Inv, Next;
      RunKeepsInv(Next(s, steps[0]), steps[1..]);
    }
  }

  lemma InitInv()
    ensures Inv(INIT)
  {
  }

  lemma {:induction false} ReachableInv(steps: seq<Step>)
    requires Legal(INIT, steps)
    ensures Inv(Run(INIT, steps))
  {
    InitInv();
    hide Inv;
    RunKeepsInv(INIT, steps);
  }

  // ---------------------------------------------------------------- main results

  /** In every interleaving the pool holds at least one connection for each launched handler that
      has not fetched yet, so `getConnection` never finds it empty and never blocks. */
  lemma {:induction false} HandlersNeverStarve(steps: seq<Step>, h: nat)
    requires Legal(INIT, steps) && h < |Run(INIT, steps).handlers|
    ensures var s := Run(INIT, steps);
            && s.handlers[h] != Blocked
            && (s.handlers[h] == Launched ==> s.pool != [] && Count(s.handlers, IsLaunched) <= |s.pool|)
  {
    ReachableInv(steps);
    var s := Run(INIT, steps);
    if s.handlers[h] == Launched {
      FetchFindsSupply(s, h);
    }
  }

  /** Handlers are served in the order of acceptance, and no connection goes to two of them. */
  lemma {:induction false} ConnectionsAreServedOnceInOrder(steps: seq<Step>, g: nat, h: nat, c: nat)
    requires Legal(INIT, steps) && g < h < |Run(INIT, steps).handlers|
    requires HandlerHolds(Run(INIT, steps).handlers[g], c)
    ensures var s := Run(INIT, steps);
            && !HandlerHolds(s.handlers[h], c)
            && s.fetched == Upto(|s.fetched|)
            && c in s.fetched && c !in s.pool
  {
    ReachableInv(steps);
    var s := Run(INIT, steps);
    var all := s.fetched + s.dropped + s.pool;
    assert forall k :: 0 <= k < |s.fetched| ==> s.fetched[k] == all[k];
    assert forall k :: 0 <= k < |s.pool| ==> s.pool[k] == all[|s.fetched| + |s.dropped| + k];
    assert s.fetched[c] == c;
  }

  /** At any moment of any run, each connection has been closed at most once, an unclosed one still
      has an owner who will close it, and its descriptor is open and nobody else's. */
  lemma {:induction false} NeverClosedTwice(steps: seq<Step>, c: nat)
    requires Legal(INIT, steps) && c < |Run(INIT, steps).conns|
    ensures var s := Run(INIT, steps);
            && s.conns[c].closes <= 1
            && (s.conns[c].closes == 0 ==> Referenced(s, c) && s.conns[c].fd in s.kernel)
            && (s.conns[c].closes == 0 ==>
                 forall d :: 0 <= d < |s.conns| && d != c && s.conns[d].closes == 0 ==> s.conns[d].fd != s.conns[c].fd)
  {
    ReachableInv(steps);
  }

  /** When `run` returns, every launched handler has finished, what the pool still held are exactly
      the connections whose launch failed, every accepted connection has been closed exactly once,
      whichever way it ended, and no descriptor is left open. */
  lemma {:induction false} EverythingIsClosedOnReturn(steps: seq<Step>)
    requires Legal(INIT, steps) && Run(INIT, steps).acceptor == Returned
    ensures var s := Run(INIT, steps);
            && (forall h :: 0 <= h < |s.handlers| ==> s.handlers[h] == Finished)
            && |s.dropped| == s.failed
            && |s.fetched| + s.failed == |s.conns|
            && (forall c :: 0 <= c < |s.conns| ==> s.conns[c].closes == 1)
            && s.kernel == {}
  {
    ReachableInv(steps);
    var s := Run(INIT, steps);
    CountNone(s.handlers, IsLaunched);
    forall c | 0 <= c < |s.conns| ensures !s.conns[c].open {
      assert !Referenced(s, c);
    }
    assert |s.fetched + s.dropped + s.pool| == |s.conns|;
  }

  // ---------------------------------------------------------------- the way out of `run`

  /** Past the accept loop. */
  predicate Leaves(pc: AcceptorPc) {
    pc == Draining || pc == Tearing || pc == Returned
  }

  function HandlerRank(pc: HandlerPc): nat {
    match pc
    case Finished => 0
    case Handled(_) => 1
    case Holding(_) => 2
    case Launched => 3
    case Blocked => 4
  }

  function HandlerRanks(handlers: seq<HandlerPc>): nat {
    if handlers == [] then 0 else HandlerRank(handlers[0]) + HandlerRanks(handlers[1..])
  }

  function AcceptorRank(pc: AcceptorPc): nat {
    match pc
    case Draining => 2
    case Tearing => 1
    case _ => 0
  }

  /** What is left to do once the loop is over: every handler has to finish, the futures to be waited
      for, and the pool to be emptied. */
  function Remaining(s: State): nat {
    HandlerRanks(s.handlers) + |s.pool| + AcceptorRank(s.acceptor)
  }

  lemma {:induction false} RanksUpdate(handlers: seq<HandlerPc>, h: nat, pc: HandlerPc)
    requires h < |handlers|
    ensures HandlerRanks(handlers[h := pc]) + HandlerRank(handlers[h]) == HandlerRanks(handlers) + HandlerRank(pc)
  {
    if h == 0 {
      assert handlers[h := pc][1..] == handlers[1..];
    } else {
      RanksUpdate(handlers[1..], h - 1, pc);
      assert handlers[h := pc][1..] == handlers[1..][h - 1 := pc];
    }
  }

  lemma LeavingHandlerStep(s: State, step: Step)
    requires Inv(s) && Enabled(s, step) && Leaves(s.acceptor) && !IsAcceptorStep(step)
    ensures var t := Next(s, step);
            Leaves(t.acceptor) && Remaining(t) < Remaining(s)
  {
    var t := Next(s, step);
    if step.Fetch? {
      FetchFindsSupply(s, step.h);
    }
    HandlerStepKeepsFutures(s, step);
    RanksUpdate(s.handlers, step.h, t.handlers[step.h]);
    HandlerStepCounts(s, step);
    hide Inv, Enabled, Next, HandlerRanks;
  }

  lemma HandlerStepCounts(s: State, step: Step)
    requires SupplyInv(s) && Enabled(s, step) && !IsAcceptorStep(step) && (step.Fetch? ==> s.pool != [])
    ensures var t := Next(s, step);
            HandlerRank(t.handlers[step.h]) < HandlerRank(s.handlers[step.h]) && |t.pool| <= |s.pool|
  {
    match step
    case HandleAndClose(h) => CloseKeepsTheRest(SetHandler(s, h, Handled(s.handlers[h].c)), s.handlers[h].c);
    case Release(h) => CollectKeepsTheRest(SetHandler(s, h, Finished), s.handlers[h].c);
    case _ =>
  }

  lemma LeavingAcceptorStep(s: State, step: Step)
    requires Enabled(s, step) && Leaves(s.acceptor) && IsAcceptorStep(step)
    ensures var t := Next(s, step);
            Leaves(t.acceptor) && Remaining(t) < Remaining(s)
  {
    hide HandlerRanks, Collect;
    if step.DropPooled? {
      CollectKeepsTheRest(s.(pool := s.pool[1..], dropped := s.dropped + [s.pool[0]]), s.pool[0]);
    }
  }

  /** However the threads interleave, only so many steps are left once the loop is over. */
  lemma {:induction false} ReturnIsBounded(s: State, steps: seq<Step>)
    requires Inv(s) && Leaves(s.acceptor) && Legal(s, steps)
    ensures Leaves(Run(s, steps).acceptor) && |steps| + Remaining(Run(s, steps)) <= Remaining(s)
    decreases steps
  {
    if steps != [] {
      InvStep(s, steps[0]);
      if IsAcceptorStep(steps[0]) {
        LeavingAcceptorStep(s, steps[0]);
      } else {
        LeavingHandlerStep(s, steps[0]);
      }
      hide Inv, Next, Enabled, Remaining;
      ReturnIsBounded(Next(s, steps[0]), steps[1..]);
    }
  }

  /** The step of a handler that is not blocked in the pool. */
  lemma HandlerCanMove(s: State, h: nat)
    requires Inv(s) && h < |s.handlers| && s.handlers[h] != Finished
    ensures exists step :: Enabled(s, step) && !step.WakeBlocked? && !IsAcceptorStep(step)
  {
    hide CloseInv, KernelInv, FutureInv;
    FetchedAreConns(s);
    assert s.handlers[h] != Blocked;
    var step := if s.handlers[h] == Launched then Fetch(h)
                else if s.handlers[h].Holding? then HandleWithoutClose(h) else Release(h);
    if s.handlers[h] != Launched {
      assert HandlerHolds(s.handlers[h], s.handlers[h].c);
    }
    assert Enabled(s, step);
  }

  lemma FetchedAreConns(s: State)
    requires FifoInv(s)
    ensures |s.fetched| <= |s.conns|
    ensures s.pool != [] ==> s.pool[0] < |s.conns|
  {
    var all := s.fetched + s.dropped + s.pool;
    assert |all| == Added(s);
    assert s.pool != [] ==> all[|s.fetched| + |s.dropped|] == s.pool[0];
  }

  /** And until `run` has returned, some thread can take one of them. */
  lemma {:induction false} ReturnProgresses(s: State)
    requires Inv(s) && Leaves(s.acceptor) && s.acceptor != Returned
    ensures exists step :: Enabled(s, step) && !step.WakeBlocked?
  {
    if s.acceptor == Draining {
      if h :| h in s.futures && !IsReady(h, s.handlers) {
        HandlerCanMove(s, h);
      } else {
        assert Enabled(s, FuturesReady);
      }
    } else {
      FetchedAreConns(s);
      assert Enabled(s, if s.pool == [] then Return else DropPooled);
    }
  }
}
