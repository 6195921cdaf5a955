/** The deduplicating pipeline queue and its close handshake as a transition system
    (internal/pipeline/service.go, service_workers.go).

    Enqueuers, workers and the closer are threads; each operation on the pending set,
    the closing flag, the lock and the channel is one step. A request is its key. */
module PipelineQueue {
  import opened Basics

  type Thread = nat
  type Key = string

  datatype Phase =
    | Idle
    // Enqueue
    | Entering(key: Key)        // past the first look at the closing flag
    | Holding(key: Key)         // key added to the pending set, before RLock
    | Inside(key: Key)          // holds the lock shared, before the second look
    | Sending(key: Key)         // saw the flag down, before the select
    | Dropping(key: Key)        // gives the request up, before the key leaves the pending set
    | Leaving                   // before RUnlock
    // runWorker
    | Waiting
    | Running(key: Key)
    // closeTaskQueue
    | Flagged                   // closing flag stored
    | Cancelled                 // worker context cancelled, before Lock
    | Exclusive                 // holds the lock exclusively, before close
    | Closed                    // channel closed, before Unlock

  datatype State = State(
    phases: map<Thread, Phase>,
    pending: set<Key>,
    queue: seq<Key>,
    capacity: nat,
    closeStarted: bool,         // the sync.Once of closeTaskQueue
    closing: bool,
    cancelled: bool,
    closed: bool,
    sentOnClosed: bool)         // a send on the closed channel has happened

  predicate HoldsShared(p: Phase) {
    p.Inside? || p.Sending? || p.Dropping? || p.Leaving?
  }

  predicate HoldsExclusive(p: Phase) {
    p.Exclusive? || p.Closed?
  }

  /** The key a thread answers for: an enqueuer in flight, or a worker. */
  function Held(p: Phase): Option<Key> {
    match p
    case Holding(k) => Some(k)
    case Inside(k) => Some(k)
    case Sending(k) => Some(k)
    case Dropping(k) => Some(k)
    case Running(k) => Some(k)
    case _ => None
  }

  predicate At(s: State, t: Thread, p: Phase) {
    t in s.phases && s.phases[t] == p
  }

  function Move(s: State, t: Thread, p: Phase): State {
    s.(phases := s.phases[t := p])
  }

  ghost predicate Init(s: State) {
    && (forall t :: t in s.phases ==> s.phases[t] == Idle || s.phases[t] == Waiting)
    && s.pending == {} && s.queue == []
    && !s.closeStarted && !s.closing && !s.cancelled && !s.closed && !s.sentOnClosed
  }

  // ---- Steps --------------------------------------------------------------------------------

  ghost predicate Enter(s: State, s': State, t: Thread, k: Key) {
    At(s, t, Idle) && !s.closing && s' == Move(s, t, Entering(k))
  }

  ghost predicate AddIfAbsent(s: State, s': State, t: Thread, k: Key) {
    && At(s, t, Entering(k))
    && s' == if k in s.pending then Move(s, t, Idle) else Move(s.(pending := s.pending + {k}), t, Holding(k))
  }

  ghost predicate LockShared(s: State, s': State, t: Thread, k: Key) {
    && At(s, t, Holding(k))
    && (forall u :: u in s.phases ==> !HoldsExclusive(s.phases[u]))
    && s' == Move(s, t, Inside(k))
  }

  ghost predicate LookAgain(s: State, s': State, t: Thread, k: Key) {
    At(s, t, Inside(k)) && s' == Move(s, t, if s.closing then Dropping(k) else Sending(k))
  }

  /** The select: a send when there is room, else the default branch. */
  ghost predicate Send(s: State, s': State, t: Thread, k: Key) {
    && At(s, t, Sending(k))
    && s' == if s.closed then Move(s.(sentOnClosed := true), t, Leaving)
             else if |s.queue| < s.capacity then Move(s.(queue := s.queue + [k]), t, Leaving)
             else Move(s, t, Dropping(k))
  }

  ghost predicate Drop(s: State, s': State, t: Thread, k: Key) {
    At(s, t, Dropping(k)) && s' == Move(s.(pending := s.pending - {k}), t, Leaving)
  }

  ghost predicate UnlockShared(s: State, s': State, t: Thread) {
    At(s, t, Leaving) && s' == Move(s, t, Idle)
  }

  ghost predicate Receive(s: State, s': State, t: Thread) {
    At(s, t, Waiting) && s.queue != [] && s' == Move(s.(queue := s.queue[1..]), t, Running(s.queue[0]))
  }

  ghost predicate Quit(s: State, s': State, t: Thread) {
    At(s, t, Waiting) && (s.cancelled || (s.closed && s.queue == [])) && s' == Move(s, t, Idle)
  }

  ghost predicate Finish(s: State, s': State, t: Thread, k: Key) {
    At(s, t, Running(k)) && s' == Move(s.(pending := s.pending - {k}), t, Waiting)
  }

  ghost predicate StartClose(s: State, s': State, t: Thread) {
    At(s, t, Idle) && !s.closeStarted && s' == Move(s.(closeStarted := true, closing := true), t, Flagged)
  }

  ghost predicate Cancel(s: State, s': State, t: Thread) {
    At(s, t, Flagged) && s' == Move(s.(cancelled := true), t, Cancelled)
  }

  ghost predicate LockExclusive(s: State, s': State, t: Thread) {
    && At(s, t, Cancelled)
    && (forall u :: u in s.phases ==> !HoldsShared(s.phases[u]) && !HoldsExclusive(s.phases[u]))
    && s' == Move(s, t, Exclusive)
  }

  ghost predicate Close(s: State, s': State, t: Thread) {
    At(s, t, Exclusive) && s' == Move(s.(closed := true), t, Closed)
  }

  ghost predicate UnlockExclusive(s: State, s': State, t: Thread) {
    At(s, t, Closed) && s' == Move(s, t, Idle)
  }

  datatype Action =
    | EnterStep(k: Key) | AddStep(k: Key) | LockSharedStep(k: Key) | LookStep(k: Key) | SendStep(k: Key) | DropStep(k: Key)
    | UnlockSharedStep | ReceiveStep | QuitStep | FinishStep(k: Key) | StartCloseStep | CancelStep
    | LockExclusiveStep | CloseStep | UnlockExclusiveStep

  ghost predicate Takes(s: State, s': State, t: Thread, a: Action) {
    match a
    case EnterStep(k) => Enter(s, s', t, k)
    case AddStep(k) => AddIfAbsent(s, s', t, k)
    case LockSharedStep(k) => LockShared(s, s', t, k)
    case LookStep(k) => LookAgain(s, s', t, k)
    case SendStep(k) => Send(s, s', t, k)
    case DropStep(k) => Drop(s, s', t, k)
    case UnlockSharedStep => UnlockShared(s, s', t)
    case ReceiveStep => Receive(s, s', t)
    case QuitStep => Quit(s, s', t)
    case FinishStep(k) => Finish(s, s', t, k)
    case StartCloseStep => StartClose(s, s', t)
    case CancelStep => Cancel(s, s', t)
    case LockExclusiveStep => LockExclusive(s, s', t)
    case CloseStep => Close(s, s', t)
    case UnlockExclusiveStep => UnlockExclusive(s, s', t)
  }

  ghost predicate Next(s: State, s': State) {
    exists t, a :: Takes(s, s', t, a)
  }

  ghost predicate IsRun(run: seq<State>) {
    run != [] && Init(run[0]) && forall i :: 0 <= i < |run| - 1 ==> Next(run[i], run[i + 1])
  }

  // ---- The invariant ---------------------------------------------------------------------------

  ghost predicate HeldBy(s: State, t: Thread, k: Key) {
    t in s.phases && Held(s.phases[t]) == Some(k)
  }

  predicate DistinctKeys(queue: seq<Key>) {
    forall i, j :: 0 <= i < j < |queue| ==> queue[i] != queue[j]
  }

  /** The pending set is the disjoint union of the keys threads hold and the queued keys. */
  ghost predicate DisjointUnion(s: State) {
    && DistinctKeys(s.queue)
    && (forall t, k :: HeldBy(s, t, k) ==> k in s.pending && k !in s.queue)
    && (forall t, u, k :: HeldBy(s, t, k) && HeldBy(s, u, k) ==> t == u)
    && (forall k :: k in s.queue ==> k in s.pending)
    && (forall k :: k in s.pending ==> k in s.queue || exists t :: HeldBy(s, t, k))
  }

  /** The lock keeps the closer and the threads inside apart. */
  ghost predicate Apart(s: State) {
    forall t, u :: t in s.phases && u in s.phases && HoldsExclusive(s.phases[t]) ==> !HoldsShared(s.phases[u])
  }

  /** The closing flag is up before the close. */
  ghost predicate FlagFirst(s: State) {
    && (s.closed ==> s.closing)
    && (forall t :: t in s.phases && (s.phases[t].Flagged? || s.phases[t].Cancelled? || HoldsExclusive(s.phases[t])) ==> s.closing)
  }

  ghost predicate NoSendOnClosed(s: State) {
    && (forall t :: t in s.phases && s.phases[t].Sending? ==> !s.closed)
    && !s.sentOnClosed
  }

  ghost predicate Handshake(s: State) {
    Apart(s) && FlagFirst(s) && NoSendOnClosed(s)
  }

  ghost predicate Inv(s: State) {
    DisjointUnion(s) && Handshake(s) && |s.queue| <= s.capacity
  }

  function PhaseOf(s: State, t: Thread): Phase {
    if t in s.phases then s.phases[t] else Idle
  }

  /** A step moves one thread; it gains a lock only while nobody holds a conflicting one. */
  lemma OnlyOneMoves(s: State, s': State, t: Thread, a: Action)
    requires Takes(s, s', t, a)
    ensures t in s.phases && s'.phases == s.phases[t := PhaseOf(s', t)]
    ensures HoldsShared(PhaseOf(s', t)) ==>
              HoldsShared(s.phases[t]) || forall u :: u in s.phases ==> !HoldsExclusive(s.phases[u])
    ensures HoldsExclusive(PhaseOf(s', t)) ==>
              HoldsExclusive(s.phases[t]) || forall u :: u in s.phases ==> !HoldsShared(s.phases[u])
    ensures s'.closed ==> s.closed || s.phases[t].Exclusive?
    ensures s.closing ==> s'.closing
  {
    if TakesLock(a) {
      LocksAreTakenFree(s, s', t, a);
    } else if IsEnqueuing(a) {
      EnqueuersTakeNoLock(s, s', t, a);
    } else if IsClosing(a) {
      ClosersTakeNoLock(s, s', t, a);
    } else {
      WorkersTakeNoLock(s, s', t, a);
    }
  }

  predicate TakesLock(a: Action) {
    a.LockSharedStep? || a.LockExclusiveStep?
  }

  predicate IsEnqueuing(a: Action) {
    a.EnterStep? || a.AddStep? || a.LookStep? || a.SendStep? || a.DropStep? || a.UnlockSharedStep?
  }

  predicate IsClosing(a: Action) {
    a.StartCloseStep? || a.CancelStep? || a.CloseStep? || a.UnlockExclusiveStep?
  }

  /** The thread moves, to a phase with no lock that it did not have, and closes only while
      it holds the lock exclusively. */
  ghost predicate MovesWithoutLocking(s: State, s': State, t: Thread) {
    && t in s.phases && s'.phases == s.phases[t := PhaseOf(s', t)]
    && (HoldsShared(PhaseOf(s', t)) ==> HoldsShared(s.phases[t]))
    && (HoldsExclusive(PhaseOf(s', t)) ==> HoldsExclusive(s.phases[t]))
    && (s'.closed ==> s.closed || s.phases[t].Exclusive?)
    && (s.closing ==> s'.closing)
  }

  lemma LocksAreTakenFree(s: State, s': State, t: Thread, a: Action)
    requires Takes(s, s', t, a) && TakesLock(a)
    ensures t in s.phases && s'.phases == s.phases[t := PhaseOf(s', t)] && s'.closed == s.closed && s'.closing == s.closing
    ensures HoldsShared(PhaseOf(s', t)) ==> forall u :: u in s.phases ==> !HoldsExclusive(s.phases[u])
    ensures HoldsExclusive(PhaseOf(s', t)) ==> forall u :: u in s.phases ==> !HoldsShared(s.phases[u])
  {
  }

  lemma EnqueuersTakeNoLock(s: State, s': State, t: Thread, a: Action)
    requires Takes(s, s', t, a) && IsEnqueuing(a)
    ensures MovesWithoutLocking(s, s', t)
  {
  }

  lemma ClosersTakeNoLock(s: State, s': State, t: Thread, a: Action)
    requires Takes(s, s', t, a) && IsClosing(a)
    ensures MovesWithoutLocking(s, s', t)
  {
  }

  lemma WorkersTakeNoLock(s: State, s': State, t: Thread, a: Action)
    requires Takes(s, s', t, a) && !TakesLock(a) && !IsEnqueuing(a) && !IsClosing(a)
    ensures MovesWithoutLocking(s, s', t)
  {
  }

  lemma StepKeepsApart(s: State, s': State, t: Thread, a: Action)
    requires Apart(s) && Takes(s, s', t, a)
    ensures Apart(s')
  {
    OnlyOneMoves(s, s', t, a);
    assert !(HoldsShared(PhaseOf(s', t)) && HoldsExclusive(PhaseOf(s', t)));
  }

  lemma StepKeepsFlagFirst(s: State, s': State, t: Thread, a: Action)
    requires FlagFirst(s) && Takes(s, s', t, a)
    ensures FlagFirst(s')
  {
  }

  lemma StepKeepsNoSend(s: State, s': State, t: Thread, a: Action)
    requires Handshake(s) && Takes(s, s', t, a)
    ensures NoSendOnClosed(s')
  {
    OnlyOneMoves(s, s', t, a);
    if s'.closed && !s.closed {
      assert a.CloseStep?;
    }
  }

  lemma StepKeepsHandshake(s: State, s': State, t: Thread, a: Action)
    requires Handshake(s) && Takes(s, s', t, a)
    ensures Handshake(s')
  {
    StepKeepsApart(s, s', t, a);
    StepKeepsFlagFirst(s, s', t, a);
    StepKeepsNoSend(s, s', t, a);
  }

  // ---- How the keys move --------------------------------------------------------------------------

  /** A step moves at most one key between a thread, the queue and the outside. */
  ghost predicate KeyMoves(s: State, s': State, t: Thread) {
    && t in s.phases && s'.phases.Keys == s.phases.Keys
    && (forall u :: u in s.phases && u != t ==> s'.phases[u] == s.phases[u])
    && var before, after := Held(s.phases[t]), Held(s'.phases[t]);
       || (before == after && s'.pending == s.pending && s'.queue == s.queue)
       || (before == None && after.Some? && after.value !in s.pending
           && s'.pending == s.pending + {after.value} && s'.queue == s.queue)
       || (before.Some? && after == None && s'.pending == s.pending && s'.queue == s.queue + [before.value])
       || (before.Some? && after == None && s'.pending == s.pending - {before.value} && s'.queue == s.queue)
       || (before == None && s.queue != [] && after == Some(s.queue[0])
           && s'.pending == s.pending && s'.queue == s.queue[1..])
  }

  lemma SendMovesKey(s: State, s': State, t: Thread, k: Key)
    requires NoSendOnClosed(s) && Send(s, s', t, k)
    ensures KeyMoves(s, s', t)
  {
  }

  lemma QueueMovesKey(s: State, s': State, t: Thread, a: Action)
    requires Takes(s, s', t, a) && (a.ReceiveStep? || a.FinishStep? || a.DropStep? || a.AddStep?)
    ensures KeyMoves(s, s', t)
  {
  }

  lemma OtherMovesNoKey(s: State, s': State, t: Thread, a: Action)
    requires Takes(s, s', t, a)
    requires !(a.ReceiveStep? || a.FinishStep? || a.DropStep? || a.AddStep? || a.SendStep?)
    ensures KeyMoves(s, s', t)
  {
    OnlyOneMoves(s, s', t, a);
    assert Held(s.phases[t]) == Held(s'.phases[t]) && s'.pending == s.pending && s'.queue == s.queue;
  }

  lemma StepMovesKey(s: State, s': State, t: Thread, a: Action)
    requires Handshake(s) && Takes(s, s', t, a)
    ensures KeyMoves(s, s', t)
  {
    if a.SendStep? {
      SendMovesKey(s, s', t, a.k);
    } else if a.ReceiveStep? || a.FinishStep? || a.DropStep? || a.AddStep? {
      QueueMovesKey(s, s', t, a);
    } else {
      OtherMovesNoKey(s, s', t, a);
    }
  }

  lemma HeldAfter(s: State, s': State, t: Thread, u: Thread, k: Key)
    requires KeyMoves(s, s', t)
    ensures HeldBy(s', u, k) <==> if u == t then Held(s'.phases[t]) == Some(k) else HeldBy(s, u, k)
  {
  }

  lemma KeyMoveKeepsUnion(s: State, s': State, t: Thread)
    requires DisjointUnion(s) && KeyMoves(s, s', t)
    ensures DisjointUnion(s')
  {
    forall u, k ensures HeldBy(s', u, k) <==> if u == t then Held(s'.phases[t]) == Some(k) else HeldBy(s, u, k) {
      HeldAfter(s, s', t, u, k);
    }
    forall k | k in s'.pending
      ensures k in s'.queue || exists u :: HeldBy(s', u, k)
    {
      if k in s.pending && k !in s.queue {
        var u :| HeldBy(s, u, k);
        assert HeldBy(s', u, k) || u == t;
      }
      assert Held(s'.phases[t]) == Some(k) ==> HeldBy(s', t, k);
    }
    assert forall k :: Held(s.phases[t]) == Some(k) ==> HeldBy(s, t, k);
  }

  lemma StepKeepsInv(s: State, s': State, t: Thread, a: Action)
    requires Inv(s) && Takes(s, s', t, a)
    ensures Inv(s')
  {
    StepKeepsHandshake(s, s', t, a);
    StepMovesKey(s, s', t, a);
    KeyMoveKeepsUnion(s, s', t);
  }

  lemma {:induction false} RunKeepsInv(run: seq<State>, i: nat)
    requires IsRun(run) && i < |run|
    ensures Inv(run[i])
  {
    if i > 0 {
      RunKeepsInv(run, i - 1);
      assert Next(run[i - 1], run[i - 1 + 1]);
      var t, a :| Takes(run[i - 1], run[i], t, a);
      StepKeepsInv(run[i - 1], run[i], t, a);
    }
  }

  // ---- What follows for every run -------------------------------------------------------------------

  lemma NothingSentOnClosed(run: seq<State>, i: nat)
    requires IsRun(run) && i < |run|
    ensures !run[i].sentOnClosed
  {
    RunKeepsInv(run, i);
  }

  /** No two requests that are queued or being processed share a key. */
  lemma NoDuplicateWork(run: seq<State>, i: nat, t: Thread, u: Thread, k: Key)
    requires IsRun(run) && i < |run|
    requires t in run[i].phases && run[i].phases[t] == Running(k)
    ensures k !in run[i].queue && DistinctKeys(run[i].queue)
    ensures u in run[i].phases && run[i].phases[u] == Running(k) ==> t == u
  {
    RunKeepsInv(run, i);
    assert HeldBy(run[i], t, k);
    assert u in run[i].phases && run[i].phases[u] == Running(k) ==> HeldBy(run[i], u, k);
  }

  /** Once nothing is queued, in flight or running, every key may be enqueued again. */
  lemma IdleForgetsEveryKey(run: seq<State>, i: nat)
    requires IsRun(run) && i < |run| && run[i].queue == []
    requires forall t :: t in run[i].phases ==> Held(run[i].phases[t]) == None
    ensures run[i].pending == {}
  {
    RunKeepsInv(run, i);
  }

  // ---- What a call is good for ------------------------------------------------------------------

  /** Why the request of thread t was not queued, if it was not: its key was pending, the flag
      was up at the second look, or the queue was full when it was to be sent. */
  predicate Refused(s: State, t: Thread, k: Key) {
    || (At(s, t, Entering(k)) && k in s.pending)
    || (At(s, t, Inside(k)) && s.closing)
    || (At(s, t, Sending(k)) && (s.closed || |s.queue| >= s.capacity))
  }

  /** The step puts the key at the end of the queue. */
  predicate Queues(s: State, s': State, k: Key) {
    s'.queue == s.queue + [k]
  }

  predicate DecidedAt(run: seq<State>, m: nat, t: Thread, k: Key)
    requires m + 1 < |run|
  {
    Refused(run[m], t, k) || Queues(run[m], run[m + 1], k)
  }

  ghost predicate Settled(run: seq<State>, i: nat, j: nat, t: Thread, k: Key)
    requires j < |run|
  {
    exists m :: i <= m < j && DecidedAt(run, m, t, k)
  }

  /** The thread is on its way with the key, and nothing has been decided. */
  predicate OnItsWay(s: State, t: Thread, k: Key) {
    At(s, t, Entering(k)) || At(s, t, Holding(k)) || At(s, t, Inside(k)) || At(s, t, Sending(k))
  }

  lemma StepDecides(s: State, s': State, u: Thread, a: Action, t: Thread, k: Key)
    requires Takes(s, s', u, a) && OnItsWay(s, t, k)
    ensures OnItsWay(s', t, k) || Refused(s, t, k) || Queues(s, s', k)
  {
  }

  lemma NextDecides(run: seq<State>, m: nat, t: Thread, k: Key)
    requires IsRun(run) && m + 1 < |run| && OnItsWay(run[m], t, k)
    ensures OnItsWay(run[m + 1], t, k) || DecidedAt(run, m, t, k)
  {
    assert Next(run[m], run[m + 1]);
    var u, a :| Takes(run[m], run[m + 1], u, a);
    StepDecides(run[m], run[m + 1], u, a, t, k);
  }

  lemma {:induction false} UntilDecided(on: nat -> bool, decided: nat -> bool, i: nat, j: nat)
    requires i <= j && on(i) && forall m :: i <= m < j && on(m) ==> on(m + 1) || decided(m)
    ensures on(j) || exists m :: i <= m < j && decided(m)
    decreases j
  {
    if i < j {
      UntilDecided(on, decided, i, j - 1);
      assert on(j - 1) ==> on(j - 1 + 1) || decided(j - 1);
    }
  }

  predicate Onward(run: seq<State>, m: nat, t: Thread, k: Key)
    requires m + 1 < |run|
  {
    OnItsWay(run[m], t, k) ==> OnItsWay(run[m + 1], t, k) || DecidedAt(run, m, t, k)
  }

  lemma AlwaysOnward(run: seq<State>, t: Thread, k: Key)
    requires IsRun(run)
    ensures forall m: nat :: m + 1 < |run| ==> Onward(run, m, t, k)
  {
    forall m: nat | m + 1 < |run| ensures Onward(run, m, t, k) {
      if OnItsWay(run[m], t, k) {
        NextDecides(run, m, t, k);
      }
    }
  }

  lemma CallIsDecided(run: seq<State>, i: nat, j: nat, t: Thread, k: Key)
    requires (forall m: nat :: m + 1 < |run| ==> Onward(run, m, t, k)) && i <= j < |run| && OnItsWay(run[i], t, k)
    ensures OnItsWay(run[j], t, k) || Settled(run, i, j, t, k)
  {
    var on := (m: nat) => m < |run| && OnItsWay(run[m], t, k);
    var decided := (m: nat) => m + 1 < |run| && DecidedAt(run, m, t, k);
    forall m | i <= m < j && on(m) ensures on(m + 1) || decided(m) {
      assert Onward(run, m, t, k);
    }
    UntilDecided(on, decided, i, j);
    if !on(j) {
      var m :| i <= m < j && decided(m);
      assert DecidedAt(run, m, t, k);
    }
  }

  /** A call of Enqueue that has returned has queued its request, or there was a reason not to. */
  lemma EnqueuedUnlessRefused(run: seq<State>, i: nat, j: nat, t: Thread, k: Key)
    requires IsRun(run) && i < j < |run| && Takes(run[i], run[i + 1], t, EnterStep(k)) && At(run[j], t, Idle)
    ensures Settled(run, i + 1, j, t, k)
  {
    AlwaysOnward(run, t, k);
    CallIsDecided(run, i + 1, j, t, k);
  }

  // ---- A call on its own -----------------------------------------------------------------------

  ghost predicate TakesAll(run: seq<State>, t: Thread, actions: seq<Action>) {
    |run| == |actions| + 1 && forall i :: 0 <= i < |actions| ==> Takes(run[i], run[i + 1], t, actions[i])
  }

  predicate NobodyExclusive(s: State) {
    forall u :: u in s.phases ==> !HoldsExclusive(s.phases[u])
  }

  /** Up to the lock: the key is added to the pending set. */
  lemma EnterAlone(s: State, t: Thread, k: Key) returns (run: seq<State>)
    requires At(s, t, Idle) && !s.closing && k !in s.pending && NobodyExclusive(s)
    ensures TakesAll(run, t, [EnterStep(k), AddStep(k), LockSharedStep(k), LookStep(k)])
    ensures run[0] == s && run[4] == Move(s.(pending := s.pending + {k}), t, Sending(k))
  {
    var s1 := Move(s, t, Entering(k));
    var s2 := Move(s1.(pending := s.pending + {k}), t, Holding(k));
    var s3 := Move(s2, t, Inside(k));
    var s4 := Move(s3, t, Sending(k));
    run := [s, s1, s2, s3, s4];
    assert s4.phases == s.phases[t := Sending(k)];
    assert forall u :: u in s2.phases && u != t ==> s2.phases[u] == s.phases[u];
  }

  /** A new key finds its way into a queue with room. */
  lemma EnqueueAlone(s: State, t: Thread, k: Key) returns (run: seq<State>)
    requires At(s, t, Idle) && !s.closing && !s.closed && k !in s.pending && |s.queue| < s.capacity && NobodyExclusive(s)
    ensures TakesAll(run, t, [EnterStep(k), AddStep(k), LockSharedStep(k), LookStep(k), SendStep(k), UnlockSharedStep])
    ensures run[0] == s && run[6] == s.(pending := s.pending + {k}, queue := s.queue + [k])
  {
    var enter := EnterAlone(s, t, k);
    var s5 := Move(enter[4].(queue := s.queue + [k]), t, Leaving);
    var s6 := Move(s5, t, Idle);
    run := enter + [s5, s6];
    assert s6.phases == s.phases;
    var actions := [EnterStep(k), AddStep(k), LockSharedStep(k), LookStep(k), SendStep(k), UnlockSharedStep];
    forall i | 0 <= i < 6 ensures Takes(run[i], run[i + 1], t, actions[i]) {
      if i < 4 {
        assert Takes(enter[i], enter[i + 1], t, [EnterStep(k), AddStep(k), LockSharedStep(k), LookStep(k)][i]);
      }
    }
  }

  /** A new key that finds the queue full leaves no trace. */
  lemma FullAlone(s: State, t: Thread, k: Key) returns (run: seq<State>)
    requires At(s, t, Idle) && !s.closing && !s.closed && k !in s.pending && |s.queue| >= s.capacity && NobodyExclusive(s)
    ensures TakesAll(run, t, [EnterStep(k), AddStep(k), LockSharedStep(k), LookStep(k), SendStep(k), DropStep(k), UnlockSharedStep])
    ensures run[0] == s && run[7] == s
  {
    var enter := EnterAlone(s, t, k);
    var s5 := Move(enter[4], t, Dropping(k));
    var s6 := Move(s5.(pending := s5.pending - {k}), t, Leaving);
    var s7 := Move(s6, t, Idle);
    run := enter + [s5, s6, s7];
    assert s7.phases == s.phases;
    assert s.pending + {k} - {k} == s.pending;
    var actions := [EnterStep(k), AddStep(k), LockSharedStep(k), LookStep(k), SendStep(k), DropStep(k), UnlockSharedStep];
    forall i | 0 <= i < 7 ensures Takes(run[i], run[i + 1], t, actions[i]) {
      if i < 4 {
        assert Takes(enter[i], enter[i + 1], t, [EnterStep(k), AddStep(k), LockSharedStep(k), LookStep(k)][i]);
      }
    }
  }

  /** A pending key is not queued again. */
  lemma DuplicateAlone(s: State, t: Thread, k: Key) returns (run: seq<State>)
    requires At(s, t, Idle) && !s.closing && k in s.pending
    ensures TakesAll(run, t, [EnterStep(k), AddStep(k)]) && run[0] == s && run[2] == s
  {
    var s1 := Move(s, t, Entering(k));
    run := [s, s1, s];
    assert Move(s1, t, Idle).phases == s.phases;
  }

  /** A worker takes the oldest request and, when it is done with it, forgets its key. */
  lemma WorkAlone(s: State, t: Thread) returns (run: seq<State>)
    requires At(s, t, Waiting) && s.queue != []
    ensures TakesAll(run, t, [ReceiveStep, FinishStep(s.queue[0])]) && run[0] == s
    ensures run[2] == s.(queue := s.queue[1..], pending := s.pending - {s.queue[0]})
  {
    var s1 := Move(s.(queue := s.queue[1..]), t, Running(s.queue[0]));
    var s2 := Move(s1.(pending := s.pending - {s.queue[0]}), t, Waiting);
    run := [s, s1, s2];
    assert s2.phases == s.phases;
  }

  lemma CloseLocked(s: State, t: Thread) returns (run: seq<State>)
    requires At(s, t, Cancelled) && forall u :: u in s.phases ==> !HoldsShared(s.phases[u]) && !HoldsExclusive(s.phases[u])
    ensures TakesAll(run, t, [LockExclusiveStep, CloseStep, UnlockExclusiveStep])
    ensures run[0] == s && run[3] == Move(s.(closed := true), t, Idle)
  {
    var s1 := Move(s, t, Exclusive);
    var s2 := Move(s1.(closed := true), t, Closed);
    var s3 := Move(s2, t, Idle);
    run := [s, s1, s2, s3];
    assert s3.phases == s.phases[t := Idle];
  }

  /** Closing raises the flag, cancels, and closes the channel. */
  lemma CloseAlone(s: State, t: Thread) returns (run: seq<State>)
    requires At(s, t, Idle) && !s.closeStarted && forall u :: u in s.phases ==> !HoldsShared(s.phases[u]) && !HoldsExclusive(s.phases[u])
    ensures TakesAll(run, t, [StartCloseStep, CancelStep, LockExclusiveStep, CloseStep, UnlockExclusiveStep])
    ensures run[0] == s && run[5] == s.(closeStarted := true, closing := true, cancelled := true, closed := true)
  {
    var s1 := Move(s.(closeStarted := true, closing := true), t, Flagged);
    var s2 := Move(s1.(cancelled := true), t, Cancelled);
    var rest := CloseLocked(s2, t);
    run := [s, s1] + rest;
    assert run[5].phases == s.phases;
    var actions := [StartCloseStep, CancelStep, LockExclusiveStep, CloseStep, UnlockExclusiveStep];
    forall i | 0 <= i < 5 ensures Takes(run[i], run[i + 1], t, actions[i]) {
      if i >= 2 {
        assert Takes(rest[i - 2], rest[i - 1], t, [LockExclusiveStep, CloseStep, UnlockExclusiveStep][i - 2]);
      }
    }
  }

  /** What a step of a busy thread makes of the state. */
  function After(s: State, t: Thread, a: Action): State {
    match a
    case AddStep(k) => if k in s.pending then Move(s, t, Idle) else Move(s.(pending := s.pending + {k}), t, Holding(k))
    case LockSharedStep(k) => Move(s, t, Inside(k))
    case LookStep(k) => Move(s, t, if s.closing then Dropping(k) else Sending(k))
    case SendStep(k) =>
      if s.closed then Move(s.(sentOnClosed := true), t, Leaving)
      else if |s.queue| < s.capacity then Move(s.(queue := s.queue + [k]), t, Leaving)
      else Move(s, t, Dropping(k))
    case DropStep(k) => Move(s.(pending := s.pending - {k}), t, Leaving)
    case UnlockSharedStep => Move(s, t, Idle)
    case FinishStep(k) => Move(s.(pending := s.pending - {k}), t, Waiting)
    case CancelStep => Move(s.(cancelled := true), t, Cancelled)
    case LockExclusiveStep => Move(s, t, Exclusive)
    case CloseStep => Move(s.(closed := true), t, Closed)
    case UnlockExclusiveStep => Move(s, t, Idle)
    case _ => s
  }

  /** The step a busy thread is about to take. */
  function NextAction(p: Phase): Action {
    match p
    case Entering(k) => AddStep(k)
    case Holding(k) => LockSharedStep(k)
    case Inside(k) => LookStep(k)
    case Sending(k) => SendStep(k)
    case Dropping(k) => DropStep(k)
    case Leaving => UnlockSharedStep
    case Running(k) => FinishStep(k)
    case Flagged => CancelStep
    case Cancelled => LockExclusiveStep
    case Exclusive => CloseStep
    case Closed => UnlockExclusiveStep
    case _ => QuitStep
  }

  predicate Busy(p: Phase) {
    p != Idle && p != Waiting
  }

  /** While a thread is busy, it or one that holds the lock it waits for can take a step. */
  lemma NeverStuck(s: State, t: Thread) returns (u: Thread, s': State)
    requires t in s.phases && Busy(s.phases[t])
    ensures u in s.phases && Busy(s.phases[u]) && Takes(s, s', u, NextAction(s.phases[u]))
  {
    u := t;
    if s.phases[t].Holding? && !NobodyExclusive(s) {
      u :| u in s.phases && HoldsExclusive(s.phases[u]);
    } else if s.phases[t].Cancelled? && exists v :: v in s.phases && (HoldsShared(s.phases[v]) || HoldsExclusive(s.phases[v])) {
      u :| u in s.phases && (HoldsShared(s.phases[u]) || HoldsExclusive(s.phases[u]));
    }
    s' := After(s, u, NextAction(s.phases[u]));
  }
}
