/** The coalescing rebuild worker of the prepared service as a transition system
    (internal/server/prepared_service.go).

    Callers, workers and direct rebuilds are threads; every atomic operation, and the
    taking and releasing of the rebuild mutex, is one step. A catalog version counts
    the changes of the catalog; a rebuild reads it once, in Compile, and rebuilds are
    taken to succeed. */
module RebuildWorker {

  type Thread = nat

  datatype Phase =
    | Idle
    // rebuildAsync
    | Requesting                // past the stopped check
    | Claiming                  // rebuildAgain stored, before the compare-and-swap
    // runRebuildWorker
    | Looping                   // owns the running flag, at the top of the loop
    | Swapping                  // past the stopped check, before rebuildAgain.Swap
    | Clearing                  // stopped: before rebuildAgain.Store(false)
    | Stopping                  // stopped: rebuildAgain cleared, running flag not yet
    | Releasing                 // nothing to do: before rebuildWorkerRunning.Store(false)
    | Checking                  // released, before rebuildAgain.Load
    | Reclaiming                // saw a request, before the compare-and-swap
    // Rebuild; worker says whether the loop goes on after it
    | Locking(worker: bool)
    | Compiling(worker: bool)
    | Storing(worker: bool, version: nat)

  datatype State = State(
    phases: map<Thread, Phase>,
    again: bool,
    running: bool,
    stopped: bool,
    catalog: nat,       // the version of the catalog
    snapshot: nat,      // the version of the published snapshot
    requested: nat)     // the newest version a request has been registered for

  predicate Owns(p: Phase) {
    p.Looping? || p.Swapping? || p.Clearing? || p.Stopping? || p.Releasing?
    || ((p.Locking? || p.Compiling? || p.Storing?) && p.worker)
  }

  predicate InMutex(p: Phase) {
    p.Compiling? || p.Storing?
  }

  predicate At(s: State, t: Thread, p: Phase) {
    t in s.phases && s.phases[t] == p
  }

  function Move(s: State, t: Thread, p: Phase): State {
    s.(phases := s.phases[t := p])
  }

  ghost predicate Init(s: State) {
    && (forall t :: t in s.phases ==> s.phases[t] == Idle)
    && !s.again && !s.running && !s.stopped
    && s.requested <= s.snapshot <= s.catalog
  }

  // ---- Steps ---------------------------------------------------------------------------

  ghost predicate ChangeCatalog(s: State, s': State) {
    s' == s.(catalog := s.catalog + 1)
  }

  ghost predicate Stop(s: State, s': State) {
    s' == s.(stopped := true)
  }

  /** rebuildAsync for the catalog as it now is. */
  ghost predicate Request(s: State, s': State, t: Thread) {
    At(s, t, Idle) && !s.stopped && s' == Move(s, t, Requesting)
  }

  ghost predicate StoreAgain(s: State, s': State, t: Thread) {
    At(s, t, Requesting) && s' == Move(s.(again := true, requested := s.catalog), t, Claiming)
  }

  /** The compare-and-swap: the winner's goroutine goes on as the worker. */
  ghost predicate Claim(s: State, s': State, t: Thread) {
    && At(s, t, Claiming)
    && s' == if s.running then Move(s, t, Idle) else Move(s.(running := true), t, Looping)
  }

  ghost predicate CheckStopped(s: State, s': State, t: Thread) {
    && At(s, t, Looping)
    && s' == Move(s, t, if s.stopped then Clearing else Swapping)
  }

  ghost predicate ClearAgain(s: State, s': State, t: Thread) {
    At(s, t, Clearing) && s' == Move(s.(again := false), t, Stopping)
  }

  ghost predicate FinishStop(s: State, s': State, t: Thread) {
    At(s, t, Stopping) && s' == Move(s.(running := false), t, Idle)
  }

  ghost predicate Swap(s: State, s': State, t: Thread) {
    && At(s, t, Swapping)
    && s' == Move(s.(again := false), t, if s.again then Locking(true) else Releasing)
  }

  ghost predicate Release(s: State, s': State, t: Thread) {
    At(s, t, Releasing) && s' == Move(s.(running := false), t, Checking)
  }

  ghost predicate Check(s: State, s': State, t: Thread) {
    At(s, t, Checking) && s' == Move(s, t, if s.again then Reclaiming else Idle)
  }

  ghost predicate Reclaim(s: State, s': State, t: Thread) {
    && At(s, t, Reclaiming)
    && s' == if s.running then Move(s, t, Idle) else Move(s.(running := true), t, Looping)
  }

  ghost predicate StartDirectRebuild(s: State, s': State, t: Thread) {
    At(s, t, Idle) && s' == Move(s, t, Locking(false))
  }

  ghost predicate Lock(s: State, s': State, t: Thread, worker: bool) {
    && At(s, t, Locking(worker))
    && (forall u :: u in s.phases ==> !InMutex(s.phases[u]))
    && s' == Move(s, t, Compiling(worker))
  }

  /** Compile takes its snapshot of the catalog. */
  ghost predicate Compile(s: State, s': State, t: Thread, worker: bool) {
    At(s, t, Compiling(worker)) && s' == Move(s, t, Storing(worker, s.catalog))
  }

  ghost predicate StoreSnapshot(s: State, s': State, t: Thread, worker: bool, version: nat) {
    && At(s, t, Storing(worker, version))
    && s' == Move(s.(snapshot := version), t, if worker then Looping else Idle)
  }

  datatype Step =
    | ChangeCatalogStep | StopStep | RequestStep(t: Thread) | StoreAgainStep(t: Thread) | ClaimStep(t: Thread)
    | CheckStoppedStep(t: Thread) | ClearAgainStep(t: Thread) | FinishStopStep(t: Thread) | SwapStep(t: Thread) | ReleaseStep(t: Thread)
    | CheckStep(t: Thread) | ReclaimStep(t: Thread) | StartDirectRebuildStep(t: Thread)
    | LockStep(t: Thread, worker: bool) | CompileStep(t: Thread, worker: bool)
    | StoreSnapshotStep(t: Thread, worker: bool, version: nat)

  ghost predicate Takes(s: State, s': State, step: Step) {
    match step
    case ChangeCatalogStep => ChangeCatalog(s, s')
    case StopStep => Stop(s, s')
    case RequestStep(t) => Request(s, s', t)
    case StoreAgainStep(t) => StoreAgain(s, s', t)
    case ClaimStep(t) => Claim(s, s', t)
    case CheckStoppedStep(t) => CheckStopped(s, s', t)
    case ClearAgainStep(t) => ClearAgain(s, s', t)
    case FinishStopStep(t) => FinishStop(s, s', t)
    case SwapStep(t) => Swap(s, s', t)
    case ReleaseStep(t) => Release(s, s', t)
    case CheckStep(t) => Check(s, s', t)
    case ReclaimStep(t) => Reclaim(s, s', t)
    case StartDirectRebuildStep(t) => StartDirectRebuild(s, s', t)
    case LockStep(t, worker) => Lock(s, s', t, worker)
    case CompileStep(t, worker) => Compile(s, s', t, worker)
    case StoreSnapshotStep(t, worker, version) => StoreSnapshot(s, s', t, worker, version)
  }

  ghost predicate Next(s: State, s': State) {
    exists step :: Takes(s, s', step)
  }

  ghost predicate IsRun(run: seq<State>) {
    run != [] && Init(run[0]) && forall i :: 0 <= i < |run| - 1 ==> Next(run[i], run[i + 1])
  }

  // ---- The invariant ----------------------------------------------------------------------

  /** At most one thread owns the running flag, and the flag says whether one does. */
  ghost predicate OneOwner(s: State) {
    && (forall t, u :: t in s.phases && u in s.phases && Owns(s.phases[t]) && Owns(s.phases[u]) ==> t == u)
    && (s.running <==> exists t :: t in s.phases && Owns(s.phases[t]))
  }

  ghost predicate OneInMutex(s: State) {
    forall t, u :: t in s.phases && u in s.phases && InMutex(s.phases[t]) && InMutex(s.phases[u]) ==> t == u
  }

  /** Whoever holds a compiled snapshot holds one no older than the published one. */
  ghost predicate VersionsOrdered(s: State) {
    && s.snapshot <= s.catalog && s.requested <= s.catalog
    && (forall t :: t in s.phases && s.phases[t].Storing? ==> s.snapshot <= s.phases[t].version <= s.catalog)
  }

  /** This thread will look at rebuildAgain before it goes idle. */
  predicate WillLook(p: Phase) {
    p.Claiming? || p.Checking? || p.Reclaiming? || Owns(p)
  }

  /** This thread's rebuild will publish at least the version. */
  predicate WillPublish(p: Phase, version: nat) {
    p.Locking? || p.Compiling? || (p.Storing? && p.version >= version)
  }

  /** While not stopped, no request is forgotten: a raised flag has someone who will see
      it, and a lowered one means its request is published or about to be. */
  ghost predicate NothingForgotten(s: State) {
    && (s.again ==> exists t :: t in s.phases && WillLook(s.phases[t]))
    && (s.requested <= s.snapshot || s.again || exists t :: t in s.phases && WillPublish(s.phases[t], s.requested))
  }

  ghost predicate NotStopping(s: State) {
    !s.stopped ==> forall t :: t in s.phases ==> !s.phases[t].Clearing? && !s.phases[t].Stopping?
  }

  ghost predicate Inv(s: State) {
    && OneOwner(s)
    && OneInMutex(s)
    && VersionsOrdered(s)
    && NotStopping(s)
    && (!s.stopped ==> NothingForgotten(s))
  }

  // ---- Every step keeps it -------------------------------------------------------------------

  /** The thread a step moves; 0 for the environment's steps, which move none. */
  function Mover(step: Step): Thread {
    match step
    case ChangeCatalogStep => 0
    case StopStep => 0
    case RequestStep(t) => t
    case StoreAgainStep(t) => t
    case ClaimStep(t) => t
    case CheckStoppedStep(t) => t
    case ClearAgainStep(t) => t
    case FinishStopStep(t) => t
    case SwapStep(t) => t
    case ReleaseStep(t) => t
    case CheckStep(t) => t
    case ReclaimStep(t) => t
    case StartDirectRebuildStep(t) => t
    case LockStep(t, _) => t
    case CompileStep(t, _) => t
    case StoreSnapshotStep(t, _, _) => t
  }

  lemma OnlyMoverMoves(s: State, s': State, step: Step)
    requires Takes(s, s', step)
    ensures s'.phases.Keys == s.phases.Keys
    ensures forall t :: t in s.phases && t != Mover(step) ==> s'.phases[t] == s.phases[t]
    ensures step.ChangeCatalogStep? || step.StopStep? ==> s'.phases == s.phases
  {
  }

  /** A step hands the flag to a thread only when it is down, and lowers it only for
      its owner. */
  lemma FlagMoves(s: State, s': State, step: Step)
    requires Takes(s, s', step)
    ensures var m := Mover(step);
            && (m in s.phases && m in s'.phases && Owns(s'.phases[m]) && !Owns(s.phases[m]) ==> !s.running && s'.running)
            && (s'.running && !s.running ==> m in s'.phases && Owns(s'.phases[m]))
            && (!s'.running && s.running ==> m in s.phases && m in s'.phases && Owns(s.phases[m]) && !Owns(s'.phases[m]))
            && (m in s.phases && m in s'.phases && Owns(s.phases[m]) && !Owns(s'.phases[m]) ==> !s'.running)
  {
  }

  lemma StepKeepsOneOwner(s: State, s': State, step: Step)
    requires OneOwner(s) && Takes(s, s', step)
    ensures OneOwner(s')
  {
    OnlyMoverMoves(s, s', step);
    FlagMoves(s, s', step);
    var m := Mover(step);
    OwnersAfter(s.phases, s'.phases, m, s.running, s'.running);
  }

  lemma OwnersAfter(before: map<Thread, Phase>, after: map<Thread, Phase>, m: Thread, running: bool, running': bool)
    requires after.Keys == before.Keys && forall t :: t in before && t != m ==> after[t] == before[t]
    requires forall t, u :: t in before && u in before && Owns(before[t]) && Owns(before[u]) ==> t == u
    requires running <==> exists t :: t in before && Owns(before[t])
    requires m in after && Owns(after[m]) && !Owns(before[m]) ==> !running && running'
    requires running' && !running ==> m in after && Owns(after[m])
    requires !running' && running ==> m in before && Owns(before[m]) && !Owns(after[m])
    requires m in before && Owns(before[m]) && !Owns(after[m]) ==> !running'
    ensures forall t, u :: t in after && u in after && Owns(after[t]) && Owns(after[u]) ==> t == u
    ensures running' <==> exists t :: t in after && Owns(after[t])
  {
    if running' && running {
      var t :| t in before && Owns(before[t]);
      assert t in after && Owns(after[t]);
    }
  }

  lemma StepKeepsOneInMutex(s: State, s': State, step: Step)
    requires OneInMutex(s) && Takes(s, s', step)
    ensures OneInMutex(s')
  {
    OnlyMoverMoves(s, s', step);
  }

  lemma StepKeepsVersions(s: State, s': State, step: Step)
    requires OneInMutex(s) && VersionsOrdered(s) && Takes(s, s', step)
    ensures VersionsOrdered(s')
    ensures s.snapshot <= s'.snapshot && s.requested <= s'.requested
  {
    OnlyMoverMoves(s, s', step);
  }

  lemma StepKeepsLooking(s: State, s': State, step: Step)
    requires Inv(s) && Takes(s, s', step) && !s'.stopped && s'.again
    ensures exists t :: t in s'.phases && WillLook(s'.phases[t])
  {
    OnlyMoverMoves(s, s', step);
    var m := Mover(step);
    if m in s'.phases && WillLook(s'.phases[m]) {
    } else {
      var t :| t in s.phases && WillLook(s.phases[t]);
      if t == m {
        assert s.running;
        var u :| u in s.phases && Owns(s.phases[u]);
        assert u in s'.phases && WillLook(s'.phases[u]);
      } else {
        assert t in s'.phases && WillLook(s'.phases[t]);
      }
    }
  }

  lemma StepKeepsPublishing(s: State, s': State, step: Step)
    requires Inv(s) && Takes(s, s', step) && !s'.stopped && !s'.again && s'.requested > s'.snapshot
    ensures exists t :: t in s'.phases && WillPublish(s'.phases[t], s'.requested)
  {
    OnlyMoverMoves(s, s', step);
    StepKeepsVersions(s, s', step);
    var m := Mover(step);
    if m in s'.phases && WillPublish(s'.phases[m], s'.requested) {
    } else {
      assert !s.again;
      var t :| t in s.phases && WillPublish(s.phases[t], s.requested);
      assert t in s'.phases && WillPublish(s'.phases[t], s'.requested);
    }
  }

  lemma StepKeepsInv(s: State, s': State, step: Step)
    requires Inv(s) && Takes(s, s', step)
    ensures Inv(s')
  {
    OnlyMoverMoves(s, s', step);
    StepKeepsOneOwner(s, s', step);
    StepKeepsOneInMutex(s, s', step);
    StepKeepsVersions(s, s', step);
    if !s'.stopped {
      if s'.again {
        StepKeepsLooking(s, s', step);
      } else if s'.requested > s'.snapshot {
        StepKeepsPublishing(s, s', step);
      }
    }
  }

  lemma {:induction false} RunKeepsInv(run: seq<State>, i: nat)
    requires IsRun(run) && i < |run|
    ensures Inv(run[i])
  {
    if i > 0 {
      RunKeepsInv(run, i - 1);
      assert Next(run[i - 1], run[i - 1 + 1]);
      var step :| Takes(run[i - 1], run[i], step);
      StepKeepsInv(run[i - 1], run[i], step);
    }
  }

  // ---- What follows for every run ---------------------------------------------------------------

  /** Published catalog versions never go back, nor do requested ones. */
  lemma {:induction false} VersionsNeverGoBack(run: seq<State>, i: nat, j: nat)
    requires IsRun(run) && i <= j < |run|
    ensures run[i].snapshot <= run[j].snapshot && run[i].requested <= run[j].requested
    decreases j - i
  {
    if i < j {
      VersionsNeverGoBack(run, i, j - 1);
      RunKeepsInv(run, j - 1);
      assert Next(run[j - 1], run[j - 1 + 1]);
      var step :| Takes(run[j - 1], run[j], step);
      StepKeepsVersions(run[j - 1], run[j], step);
    }
  }

  /** At most one worker owns the running flag, in every state of every run. */
  lemma AtMostOneWorker(run: seq<State>, i: nat, t: Thread, u: Thread)
    requires IsRun(run) && i < |run|
    requires t in run[i].phases && u in run[i].phases && Owns(run[i].phases[t]) && Owns(run[i].phases[u])
    ensures t == u && run[i].running
  {
    RunKeepsInv(run, i);
  }

  ghost predicate Quiescent(s: State) {
    forall t :: t in s.phases ==> s.phases[t] == Idle
  }

  /** When nothing moves and the service is not stopped, the published snapshot is at
      least as new as every request ever registered. */
  lemma QuiescentIsCurrent(run: seq<State>, i: nat, j: nat)
    requires IsRun(run) && i <= j < |run|
    requires Quiescent(run[j]) && !run[j].stopped
    ensures run[i].requested <= run[j].snapshot && !run[j].running && !run[j].again
  {
    RunKeepsInv(run, j);
    VersionsNeverGoBack(run, i, j);
  }

  // ---- What a call is good for ---------------------------------------------------------------

  /** The call of thread t registers at least this version, or has done so. */
  predicate Registers(s: State, t: Thread, version: nat) {
    s.requested >= version || (At(s, t, Requesting) && s.catalog >= version)
  }

  lemma StepKeepsRegistering(s: State, s': State, step: Step, t: Thread, version: nat)
    requires Takes(s, s', step) && Registers(s, t, version) && s.requested <= s.catalog
    ensures Registers(s', t, version)
  {
  }

  lemma RequestedIsOld(run: seq<State>, i: nat)
    requires IsRun(run) && i < |run|
    ensures run[i].requested <= run[i].catalog
  {
    RunKeepsInv(run, i);
  }

  lemma {:induction false} RunKeepsRegistering(run: seq<State>, i: nat, j: nat, t: Thread, version: nat)
    requires IsRun(run) && i <= j < |run| && Registers(run[i], t, version)
    ensures Registers(run[j], t, version)
    decreases j
  {
    if i < j {
      RunKeepsRegistering(run, i, j - 1, t, version);
      RequestedIsOld(run, j - 1);
      assert Next(run[j - 1], run[j - 1 + 1]);
      var step :| Takes(run[j - 1], run[j], step);
      StepKeepsRegistering(run[j - 1], run[j], step, t, version);
    }
  }

  /** A call of rebuildAsync is answered: once the service has come to rest unstopped, the
      published snapshot is at least as new as the catalog was when the call was made. */
  lemma RequestIsAnswered(run: seq<State>, i: nat, j: nat, t: Thread)
    requires IsRun(run) && i < j < |run| && Takes(run[i], run[i + 1], RequestStep(t))
    requires Quiescent(run[j]) && !run[j].stopped
    ensures run[i].catalog <= run[j].snapshot
  {
    RunKeepsRegistering(run, i + 1, j, t, run[i].catalog);
    QuiescentIsCurrent(run, j, j);
  }

  /** The direct rebuild of thread t publishes at least this version, or the snapshot already has it. */
  predicate Publishes(s: State, t: Thread, version: nat) {
    || s.snapshot >= version
    || (s.catalog >= version && (At(s, t, Locking(false)) || At(s, t, Compiling(false))))
    || (t in s.phases && s.phases[t].Storing? && !s.phases[t].worker && s.phases[t].version >= version)
  }

  lemma StepKeepsPublication(s: State, s': State, step: Step, t: Thread, version: nat)
    requires Takes(s, s', step) && Publishes(s, t, version) && s.snapshot <= s'.snapshot
    ensures Publishes(s', t, version)
  {
  }

  lemma {:induction false} RunKeepsPublication(run: seq<State>, i: nat, j: nat, t: Thread, version: nat)
    requires IsRun(run) && i <= j < |run| && Publishes(run[i], t, version)
    ensures Publishes(run[j], t, version)
    decreases j
  {
    if i < j {
      RunKeepsPublication(run, i, j - 1, t, version);
      VersionsNeverGoBack(run, j - 1, j);
      assert Next(run[j - 1], run[j - 1 + 1]);
      var step :| Takes(run[j - 1], run[j], step);
      StepKeepsPublication(run[j - 1], run[j], step, t, version);
    }
  }

  /** A direct rebuild has published by the time its thread is idle, stopped or not. */
  lemma DirectRebuildPublishes(run: seq<State>, i: nat, j: nat, t: Thread)
    requires IsRun(run) && i < j < |run| && Takes(run[i], run[i + 1], StartDirectRebuildStep(t)) && At(run[j], t, Idle)
    ensures run[i].catalog <= run[j].snapshot
  {
    RunKeepsPublication(run, i + 1, j, t, run[i].catalog);
  }

  // ---- A call on its own ----------------------------------------------------------------------

  ghost predicate TakesAll(run: seq<State>, steps: seq<Step>) {
    |run| == |steps| + 1 && forall i :: 0 <= i < |steps| ==> Takes(run[i], run[i + 1], steps[i])
  }

  lemma Continued(first: seq<State>, firstSteps: seq<Step>, second: seq<State>, secondSteps: seq<Step>)
    requires TakesAll(first, firstSteps) && TakesAll(second, secondSteps) && first[|firstSteps|] == second[0]
    ensures TakesAll(first[..|firstSteps|] + second, firstSteps + secondSteps)
  {
    var run, steps := first[..|firstSteps|] + second, firstSteps + secondSteps;
    forall i | 0 <= i < |steps| ensures Takes(run[i], run[i + 1], steps[i]) {
      if i >= |firstSteps| {
        assert Takes(second[i - |firstSteps|], second[i - |firstSteps| + 1], secondSteps[i - |firstSteps|]);
      }
    }
  }

  lemma ClaimAlone(s: State, t: Thread) returns (run: seq<State>)
    requires At(s, t, Idle) && !s.stopped && !s.running
    ensures TakesAll(run, [RequestStep(t), StoreAgainStep(t), ClaimStep(t)]) && run[0] == s
    ensures run[3] == Move(s.(again := true, running := true, requested := s.catalog), t, Looping)
  {
    var s1 := Move(s, t, Requesting);
    var s2 := Move(s1.(again := true, requested := s.catalog), t, Claiming);
    var s3 := Move(s2.(running := true), t, Looping);
    run := [s, s1, s2, s3];
    assert s3.phases == s.phases[t := Looping];
  }

  lemma PublishAlone(s: State, t: Thread, worker: bool) returns (run: seq<State>)
    requires At(s, t, Locking(worker)) && forall u :: u in s.phases ==> !InMutex(s.phases[u])
    ensures TakesAll(run, [LockStep(t, worker), CompileStep(t, worker), StoreSnapshotStep(t, worker, s.catalog)])
    ensures run[0] == s && run[3] == Move(s.(snapshot := s.catalog), t, if worker then Looping else Idle)
  {
    var s1 := Move(s, t, Compiling(worker));
    var s2 := Move(s1, t, Storing(worker, s.catalog));
    var s3 := Move(s2.(snapshot := s.catalog), t, if worker then Looping else Idle);
    run := [s, s1, s2, s3];
    assert s3.phases == s.phases[t := if worker then Looping else Idle];
  }

  lemma RebuildAlone(s: State, t: Thread) returns (run: seq<State>)
    requires At(s, t, Looping) && !s.stopped && s.again && forall u :: u in s.phases ==> !InMutex(s.phases[u])
    ensures TakesAll(run, [CheckStoppedStep(t), SwapStep(t), LockStep(t, true), CompileStep(t, true), StoreSnapshotStep(t, true, s.catalog)])
    ensures run[0] == s && run[5] == s.(again := false, snapshot := s.catalog)
  {
    var s1 := Move(s, t, Swapping);
    var s2 := Move(s1.(again := false), t, Locking(true));
    var publish := PublishAlone(s2, t, true);
    var swaps := [CheckStoppedStep(t), SwapStep(t)];
    var publishes := [LockStep(t, true), CompileStep(t, true), StoreSnapshotStep(t, true, s.catalog)];
    assert TakesAll([s, s1, s2], swaps);
    Continued([s, s1, s2], swaps, publish, publishes);
    run := [s, s1] + publish;
    assert [s, s1, s2][..2] == [s, s1];
    assert swaps + publishes == [CheckStoppedStep(t), SwapStep(t), LockStep(t, true), CompileStep(t, true), StoreSnapshotStep(t, true, s.catalog)];
    assert run[5].phases == s.phases;
  }

  /** A direct rebuild publishes the catalog as it is. */
  lemma DirectRebuildAlone(s: State, t: Thread) returns (run: seq<State>)
    requires At(s, t, Idle) && forall u :: u in s.phases ==> !InMutex(s.phases[u])
    ensures TakesAll(run, [StartDirectRebuildStep(t), LockStep(t, false), CompileStep(t, false), StoreSnapshotStep(t, false, s.catalog)])
    ensures run[0] == s && run[4] == s.(snapshot := s.catalog)
  {
    var s1 := Move(s, t, Locking(false));
    var publish := PublishAlone(s1, t, false);
    var publishes := [LockStep(t, false), CompileStep(t, false), StoreSnapshotStep(t, false, s.catalog)];
    assert TakesAll([s, s1], [StartDirectRebuildStep(t)]);
    Continued([s, s1], [StartDirectRebuildStep(t)], publish, publishes);
    run := [s] + publish;
    assert [s, s1][..1] == [s];
    assert [StartDirectRebuildStep(t)] + publishes
        == [StartDirectRebuildStep(t), LockStep(t, false), CompileStep(t, false), StoreSnapshotStep(t, false, s.catalog)];
    assert run[4].phases == s.phases;
  }

  lemma ReleaseAlone(s: State, t: Thread) returns (run: seq<State>)
    requires At(s, t, Looping) && !s.stopped && !s.again
    ensures TakesAll(run, [CheckStoppedStep(t), SwapStep(t), ReleaseStep(t), CheckStep(t)])
    ensures run[0] == s && run[4] == Move(s.(running := false), t, Idle)
  {
    var s1 := Move(s, t, Swapping);
    var s2 := Move(s1, t, Releasing);
    var s3 := Move(s2.(running := false), t, Checking);
    var s4 := Move(s3, t, Idle);
    run := [s, s1, s2, s3, s4];
    assert s4.phases == s.phases[t := Idle];
  }

  /** At rest and not stopped, a call can go through on its own: it publishes the catalog as it
      is and comes back to rest. */
  lemma RequestAlone(s: State, t: Thread) returns (run: seq<State>, steps: seq<Step>)
    requires At(s, t, Idle) && Quiescent(s) && !s.stopped && !s.running
    ensures TakesAll(run, steps) && run[0] == s && |steps| == 12 && steps[0] == RequestStep(t)
    ensures run[12] == s.(again := false, snapshot := s.catalog, requested := s.catalog)
  {
    var claim := ClaimAlone(s, t);
    var rebuild := RebuildAlone(claim[3], t);
    var release := ReleaseAlone(rebuild[5], t);
    var claims := [RequestStep(t), StoreAgainStep(t), ClaimStep(t)];
    var rebuilds := [CheckStoppedStep(t), SwapStep(t), LockStep(t, true), CompileStep(t, true), StoreSnapshotStep(t, true, s.catalog)];
    var releases := [CheckStoppedStep(t), SwapStep(t), ReleaseStep(t), CheckStep(t)];
    Continued(claim, claims, rebuild, rebuilds);
    Continued(claim[..3] + rebuild, claims + rebuilds, release, releases);
    run := (claim[..3] + rebuild)[..8] + release;
    steps := claims + rebuilds + releases;
    assert run[12].phases == s.phases;
  }

  /** A request that comes while the worker runs is left to it. */
  lemma RequestWhileRunning(s: State, t: Thread) returns (run: seq<State>)
    requires At(s, t, Idle) && !s.stopped && s.running
    ensures TakesAll(run, [RequestStep(t), StoreAgainStep(t), ClaimStep(t)]) && run[0] == s
    ensures run[3] == s.(again := true, requested := s.catalog)
  {
    var s1 := Move(s, t, Requesting);
    var s2 := Move(s1.(again := true, requested := s.catalog), t, Claiming);
    var s3 := Move(s2, t, Idle);
    run := [s, s1, s2, s3];
    assert s3.phases == s.phases;
  }

  /** Stopped, a worker at the top of its loop gives up and lowers both flags. */
  lemma StopEndsWorker(s: State, t: Thread) returns (run: seq<State>)
    requires At(s, t, Looping) && s.stopped
    ensures TakesAll(run, [CheckStoppedStep(t), ClearAgainStep(t), FinishStopStep(t)]) && run[0] == s
    ensures run[3] == Move(s.(again := false, running := false), t, Idle)
  {
    var s1 := Move(s, t, Clearing);
    var s2 := Move(s1.(again := false), t, Stopping);
    var s3 := Move(s2.(running := false), t, Idle);
    run := [s, s1, s2, s3];
    assert s3.phases == s.phases[t := Idle];
  }

  /** Who is not idle can go on, or waits for the thread in the mutex, which can. */
  lemma NeverStuck(s: State, t: Thread) returns (s': State, step: Step)
    requires t in s.phases && s.phases[t] != Idle
    ensures Takes(s, s', step) && Mover(step) in s.phases && s.phases[Mover(step)] != Idle
  {
    if s.phases[t].Locking? {
      if u :| u in s.phases && InMutex(s.phases[u]) {
        step := if s.phases[u].Compiling? then CompileStep(u, s.phases[u].worker) else StoreSnapshotStep(u, s.phases[u].worker, s.phases[u].version);
      } else {
        step := LockStep(t, s.phases[t].worker);
      }
    } else {
      step := match s.phases[t]
        case Requesting => StoreAgainStep(t)
        case Claiming => ClaimStep(t)
        case Looping => CheckStoppedStep(t)
        case Swapping => SwapStep(t)
        case Clearing => ClearAgainStep(t)
        case Stopping => FinishStopStep(t)
        case Releasing => ReleaseStep(t)
        case Checking => CheckStep(t)
        case Reclaiming => ReclaimStep(t)
        case Compiling(worker) => CompileStep(t, worker)
        case Storing(worker, version) => StoreSnapshotStep(t, worker, version)
        case _ => StopStep;
    }
    s' := After(s, step);
  }

  /** What a step of a thread makes of the state. */
  function After(s: State, step: Step): State {
    match step
    case StoreAgainStep(t) => Move(s.(again := true, requested := s.catalog), t, Claiming)
    case ClaimStep(t) => if s.running then Move(s, t, Idle) else Move(s.(running := true), t, Looping)
    case CheckStoppedStep(t) => Move(s, t, if s.stopped then Clearing else Swapping)
    case ClearAgainStep(t) => Move(s.(again := false), t, Stopping)
    case FinishStopStep(t) => Move(s.(running := false), t, Idle)
    case SwapStep(t) => Move(s.(again := false), t, if s.again then Locking(true) else Releasing)
    case ReleaseStep(t) => Move(s.(running := false), t, Checking)
    case CheckStep(t) => Move(s, t, if s.again then Reclaiming else Idle)
    case ReclaimStep(t) => if s.running then Move(s, t, Idle) else Move(s.(running := true), t, Looping)
    case LockStep(t, worker) => Move(s, t, Compiling(worker))
    case CompileStep(t, worker) => Move(s, t, Storing(worker, s.catalog))
    case StoreSnapshotStep(t, worker, version) => Move(s.(snapshot := version), t, if worker then Looping else Idle)
    case _ => s
  }
}
