/** The worker pool that collects errors by item index
    (internal/asyncx/parallel_collect_errors.go, the parallel form): a scheduler that hands
    items over an unbuffered channel, workers that run them, and a context that may be
    cancelled at any moment. */
module WorkerPool {
  import opened Basics
  import opened CollectErrors

  /** Where the scheduling loop stands: about to look at the context before item next,
      offering item next, or past close(jobs). */
  datatype Scheduler = Looking(next: nat) | Offering(next: nat) | Closed(next: nat)

  datatype Worker =
    | Idle
    | Received(item: nat)
    | Running(item: nat)
    | Storing(item: nat, result: Option<Error>)
    | Exited

  /** runs counts how often each item was run; it is only talked about, never read. */
  datatype State = State(
    scheduler: Scheduler,
    workers: seq<Worker>,
    context: Option<Error>,
    errors: seq<Option<Error>>,
    runs: seq<nat>)

  datatype Step =
    | Cancel(cause: Error)
    | Look
    | GiveUp
    | HandOver(worker: nat)
    | Begin(worker: nat)
    | Return(worker: nat, result: Option<Error>)
    | Store(worker: nat)
    | Exit(worker: nat)

  predicate Holds(w: Worker, item: nat) {
    (w.Received? || w.Running? || w.Storing?) && w.item == item
  }

  /** The pool's workers: min(max(limit, 1), items). */
  function WorkerCount(limit: int, items: nat): (count: nat)
    ensures count <= items && (limit >= 1 ==> count <= limit)
    ensures count < items ==> count == limit || (limit < 1 && count == 1)
  {
    var atLeastOne := if limit < 1 then 1 else limit;
    if atLeastOne < items then atLeastOne else items
  }

  /** No error and no run yet for any item. */
  ghost predicate Init(s: State, limit: int, outcomes: seq<Option<Error>>) {
    && s.scheduler == Looking(0)
    && |s.workers| == WorkerCount(limit, |outcomes|)
    && |s.errors| == |s.runs| == |outcomes|
    && (forall w :: 0 <= w < |s.workers| ==> s.workers[w] == Idle)
    && (forall i :: 0 <= i < |outcomes| ==> s.errors[i] == None && s.runs[i] == 0)
  }

  /** outcomes[i] is what run returns for item i while the context is live; once the
      context is cancelled, run may return anything. */
  ghost predicate Takes(s: State, t: State, step: Step, outcomes: seq<Option<Error>>) {
    match step
    case Cancel(cause) =>
      s.context == None && t == s.(context := Some(cause))
    case Look =>
      s.scheduler.Looking? &&
      t == s.(scheduler :=
                if s.scheduler.next >= |outcomes| || s.context.Some? then Closed(s.scheduler.next)
                else Offering(s.scheduler.next))
    case GiveUp =>
      s.scheduler.Offering? && s.context.Some? && t == s.(scheduler := Closed(s.scheduler.next))
    case HandOver(w) =>
      s.scheduler.Offering? && w < |s.workers| && s.workers[w] == Idle &&
      t == s.(scheduler := Looking(s.scheduler.next + 1),
              workers := s.workers[w := Received(s.scheduler.next)])
    case Begin(w) =>
      w < |s.workers| && s.workers[w].Received? && s.workers[w].item < |s.runs| &&
      var item := s.workers[w].item;
      t == if s.context.Some?
           then s.(workers := s.workers[w := Storing(item, s.context)])
           else s.(workers := s.workers[w := Running(item)],
                   runs := s.runs[item := s.runs[item] + 1])
    case Return(w, result) =>
      w < |s.workers| && s.workers[w].Running? && s.workers[w].item < |outcomes| &&
      (s.context == None ==> result == outcomes[s.workers[w].item]) &&
      t == s.(workers := s.workers[w := Storing(s.workers[w].item, result)])
    case Store(w) =>
      w < |s.workers| && s.workers[w].Storing? && s.workers[w].item < |s.errors| &&
      t == s.(workers := s.workers[w := Idle],
              errors := s.errors[s.workers[w].item := s.workers[w].result])
    case Exit(w) =>
      w < |s.workers| && s.workers[w] == Idle && s.scheduler.Closed? &&
      t == s.(workers := s.workers[w := Exited])
  }

  ghost predicate Next(s: State, t: State, outcomes: seq<Option<Error>>) {
    exists step :: Takes(s, t, step, outcomes)
  }

  ghost predicate IsRun(run: seq<State>, limit: int, outcomes: seq<Option<Error>>) {
    && run != []
    && Init(run[0], limit, outcomes)
    && forall i :: 0 <= i < |run| - 1 ==> Next(run[i], run[i + 1], outcomes)
  }

  /** workers.Wait() has returned. */
  predicate Finished(s: State) {
    s.scheduler.Closed? && forall w :: 0 <= w < |s.workers| ==> s.workers[w] == Exited
  }

  // ---- The invariant --------------------------------------------------------------------

  ghost predicate Shape(s: State, outcomes: seq<Option<Error>>) {
    && |s.errors| == |s.runs| == |outcomes|
    && s.scheduler.next <= |outcomes|
    && (s.scheduler.Offering? ==> s.scheduler.next < |outcomes|)
    && (s.scheduler.Closed? && s.context == None ==> s.scheduler.next == |outcomes|)
    && (forall w :: 0 <= w < |s.workers| && s.workers[w] == Exited ==> s.scheduler.Closed?)
  }

  /** Workers hold handed-out items, each a different one. */
  ghost predicate HeldApart(s: State) {
    && (forall w, i: nat :: 0 <= w < |s.workers| && Holds(s.workers[w], i) ==> i < s.scheduler.next)
    && (forall v, w, i: nat ::
          0 <= v < |s.workers| && 0 <= w < |s.workers| && Holds(s.workers[v], i) && Holds(s.workers[w], i)
          ==> v == w)
  }

  /** What is known of one item's run count and result once it has one: run once, or never
      because the context was done first. */
  ghost predicate Told(s: State, i: nat, result: Option<Error>, outcomes: seq<Option<Error>>)
    requires i < |s.runs| == |outcomes|
  {
    if s.runs[i] == 1 then s.context == None ==> result == outcomes[i]
    else s.runs[i] == 0 && s.context.Some? && result == s.context
  }

  ghost predicate WorkerKnows(s: State, w: Worker, outcomes: seq<Option<Error>>)
    requires Shape(s, outcomes)
  {
    match w
    case Idle => true
    case Exited => true
    case Received(i) => i < |outcomes| && s.runs[i] == 0
    case Running(i) => i < |outcomes| && s.runs[i] == 1
    case Storing(i, result) => i < |outcomes| && Told(s, i, result, outcomes)
  }

  ghost predicate WorkersKnow(s: State, outcomes: seq<Option<Error>>)
    requires Shape(s, outcomes)
  {
    forall w :: 0 <= w < |s.workers| ==> WorkerKnows(s, s.workers[w], outcomes)
  }

  ghost predicate Held(s: State, i: nat) {
    exists w :: 0 <= w < |s.workers| && Holds(s.workers[w], i)
  }

  /** An item not yet handed out has left no trace; one handed out and no longer held has
      its result stored. */
  ghost predicate ItemsSettle(s: State, outcomes: seq<Option<Error>>)
    requires Shape(s, outcomes)
  {
    forall i :: 0 <= i < |outcomes| ==>
      if i >= s.scheduler.next then s.runs[i] == 0 && s.errors[i] == None
      else Held(s, i) || Told(s, i, s.errors[i], outcomes)
  }

  ghost predicate Inv(s: State, outcomes: seq<Option<Error>>) {
    Shape(s, outcomes) && HeldApart(s) && WorkersKnow(s, outcomes) && ItemsSettle(s, outcomes)
  }

  lemma InitEstablishesInv(s: State, limit: int, outcomes: seq<Option<Error>>)
    requires Init(s, limit, outcomes)
    ensures Inv(s, outcomes)
  {
  }

  lemma StepKeepsShape(s: State, t: State, step: Step, outcomes: seq<Option<Error>>)
    requires Inv(s, outcomes) && Takes(s, t, step, outcomes)
    ensures Shape(t, outcomes)
  {
  }

  lemma StepKeepsHeldApart(s: State, t: State, step: Step, outcomes: seq<Option<Error>>)
    requires Inv(s, outcomes) && Takes(s, t, step, outcomes)
    ensures HeldApart(t)
  {
    forall w, i: nat | 0 <= w < |t.workers| && Holds(t.workers[w], i)
      ensures Holds(s.workers[w], i) || (step == HandOver(w) && i == s.scheduler.next)
    {
    }
  }

  lemma StepKeepsWorkersKnow(s: State, t: State, step: Step, outcomes: seq<Option<Error>>)
    requires Inv(s, outcomes) && Takes(s, t, step, outcomes) && Shape(t, outcomes)
    ensures WorkersKnow(t, outcomes)
  {
    forall w | 0 <= w < |t.workers| ensures WorkerKnows(t, t.workers[w], outcomes) {
      assert WorkerKnows(s, s.workers[w], outcomes);
      if step.Begin? && w != step.worker {
        assert Holds(s.workers[step.worker], s.workers[step.worker].item);
        assert forall i :: Holds(s.workers[w], i) ==> i != s.workers[step.worker].item;
        assert t.workers[w] == s.workers[w];
      }
    }
  }

  lemma StepKeepsItemsSettle(s: State, t: State, step: Step, outcomes: seq<Option<Error>>)
    requires Inv(s, outcomes) && Takes(s, t, step, outcomes) && Shape(t, outcomes)
    ensures ItemsSettle(t, outcomes)
  {
    forall i | 0 <= i < |outcomes|
      ensures if i >= t.scheduler.next then t.runs[i] == 0 && t.errors[i] == None
              else Held(t, i) || Told(t, i, t.errors[i], outcomes)
    {
      ItemSettles(s, t, step, i, outcomes);
    }
  }

  lemma ItemSettles(s: State, t: State, step: Step, i: nat, outcomes: seq<Option<Error>>)
    requires Inv(s, outcomes) && Takes(s, t, step, outcomes) && Shape(t, outcomes)
    requires i < |outcomes|
    ensures if i >= t.scheduler.next then t.runs[i] == 0 && t.errors[i] == None
            else Held(t, i) || Told(t, i, t.errors[i], outcomes)
  {
    if step.HandOver? && i == s.scheduler.next {
      assert Holds(t.workers[step.worker], i);
    } else if Held(s, i) {
      var w :| 0 <= w < |s.workers| && Holds(s.workers[w], i);
      if step == Store(w) {
        assert WorkerKnows(s, s.workers[w], outcomes);
      } else {
        assert Holds(t.workers[w], i);
      }
    } else if step.Begin? || step.Store? {
      assert Holds(s.workers[step.worker], s.workers[step.worker].item);
      assert s.workers[step.worker].item != i;
    }
  }

  lemma StepKeepsInv(s: State, t: State, outcomes: seq<Option<Error>>)
    requires Inv(s, outcomes) && Next(s, t, outcomes)
    ensures Inv(t, outcomes)
  {
    var step :| Takes(s, t, step, outcomes);
    StepKeepsShape(s, t, step, outcomes);
    StepKeepsHeldApart(s, t, step, outcomes);
    StepKeepsWorkersKnow(s, t, step, outcomes);
    StepKeepsItemsSettle(s, t, step, outcomes);
  }

  lemma {:induction false} RunKeepsInv(run: seq<State>, limit: int, outcomes: seq<Option<Error>>, i: nat)
    requires IsRun(run, limit, outcomes) && i < |run|
    ensures Inv(run[i], outcomes)
  {
    if i == 0 {
      InitEstablishesInv(run[0], limit, outcomes);
    } else {
      RunKeepsInv(run, limit, outcomes, i - 1);
      assert Next(run[i - 1], run[i - 1 + 1], outcomes);
      StepKeepsInv(run[i - 1], run[i], outcomes);
    }
  }

  // ---- What every run promises --------------------------------------------------------

  /** No item ever runs twice, cancelled or not, and two workers never run the same item. */
  lemma NoItemRunsTwice(run: seq<State>, limit: int, outcomes: seq<Option<Error>>, k: nat)
    requires IsRun(run, limit, outcomes) && k < |run|
    ensures |run[k].runs| == |outcomes|
    ensures forall i :: 0 <= i < |outcomes| ==> run[k].runs[i] <= 1
    ensures forall v, w :: 0 <= v < |run[k].workers| && 0 <= w < |run[k].workers| && v != w &&
                           run[k].workers[v].Running? && run[k].workers[w].Running? ==>
              run[k].workers[v].item != run[k].workers[w].item
  {
    RunKeepsInv(run, limit, outcomes, k);
    var s := run[k];
    forall i | 0 <= i < |outcomes| ensures s.runs[i] <= 1 {
      if i < s.scheduler.next && Held(s, i) {
        var w :| 0 <= w < |s.workers| && Holds(s.workers[w], i);
        assert WorkerKnows(s, s.workers[w], outcomes);
      }
    }
    forall v, w | 0 <= v < |s.workers| && 0 <= w < |s.workers| && v != w && s.workers[v].Running? && s.workers[w].Running?
      ensures s.workers[v].item != s.workers[w].item
    {
      assert Holds(s.workers[v], s.workers[v].item);
      assert Holds(s.workers[w], s.workers[w].item);
    }
  }

  /** Once all workers have left, every item below the cut was taken exactly once: it ran
      and left its own result, or was skipped with the context's error. Items from the cut
      on left nothing, and the cut is the end unless the context was cancelled. */
  lemma FinishedRunIsSettled(run: seq<State>, limit: int, outcomes: seq<Option<Error>>)
    requires IsRun(run, limit, outcomes) && Finished(run[|run| - 1])
    ensures var s := run[|run| - 1];
            && |s.errors| == |s.runs| == |outcomes| && s.scheduler.next <= |outcomes|
            && (s.context == None ==> s.scheduler.next == |outcomes|)
            && (forall i :: 0 <= i < s.scheduler.next ==> Told(s, i, s.errors[i], outcomes))
            && (forall i :: s.scheduler.next <= i < |outcomes| ==> s.runs[i] == 0 && s.errors[i] == None)
  {
    RunKeepsInv(run, limit, outcomes, |run| - 1);
    var s := run[|run| - 1];
    forall i | 0 <= i < s.scheduler.next ensures Told(s, i, s.errors[i], outcomes) {
      assert !Held(s, i);
    }
  }

  /** A context that is never done, as the serial loop sees it. */
  ghost predicate NeverDone(observed: seq<Option<Error>>) {
    forall i :: 0 <= i < |observed| ==> observed[i] == None
  }

  /** Without cancellation, whatever the interleaving and the number of workers: every item
      runs exactly once, and the errors join to what the serial loop joins. */
  lemma ParallelIsSerial(run: seq<State>, limit: int, outcomes: seq<Option<Error>>, observed: seq<Option<Error>>)
    requires IsRun(run, limit, outcomes) && Finished(run[|run| - 1])
    requires run[|run| - 1].context == None
    requires |observed| == |outcomes| + 1 && NeverDone(observed)
    ensures var s := run[|run| - 1];
            && |s.runs| == |outcomes|
            && (forall i :: 0 <= i < |outcomes| ==> s.runs[i] == 1)
            && Joined(s.errors + [s.context])
               == Joined(outcomes[..SerialBound(observed, |outcomes|)] + [observed[|outcomes|]])
  {
    FinishedRunIsSettled(run, limit, outcomes);
    var s := run[|run| - 1];
    forall i | 0 <= i < |outcomes| ensures s.runs[i] == 1 && s.errors[i] == outcomes[i] {
      assert Told(s, i, s.errors[i], outcomes);
    }
    assert s.errors == outcomes;
    SerialRunsAll(observed, |outcomes|);
    assert outcomes[..|outcomes|] == outcomes;
  }

  lemma {:induction false} SerialRunsAll(observed: seq<Option<Error>>, n: nat)
    requires n < |observed| && NeverDone(observed)
    ensures SerialBound(observed, n) == n
  {
    if n > 0 {
      SerialRunsAll(observed, n - 1);
    }
  }

  /** With cancellation: at most one cancellation and one deadline cause survive the join,
      the context's own cause among the joined errors unless one of its kind came first. */
  lemma CancelledRunKeepsOneCause(run: seq<State>, limit: int, outcomes: seq<Option<Error>>)
    requires IsRun(run, limit, outcomes) && Finished(run[|run| - 1])
    requires run[|run| - 1].context.Some?
    ensures var s := run[|run| - 1];
            var joined := Joined(s.errors + [s.context]);
            && Count(joined, IsCancel) <= 1 && Count(joined, IsDeadline) <= 1
            && (s.context.value.canceled ==> Count(joined, IsCancel) == 1)
            && (!s.context.value.canceled && s.context.value.deadline ==> Count(joined, IsDeadline) == 1)
  {
    var s := run[|run| - 1];
    var all := s.errors + [s.context];
    OneCauseEach(all);
    assert all[|s.errors|] == s.context;
  }

  /** The pool never gets stuck: until it is finished, it can take a step of its own. */
  lemma NeverStuck(run: seq<State>, limit: int, outcomes: seq<Option<Error>>, k: nat)
    requires IsRun(run, limit, outcomes) && k < |run| && outcomes != [] && !Finished(run[k])
    ensures exists t: State, step: Step :: !step.Cancel? && Takes(run[k], t, step, outcomes)
  {
    RunKeepsInv(run, limit, outcomes, k);
    WorkersStay(run, limit, outcomes, k);
    var s := run[k];
    if s.scheduler.Looking? {
      var t := s.(scheduler :=
                    if s.scheduler.next >= |outcomes| || s.context.Some? then Closed(s.scheduler.next)
                    else Offering(s.scheduler.next));
      assert Takes(s, t, Look, outcomes);
    } else if s.scheduler.Offering? {
      assert s.workers[0] != Exited;
      WorkerCanStep(s, 0, outcomes);
    } else {
      var w :| 0 <= w < |s.workers| && s.workers[w] != Exited;
      WorkerCanStep(s, w, outcomes);
    }
  }

  lemma {:induction false} WorkersStay(run: seq<State>, limit: int, outcomes: seq<Option<Error>>, k: nat)
    requires IsRun(run, limit, outcomes) && k < |run|
    ensures |run[k].workers| == WorkerCount(limit, |outcomes|)
  {
    if k > 0 {
      WorkersStay(run, limit, outcomes, k - 1);
      assert Next(run[k - 1], run[k - 1 + 1], outcomes);
    }
  }

  lemma WorkerCanStep(s: State, w: nat, outcomes: seq<Option<Error>>)
    requires Inv(s, outcomes) && w < |s.workers| && s.workers[w] != Exited && !s.scheduler.Looking?
    ensures exists t: State, step: Step :: !step.Cancel? && Takes(s, t, step, outcomes)
  {
    assert WorkerKnows(s, s.workers[w], outcomes);
    match s.workers[w]
    case Idle =>
      if s.scheduler.Offering? {
        assert Takes(s, s.(scheduler := Looking(s.scheduler.next + 1),
                           workers := s.workers[w := Received(s.scheduler.next)]), HandOver(w), outcomes);
      } else {
        assert Takes(s, s.(workers := s.workers[w := Exited]), Exit(w), outcomes);
      }
    case Received(i) =>
      assert Takes(s, if s.context.Some?
                      then s.(workers := s.workers[w := Storing(i, s.context)])
                      else s.(workers := s.workers[w := Running(i)], runs := s.runs[i := s.runs[i] + 1]),
                   Begin(w), outcomes);
    case Running(i) =>
      assert Takes(s, s.(workers := s.workers[w := Storing(i, outcomes[i])]), Return(w, outcomes[i]), outcomes);
    case Storing(i, result) =>
      assert Takes(s, s.(workers := s.workers[w := Idle], errors := s.errors[i := result]), Store(w), outcomes);
  }
}
