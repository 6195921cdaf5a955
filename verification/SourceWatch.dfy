/** The source watcher's one-slot channel with its overflow step, and the debounced
    consumer, as a transition system (internal/source/localfs_watch.go,
    internal/task/source_rescan_watch.go), until cancellation.

    Changes are numbered in the order of emission. A full-rescan marker carries the
    number of the change whose emission created it: it stands for every change up to
    that one. */
module SourceWatch {
  import opened Basics

  datatype Item = Change(id: nat) | FullRescan(id: nat)

  predicate Stands(item: Item, id: nat) {
    if item.FullRescan? then id <= item.id else id == item.id
  }

  datatype Producer =
    | Ready
    | Offering(id: nat)       // before the first select of emitWatchChange
    | Overflowing(id: nat)    // the slot was taken, before the drain
    | Marking(id: nat)        // drained, before the send of the marker

  datatype Consumer =
    | Selecting
    | Recording(item: Item)   // received, before PushBack
    | StoppingTimer           // pushed, before stopTimer
    | ResettingTimer          // before Reset
    | Flushing                // received from the timer, before the look at the deque
    | Syncing                 // the sync of the last batch has begun

  datatype Timer = Stopped | Armed | Fired

  /** The changes a sync was begun with, and how many had been emitted when it began. */
  datatype Batch = Batch(items: seq<Item>, at: nat)

  datatype State = State(
    emitted: nat,
    producer: Producer,
    channel: Option<Item>,
    consumer: Consumer,
    pending: seq<Item>,
    timer: Timer,
    syncs: seq<Batch>,        // every sync begun, oldest first
    lostMarker: bool)         // the last default branch of emitWatchChange was taken

  ghost predicate Init(s: State) {
    s == State(0, Ready, None, Selecting, [], Stopped, [], false)
  }

  // ---- Steps -----------------------------------------------------------------------------

  datatype Step =
    | Emit | Offer | Drain | Mark
    | Receive | Push | StopTimer | ResetTimer | Fire | ReceiveTimer | Flush | FinishSync

  ghost predicate Takes(s: State, s': State, step: Step) {
    match step
    case Emit =>
      s.producer.Ready? && s' == s.(emitted := s.emitted + 1, producer := Offering(s.emitted + 1))
    case Offer =>
      && s.producer.Offering?
      && s' == if s.channel == None then s.(channel := Some(Change(s.producer.id)), producer := Ready)
               else s.(producer := Overflowing(s.producer.id))
    case Drain =>
      s.producer.Overflowing? && s' == s.(channel := None, producer := Marking(s.producer.id))
    case Mark =>
      && s.producer.Marking?
      && s' == if s.channel == None then s.(channel := Some(FullRescan(s.producer.id)), producer := Ready)
               else s.(lostMarker := true, producer := Ready)
    case Receive =>
      s.consumer.Selecting? && s.channel.Some? && s' == s.(channel := None, consumer := Recording(s.channel.value))
    case Push =>
      s.consumer.Recording? && s' == s.(pending := s.pending + [s.consumer.item], consumer := StoppingTimer)
    case StopTimer =>
      s.consumer.StoppingTimer? && s' == s.(timer := Stopped, consumer := ResettingTimer)
    case ResetTimer =>
      s.consumer.ResettingTimer? && s' == s.(timer := Armed, consumer := Selecting)
    case Fire =>
      s.timer.Armed? && s' == s.(timer := Fired)
    case ReceiveTimer =>
      s.consumer.Selecting? && s.timer.Fired? && s' == s.(timer := Stopped, consumer := Flushing)
    case Flush =>
      && s.consumer.Flushing?
      && s' == if s.pending == [] then s.(consumer := Selecting)
               else s.(syncs := s.syncs + [Batch(s.pending, s.emitted)], pending := [], consumer := Syncing)
    case FinishSync =>
      s.consumer.Syncing? && s' == s.(consumer := Selecting)
  }

  ghost predicate Next(s: State, s': State) {
    exists step :: Takes(s, s', step)
  }

  ghost predicate IsRun(run: seq<State>) {
    run != [] && Init(run[0]) && forall i :: 0 <= i < |run| - 1 ==> Next(run[i], run[i + 1])
  }

  // ---- Where a change is -------------------------------------------------------------------

  ghost predicate AmongItems(items: seq<Item>, id: nat) {
    exists i :: 0 <= i < |items| && Stands(items[i], id)
  }

  /** A sync begun after the change was emitted has it, or a marker for it. */
  ghost predicate Synced(s: State, id: nat) {
    exists i :: 0 <= i < |s.syncs| && AmongItems(s.syncs[i].items, id) && id <= s.syncs[i].at
  }

  /** In the channel, in the consumer's hand, in the deque or in a begun sync: itself or
      a marker no older than it. */
  ghost predicate Kept(s: State, id: nat) {
    || (s.channel.Some? && Stands(s.channel.value, id))
    || (s.consumer.Recording? && Stands(s.consumer.item, id))
    || AmongItems(s.pending, id)
    || Synced(s, id)
  }

  /** What the producer still has to say: the change it offers, or the marker for all. */
  ghost predicate InHand(s: State, id: nat) {
    match s.producer
    case Ready => false
    case Offering(n) => id == n
    case Overflowing(n) => id == n
    case Marking(n) => id <= n
  }

  ghost predicate NothingLost(s: State) {
    && (forall id :: 1 <= id <= s.emitted ==> Kept(s, id) || InHand(s, id))
    && (s.producer.Offering? || s.producer.Overflowing? || s.producer.Marking? ==> s.producer.id == s.emitted)
  }

  /** The deque is never left without a running timer. */
  ghost predicate TimerRuns(s: State) {
    s.pending != [] ==>
      s.timer != Stopped || s.consumer.StoppingTimer? || s.consumer.ResettingTimer? || s.consumer.Flushing?
  }

  ghost predicate SlotFree(s: State) {
    (s.producer.Marking? ==> s.channel == None) && !s.lostMarker
  }

  ghost predicate Inv(s: State) {
    NothingLost(s) && TimerRuns(s) && SlotFree(s)
  }

  lemma AmongAppended(items: seq<Item>, item: Item, id: nat)
    ensures AmongItems(items + [item], id) <==> AmongItems(items, id) || Stands(item, id)
  {
    var more := items + [item];
    assert more[|items|] == item;
    if AmongItems(items, id) {
      var i :| 0 <= i < |items| && Stands(items[i], id);
      assert more[i] == items[i];
    }
  }

  lemma SyncedAppended(s: State, s': State, id: nat)
    requires s'.syncs == s.syncs + [Batch(s.pending, s.emitted)] && id <= s.emitted
    ensures Synced(s', id) <==> Synced(s, id) || AmongItems(s.pending, id)
  {
    assert s'.syncs[|s.syncs|] == Batch(s.pending, s.emitted);
    if Synced(s, id) {
      var i :| 0 <= i < |s.syncs| && AmongItems(s.syncs[i].items, id) && id <= s.syncs[i].at;
      assert s'.syncs[i] == s.syncs[i];
    }
  }

  lemma StepKeepsOne(s: State, s': State, step: Step, id: nat)
    requires NothingLost(s) && SlotFree(s) && Takes(s, s', step) && 1 <= id <= s'.emitted
    ensures Kept(s', id) || InHand(s', id)
  {
    if step.Push? {
      AmongAppended(s.pending, s.consumer.item, id);
    }
    if step.Flush? && s.pending != [] {
      SyncedAppended(s, s', id);
    }
    if id <= s.emitted {
      assert Kept(s, id) || InHand(s, id);
    }
  }

  lemma StepKeepsInv(s: State, s': State, step: Step)
    requires Inv(s) && Takes(s, s', step)
    ensures Inv(s')
  {
    forall id | 1 <= id <= s'.emitted
      ensures Kept(s', id) || InHand(s', id)
    {
      StepKeepsOne(s, s', step, id);
    }
  }

  lemma {:induction false} RunKeepsInv(run: seq<State>, i: nat)
    requires IsRun(run) && i < |run|
    ensures Inv(run[i])
  {
    if i > 0 {
      RunKeepsInv(run, i - 1);
      assert Next(run[i - 1], run[i - 1 + 1]);
      var step :| Takes(run[i - 1], run[i], step);
      StepKeepsInv(run[i - 1], run[i], step);
    }
  }

  // ---- What follows for every run -----------------------------------------------------------

  /** Whenever the producer is not inside emitWatchChange, every change emitted so far is
      in the channel, with the consumer, in the deque or in a begun sync. */
  lemma NoChangeIsLost(run: seq<State>, i: nat, id: nat)
    requires IsRun(run) && i < |run| && 1 <= id <= run[i].emitted
    ensures run[i].producer.Ready? ==> Kept(run[i], id)
    ensures Kept(run[i], id) || InHand(run[i], id)
  {
    RunKeepsInv(run, i);
  }

  lemma LastDefaultIsUnreachable(run: seq<State>, i: nat)
    requires IsRun(run) && i < |run|
    ensures !run[i].lostMarker
    ensures run[i].producer.Marking? ==> run[i].channel == None
  {
    RunKeepsInv(run, i);
  }

  lemma PendingHasTimer(run: seq<State>, i: nat)
    requires IsRun(run) && i < |run| && run[i].consumer.Selecting? && run[i].pending != []
    ensures run[i].timer == Armed || run[i].timer == Fired
  {
    RunKeepsInv(run, i);
  }

  /** When both sides rest, the slot is empty and no timer runs, every change has been in
      a sync begun after it, or in the reach of a full rescan. */
  lemma RestMeansSynced(run: seq<State>, i: nat, id: nat)
    requires IsRun(run) && i < |run| && 1 <= id <= run[i].emitted
    requires run[i].producer.Ready? && run[i].channel == None
    requires run[i].consumer.Selecting? && run[i].timer.Stopped?
    ensures Synced(run[i], id)
  {
    RunKeepsInv(run, i);
    assert run[i].pending == [];
    assert !AmongItems(run[i].pending, id);
    assert Kept(run[i], id);
  }

  // ---- Markers come from overflows only ---------------------------------------------------------

  /** Every marker about, in the channel, with the consumer, in the deque or in a sync, and every
      marker still to be sent, is for a change of this set. */
  ghost predicate MarkersAmong(s: State, overflowed: set<nat>) {
    && (s.channel.Some? ==> MarksAmong(s.channel.value, overflowed))
    && (s.consumer.Recording? ==> MarksAmong(s.consumer.item, overflowed))
    && (forall i :: 0 <= i < |s.pending| ==> MarksAmong(s.pending[i], overflowed))
    && (forall b, i :: 0 <= b < |s.syncs| && 0 <= i < |s.syncs[b].items| ==> MarksAmong(s.syncs[b].items[i], overflowed))
    && (s.producer.Overflowing? || s.producer.Marking? ==> s.producer.id in overflowed)
  }

  predicate MarksAmong(item: Item, overflowed: set<nat>) {
    item.FullRescan? ==> item.id in overflowed
  }

  /** The change that this step finds the slot taken for. */
  function OverflowOf(s: State, s': State): set<nat> {
    if s.producer.Offering? && s.channel.Some? && s'.producer.Overflowing? then {s.producer.id} else {}
  }

  lemma StepKeepsMarkers(s: State, s': State, step: Step, overflowed: set<nat>)
    requires Takes(s, s', step) && MarkersAmong(s, overflowed)
    ensures MarkersAmong(s', overflowed + OverflowOf(s, s'))
  {
  }

  /** The changes that were offered while the slot was taken. */
  function Overflowed(run: seq<State>): set<nat> {
    if |run| < 2 then {}
    else Overflowed(run[..|run| - 1]) + OverflowOf(run[|run| - 2], run[|run| - 1])
  }

  lemma {:induction false} MarkersAreOverflows(run: seq<State>)
    requires IsRun(run)
    ensures MarkersAmong(run[|run| - 1], Overflowed(run))
    decreases |run|
  {
    if |run| > 1 {
      var n := |run| - 1;
      var before := run[..n];
      ShorterRun(run);
      MarkersAreOverflows(before);
      assert Next(run[n - 1], run[n - 1 + 1]);
      var step :| Takes(run[n - 1], run[n], step);
      StepKeepsMarkers(run[n - 1], run[n], step, Overflowed(before));
    }
  }

  lemma ShorterRun(run: seq<State>)
    requires IsRun(run) && |run| > 1
    ensures IsRun(run[..|run| - 1]) && run[..|run| - 1][|run| - 2] == run[|run| - 2]
  {
    var before := run[..|run| - 1];
    forall i | 0 <= i < |before| - 1 ensures Next(before[i], before[i + 1]) {
      assert Next(run[i], run[i + 1]);
    }
  }

  /** As long as no change met a taken slot, no change was turned into a marker: each one is
      kept, and in the end synced, as itself. */
  lemma NoOverflowNoMarker(run: seq<State>)
    requires IsRun(run) && Overflowed(run) == {}
    ensures var s := run[|run| - 1];
            && (s.channel.Some? ==> s.channel.value.Change?)
            && (forall i :: 0 <= i < |s.pending| ==> s.pending[i].Change?)
            && (forall b, i :: 0 <= b < |s.syncs| && 0 <= i < |s.syncs[b].items| ==> s.syncs[b].items[i].Change?)
  {
    MarkersAreOverflows(run);
  }

  // ---- Each side on its own -----------------------------------------------------------------------

  ghost predicate TakesAll(run: seq<State>, steps: seq<Step>) {
    |run| == |steps| + 1 && forall i :: 0 <= i < |steps| ==> Takes(run[i], run[i + 1], steps[i])
  }

  /** A change that finds the slot empty is put there as itself. */
  lemma EmitIntoEmptySlot(s: State) returns (run: seq<State>)
    requires s.producer.Ready? && s.channel == None
    ensures TakesAll(run, [Emit, Offer]) && run[0] == s
    ensures run[2] == s.(emitted := s.emitted + 1, channel := Some(Change(s.emitted + 1)))
  {
    var s1 := s.(emitted := s.emitted + 1, producer := Offering(s.emitted + 1));
    run := [s, s1, s1.(channel := Some(Change(s.emitted + 1)), producer := Ready)];
  }

  /** One that finds it taken leaves a marker in its place. */
  lemma EmitIntoTakenSlot(s: State) returns (run: seq<State>)
    requires s.producer.Ready? && s.channel.Some?
    ensures TakesAll(run, [Emit, Offer, Drain, Mark]) && run[0] == s
    ensures run[4] == s.(emitted := s.emitted + 1, channel := Some(FullRescan(s.emitted + 1)))
  {
    var s1 := s.(emitted := s.emitted + 1, producer := Offering(s.emitted + 1));
    var s2 := s1.(producer := Overflowing(s.emitted + 1));
    var s3 := s2.(channel := None, producer := Marking(s.emitted + 1));
    run := [s, s1, s2, s3, s3.(channel := Some(FullRescan(s.emitted + 1)), producer := Ready)];
  }

  /** The consumer takes what is in the slot and starts its timer anew. */
  lemma ReceiveAlone(s: State) returns (run: seq<State>)
    requires s.consumer.Selecting? && s.channel.Some?
    ensures TakesAll(run, [Receive, Push, StopTimer, ResetTimer]) && run[0] == s
    ensures run[4] == s.(channel := None, pending := s.pending + [s.channel.value], timer := Armed)
  {
    var s1 := s.(channel := None, consumer := Recording(s.channel.value));
    var s2 := s1.(pending := s.pending + [s.channel.value], consumer := StoppingTimer);
    var s3 := s2.(timer := Stopped, consumer := ResettingTimer);
    run := [s, s1, s2, s3, s3.(timer := Armed, consumer := Selecting)];
  }

  /** When the timer fires, a sync is begun with everything pending. */
  lemma FlushAlone(s: State) returns (run: seq<State>)
    requires s.consumer.Selecting? && s.timer.Armed? && s.pending != []
    ensures TakesAll(run, [Fire, ReceiveTimer, Flush, FinishSync]) && run[0] == s
    ensures run[4] == s.(timer := Stopped, pending := [], syncs := s.syncs + [Batch(s.pending, s.emitted)])
  {
    var s1 := s.(timer := Fired);
    var s2 := s1.(timer := Stopped, consumer := Flushing);
    var s3 := s2.(syncs := s.syncs + [Batch(s.pending, s.emitted)], pending := [], consumer := Syncing);
    run := [s, s1, s2, s3, s3.(consumer := Selecting)];
  }

  /** Whatever is not at rest can go on: the producer, the consumer and the timer. */
  lemma NeverStuck(s: State)
    ensures !s.producer.Ready? ==> exists s', step :: step in {Offer, Drain, Mark} && Takes(s, s', step)
    ensures !s.consumer.Selecting? ==> exists s', step :: step in {Push, StopTimer, ResetTimer, Flush, FinishSync} && Takes(s, s', step)
    ensures s.consumer.Selecting? && (s.channel.Some? || s.timer.Fired?) ==> exists s', step :: step in {Receive, ReceiveTimer} && Takes(s, s', step)
    ensures s.timer.Armed? ==> exists s' :: Takes(s, s', Fire)
  {
    match s.producer {
    case Ready =>
    case Offering(id) =>
      var s' := if s.channel == None then s.(channel := Some(Change(id)), producer := Ready) else s.(producer := Overflowing(id));
      assert Takes(s, s', Offer);
    case Overflowing(id) => assert Takes(s, s.(channel := None, producer := Marking(id)), Drain);
    case Marking(id) =>
      var s' := if s.channel == None then s.(channel := Some(FullRescan(id)), producer := Ready) else s.(lostMarker := true, producer := Ready);
      assert Takes(s, s', Mark);
    }
    ConsumerNeverStuck(s);
    if s.timer.Armed? {
      assert Takes(s, s.(timer := Fired), Fire);
    }
  }

  lemma ConsumerNeverStuck(s: State)
    ensures !s.consumer.Selecting? ==> exists s', step :: step in {Push, StopTimer, ResetTimer, Flush, FinishSync} && Takes(s, s', step)
    ensures s.consumer.Selecting? && (s.channel.Some? || s.timer.Fired?) ==> exists s', step :: step in {Receive, ReceiveTimer} && Takes(s, s', step)
  {
    match s.consumer
    case Selecting =>
      if s.channel.Some? {
        assert Takes(s, s.(channel := None, consumer := Recording(s.channel.value)), Receive);
      } else if s.timer.Fired? {
        assert Takes(s, s.(timer := Stopped, consumer := Flushing), ReceiveTimer);
      }
    case Recording(item) => assert Takes(s, s.(pending := s.pending + [item], consumer := StoppingTimer), Push);
    case StoppingTimer => assert Takes(s, s.(timer := Stopped, consumer := ResettingTimer), StopTimer);
    case ResettingTimer => assert Takes(s, s.(timer := Armed, consumer := Selecting), ResetTimer);
    case Flushing =>
      var s' := if s.pending == [] then s.(consumer := Selecting)
                else s.(syncs := s.syncs + [Batch(s.pending, s.emitted)], pending := [], consumer := Syncing);
      assert Takes(s, s', Flush);
    case Syncing => assert Takes(s, s.(consumer := Selecting), FinishSync);
  }
}
