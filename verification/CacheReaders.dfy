/** Concurrent cache-filling readers and writers of the catalog.

    Readers hold the catalog lock shared and look up and fill a cache under a second,
    short lock, so each look-up and each fill is one step; the sort between them is not
    under that lock. A writer holds the catalog lock exclusively
    (internal/catalog/variant_index.go, queries.go, query_helpers.go, commands.go). */
module CacheReaders {
  import opened Basics
  import opened CatalogRecords
  import opened VariantIndex
  import Catalog

  type Thread = nat

  /** What a reader asks for: a sorted view of the variants, or the sorted assets. */
  datatype Query = OfView(view: View) | OfAssets

  datatype Answer = Records(view: View, records: seq<VariantRecord>) | Assets(assets: seq<Asset>) {
    function Query(): Query {
      if Records? then OfView(view) else OfAssets
    }
  }

  datatype Phase =
    | Idle
    | Reading(query: Query)
    | Missed(query: Query)
    | Sorted(answer: Answer)
    | Answering(answer: Answer)
    | Writing
    | Invalidated(record: VariantRecord)
    | AssetsChanged

  datatype State = State(
    table: map<string, VariantRecord>,
    caches: map<View, seq<VariantRecord>>,
    assets: map<string, Asset>,
    assetCache: Option<seq<Asset>>,
    phases: map<Thread, Phase>)
  {
    function Cached(q: Query): Option<Answer> {
      match q
      case OfView(v) => if v in caches then Some(Records(v, caches[v])) else None
      case OfAssets => if assetCache.Some? then Some(Assets(assetCache.value)) else None
    }

    function Store(answer: Answer): State {
      match answer
      case Records(v, list) => this.(caches := caches[v := list])
      case Assets(list) => this.(assetCache := Some(list))
    }

    ghost predicate IsFresh(answer: Answer) {
      match answer
      case Records(v, list) => IsFreshSort(table, v, list)
      case Assets(list) => Catalog.IsFreshAssetSort(assets, list)
    }
  }

  predicate Writes(p: Phase) {
    p.Writing? || p.Invalidated? || p.AssetsChanged?
  }

  ghost predicate Init(s: State) {
    && s.table == map[] && s.caches == map[] && s.assets == map[] && s.assetCache == None
    && forall t :: t in s.phases ==> s.phases[t] == Idle
  }

  predicate At(s: State, t: Thread, p: Phase) {
    t in s.phases && s.phases[t] == p
  }

  function Move(s: State, t: Thread, p: Phase): State {
    s.(phases := s.phases[t := p])
  }

  // ---- Steps of readers ----------------------------------------------------------

  ghost predicate LockShared(s: State, s': State, t: Thread, q: Query) {
    && At(s, t, Idle)
    && (forall u :: u in s.phases ==> !Writes(s.phases[u]))
    && s' == Move(s, t, Reading(q))
  }

  ghost predicate LookUp(s: State, s': State, t: Thread, q: Query) {
    At(s, t, Reading(q)) && s' == Move(s, t, if s.Cached(q).Some? then Answering(s.Cached(q).value) else Missed(q))
  }

  ghost predicate Sort(s: State, s': State, t: Thread, answer: Answer) {
    At(s, t, Missed(answer.Query())) && s.IsFresh(answer) && s' == Move(s, t, Sorted(answer))
  }

  /** The second look before filling: another reader may have been faster. */
  ghost predicate Fill(s: State, s': State, t: Thread, answer: Answer) {
    && At(s, t, Sorted(answer))
    && var cached := s.Cached(answer.Query());
    s' == if cached.Some? then Move(s, t, Answering(cached.value)) else Move(s.Store(answer), t, Answering(answer))
  }

  /** A reader may ask again under the same lock, as a snapshot does for every asset. */
  ghost predicate AskAgain(s: State, s': State, t: Thread, q: Query) {
    t in s.phases && s.phases[t].Answering? && s' == Move(s, t, Reading(q))
  }

  ghost predicate UnlockShared(s: State, s': State, t: Thread) {
    t in s.phases && s.phases[t].Answering? && s' == Move(s, t, Idle)
  }

  // ---- Steps of writers ----------------------------------------------------------

  ghost predicate LockExclusive(s: State, s': State, t: Thread) {
    && t in s.phases
    && (forall u :: u in s.phases ==> s.phases[u] == Idle)
    && s' == Move(s, t, Writing)
  }

  /** invalidateRecordCache: every cached view that shows the record goes. */
  ghost predicate Invalidate(s: State, s': State, t: Thread, r: VariantRecord) {
    && At(s, t, Writing)
    && s' == Move(s.(caches := map v | v in s.caches && !Shows(v, r) :: s.caches[v]), t, Invalidated(r))
  }

  /** The index maps change: the invalidated record leaves, or arrives. */
  ghost predicate Update(s: State, s': State, t: Thread, r: VariantRecord) {
    && At(s, t, Invalidated(r))
    && ((Live(s.table, r) && s' == Move(s.(table := s.table - {Key(r)}), t, Writing))
        || (Key(r) !in s.table && s' == Move(s.(table := s.table[Key(r) := r]), t, Writing)))
  }

  /** deleteByAssetPath lists the records it deletes, and so fills a cache as a reader does. */
  ghost predicate FillExclusive(s: State, s': State, t: Thread, answer: Answer) {
    && At(s, t, Writing) && answer.Records? && s.Cached(answer.Query()) == None && s.IsFresh(answer)
    && s' == s.Store(answer)
  }

  /** The assets change; their cache is dropped after that. */
  ghost predicate ChangeAssets(s: State, s': State, t: Thread, assets: map<string, Asset>) {
    At(s, t, Writing) && s' == Move(s.(assets := assets), t, AssetsChanged)
  }

  ghost predicate InvalidateAssets(s: State, s': State, t: Thread) {
    At(s, t, AssetsChanged) && s' == Move(s.(assetCache := None), t, Writing)
  }

  /** ReplaceCatalog: other assets, and another index with empty caches. */
  ghost predicate Replace(s: State, s': State, t: Thread, assets: map<string, Asset>, table: map<string, VariantRecord>) {
    && At(s, t, Writing) && (forall k :: k in table ==> Key(table[k]) == k)
    && s' == Move(s.(assets := assets, table := table, caches := map[]), t, AssetsChanged)
  }

  ghost predicate UnlockExclusive(s: State, s': State, t: Thread) {
    At(s, t, Writing) && s' == Move(s, t, Idle)
  }

  datatype Step =
    | LockSharedStep(q: Query) | LookUpStep(q: Query) | SortStep(answer: Answer) | FillStep(answer: Answer)
    | AskAgainStep(q: Query) | UnlockSharedStep | LockExclusiveStep | InvalidateStep(r: VariantRecord)
    | UpdateStep(r: VariantRecord) | FillExclusiveStep(answer: Answer) | ChangeAssetsStep(assets: map<string, Asset>)
    | InvalidateAssetsStep | ReplaceStep(assets: map<string, Asset>, table: map<string, VariantRecord>) | UnlockExclusiveStep

  ghost predicate Takes(s: State, s': State, t: Thread, step: Step) {
    match step
    case LockSharedStep(q) => LockShared(s, s', t, q)
    case LookUpStep(q) => LookUp(s, s', t, q)
    case SortStep(answer) => Sort(s, s', t, answer)
    case FillStep(answer) => Fill(s, s', t, answer)
    case AskAgainStep(q) => AskAgain(s, s', t, q)
    case UnlockSharedStep => UnlockShared(s, s', t)
    case LockExclusiveStep => LockExclusive(s, s', t)
    case InvalidateStep(r) => Invalidate(s, s', t, r)
    case UpdateStep(r) => Update(s, s', t, r)
    case FillExclusiveStep(answer) => FillExclusive(s, s', t, answer)
    case ChangeAssetsStep(assets) => ChangeAssets(s, s', t, assets)
    case InvalidateAssetsStep => InvalidateAssets(s, s', t)
    case ReplaceStep(assets, table) => Replace(s, s', t, assets, table)
    case UnlockExclusiveStep => UnlockExclusive(s, s', t)
  }

  ghost predicate Next(s: State, s': State) {
    exists t, step :: Takes(s, s', t, step)
  }

  ghost predicate IsRun(run: seq<State>) {
    run != [] && Init(run[0]) && forall i :: 0 <= i < |run| - 1 ==> Next(run[i], run[i + 1])
  }

  // ---- The invariant ----------------------------------------------------------------

  ghost predicate HoldsFresh(s: State, p: Phase) {
    && (p.Sorted? ==> s.IsFresh(p.answer))
    && (p.Answering? ==> s.IsFresh(p.answer))
    && (p.Invalidated? ==> forall v :: v in s.caches ==> !Shows(v, p.record))
  }

  /** A writer is between changing the assets and dropping their cache. */
  ghost predicate AssetsMayBeStale(s: State) {
    exists t :: t in s.phases && s.phases[t].AssetsChanged?
  }

  ghost predicate Inv(s: State) {
    && (forall k :: k in s.table ==> Key(s.table[k]) == k)
    && (forall v :: v in s.caches ==> IsFreshSort(s.table, v, s.caches[v]))
    && (s.assetCache.Some? && !AssetsMayBeStale(s) ==> Catalog.IsFreshAssetSort(s.assets, s.assetCache.value))
    && (forall t :: t in s.phases ==> HoldsFresh(s, s.phases[t]))
    && (forall t, u :: t in s.phases && u in s.phases && t != u && Writes(s.phases[t]) ==> s.phases[u] == Idle)
  }

  lemma UpdateKeepsInv(s: State, s': State, t: Thread, r: VariantRecord)
    requires Inv(s) && Update(s, s', t, r)
    ensures Inv(s')
  {
    forall v | v in s'.caches
      ensures IsFreshSort(s'.table, v, s'.caches[v])
    {
      assert HoldsFresh(s, s.phases[t]);
      forall x | Shows(v, x)
        ensures Live(s.table, x) <==> Live(s'.table, x)
      {
      }
      FreshSortFrame(s.table, s'.table, v, s.caches[v]);
    }
    forall u | u in s'.phases
      ensures HoldsFresh(s', s'.phases[u])
    {
      assert u == t || s.phases[u] == Idle;
    }
    NoneStale(s, t);
  }

  lemma NoneStale(s: State, t: Thread)
    requires Inv(s) && t in s.phases && s.phases[t] != AssetsChanged && s.phases[t] != Idle
    ensures !AssetsMayBeStale(s)
  {
    if AssetsMayBeStale(s) {
      var u :| u in s.phases && s.phases[u].AssetsChanged?;
      assert Writes(s.phases[u]);
    }
  }

  ghost predicate NobodyWrites(s: State) {
    forall t :: t in s.phases ==> !Writes(s.phases[t])
  }

  lemma NobodyWritesBeside(s: State, t: Thread)
    requires Inv(s) && t in s.phases && s.phases[t] != Idle && !Writes(s.phases[t])
    ensures NobodyWrites(s)
  {
  }

  lemma MoveKeepsInv(s: State, t: Thread, p: Phase)
    requires Inv(s) && NobodyWrites(s) && t in s.phases && !Writes(p) && HoldsFresh(s, p)
    ensures Inv(Move(s, t, p)) && NobodyWrites(Move(s, t, p))
  {
    var s' := Move(s, t, p);
    assert !AssetsMayBeStale(s);
    forall u | u in s'.phases ensures HoldsFresh(s', s'.phases[u]) {
      assert HoldsFresh(s, s.phases[u]);
    }
  }

  lemma StoreKeepsInv(s: State, answer: Answer)
    requires Inv(s) && !AssetsMayBeStale(s) && s.IsFresh(answer)
    requires forall t :: t in s.phases ==> !s.phases[t].Invalidated?
    ensures Inv(s.Store(answer))
  {
    var s' := s.Store(answer);
    forall u | u in s'.phases ensures HoldsFresh(s', s'.phases[u]) {
      assert HoldsFresh(s, s.phases[u]);
    }
  }

  lemma CachedIsFresh(s: State, q: Query)
    requires Inv(s) && !AssetsMayBeStale(s)
    ensures s.Cached(q).Some? ==> s.IsFresh(s.Cached(q).value)
  {
  }

  predicate IsReaderStep(step: Step) {
    step.LookUpStep? || step.SortStep? || step.FillStep? || step.AskAgainStep? || step.UnlockSharedStep? || step.LockSharedStep?
  }

  lemma ReaderKeepsInv(s: State, s': State, t: Thread, step: Step)
    requires Inv(s) && Takes(s, s', t, step) && IsReaderStep(step)
    ensures Inv(s')
  {
    if !step.LockSharedStep? {
      NobodyWritesBeside(s, t);
    }
    assert HoldsFresh(s, s.phases[t]) && !AssetsMayBeStale(s);
    match step
    case LockSharedStep(q) => MoveKeepsInv(s, t, Reading(q));
    case LookUpStep(q) =>
      CachedIsFresh(s, q);
      MoveKeepsInv(s, t, if s.Cached(q).Some? then Answering(s.Cached(q).value) else Missed(q));
    case SortStep(answer) => MoveKeepsInv(s, t, Sorted(answer));
    case FillStep(answer) => FillKeepsInv(s, s', t, answer);
    case AskAgainStep(q) => MoveKeepsInv(s, t, Reading(q));
    case UnlockSharedStep => MoveKeepsInv(s, t, Idle);
  }

  lemma FillKeepsInv(s: State, s': State, t: Thread, answer: Answer)
    requires Inv(s) && NobodyWrites(s) && !AssetsMayBeStale(s) && Fill(s, s', t, answer)
    ensures Inv(s')
  {
    assert HoldsFresh(s, s.phases[t]);
    var cached := s.Cached(answer.Query());
    if cached.Some? {
      CachedIsFresh(s, answer.Query());
      MoveKeepsInv(s, t, Answering(cached.value));
    } else {
      StoreKeepsInv(s, answer);
      MoveKeepsInv(s.Store(answer), t, Answering(answer));
    }
  }

  predicate ChangesAssets(step: Step) {
    step.ChangeAssetsStep? || step.InvalidateAssetsStep? || step.ReplaceStep?
  }

  lemma AssetStepKeepsInv(s: State, s': State, t: Thread, step: Step)
    requires Inv(s) && Takes(s, s', t, step) && ChangesAssets(step)
    ensures Inv(s')
  {
    assert forall u :: u in s.phases && u != t ==> s'.phases[u] == Idle;
    assert s'.phases[t].AssetsChanged? || step.InvalidateAssetsStep?;
  }

  lemma WriterKeepsInv(s: State, s': State, t: Thread, step: Step)
    requires Inv(s) && Takes(s, s', t, step)
    requires step.LockExclusiveStep? || step.InvalidateStep? || step.UnlockExclusiveStep?
    ensures Inv(s')
  {
    assert forall u :: u in s.phases && u != t ==> s'.phases[u] == Idle;
    if !step.LockExclusiveStep? {
      NoneStale(s, t);
    }
  }

  lemma FillExclusiveKeepsInv(s: State, s': State, t: Thread, answer: Answer)
    requires Inv(s) && FillExclusive(s, s', t, answer)
    ensures Inv(s')
  {
    NoneStale(s, t);
    assert forall u :: u in s.phases && u != t ==> s.phases[u] == Idle;
    StoreKeepsInv(s, answer);
  }

  lemma StepKeepsInv(s: State, s': State, t: Thread, step: Step)
    requires Inv(s) && Takes(s, s', t, step)
    ensures Inv(s')
  {
    if step.UpdateStep? {
      UpdateKeepsInv(s, s', t, step.r);
    } else if IsReaderStep(step) {
      ReaderKeepsInv(s, s', t, step);
    } else if ChangesAssets(step) {
      AssetStepKeepsInv(s, s', t, step);
    } else if step.FillExclusiveStep? {
      FillExclusiveKeepsInv(s, s', t, step.answer);
    } else {
      WriterKeepsInv(s, s', t, step);
    }
  }

  lemma {:induction false} RunKeepsInv(run: seq<State>, i: nat)
    requires IsRun(run) && i < |run|
    ensures Inv(run[i])
  {
    if i > 0 {
      RunKeepsInv(run, i - 1);
      assert Next(run[i - 1], run[i - 1 + 1]);
      var t, step :| Takes(run[i - 1], run[i], t, step);
      StepKeepsInv(run[i - 1], run[i], t, step);
    }
  }

  /** In every run, at every moment, every cached list of variants is the fresh sort of its
      view, the cached list of assets is one but while a writer is about to drop it, and every
      list a reader is about to return is fresh. */
  lemma CachesAreFreshSorts(run: seq<State>, i: nat)
    requires IsRun(run) && i < |run|
    ensures forall v :: v in run[i].caches ==> IsFreshSort(run[i].table, v, run[i].caches[v])
    ensures run[i].assetCache.Some? && !AssetsMayBeStale(run[i]) ==>
              Catalog.IsFreshAssetSort(run[i].assets, run[i].assetCache.value)
    ensures forall t :: t in run[i].phases && run[i].phases[t].Answering? ==> run[i].IsFresh(run[i].phases[t].answer)
  {
    RunKeepsInv(run, i);
    assert forall t :: t in run[i].phases ==> HoldsFresh(run[i], run[i].phases[t]);
  }

  /** The cached list of assets is fresh whenever anyone can read it. */
  lemma ReadersSeeFreshAssets(run: seq<State>, i: nat, t: Thread)
    requires IsRun(run) && i < |run| && t in run[i].phases && run[i].phases[t] != Idle && !Writes(run[i].phases[t])
    ensures run[i].assetCache.Some? ==> Catalog.IsFreshAssetSort(run[i].assets, run[i].assetCache.value)
  {
    RunKeepsInv(run, i);
    NoneStale(run[i], t);
  }

  // ---- One thread on its own -----------------------------------------------------------------

  ghost predicate TakesAll(run: seq<State>, t: Thread, steps: seq<Step>) {
    |run| == |steps| + 1 && forall i :: 0 <= i < |steps| ==> Takes(run[i], run[i + 1], t, steps[i])
  }

  /** A reader that misses sorts, fills the cache and answers what it sorted. */
  lemma MissAlone(s: State, t: Thread, answer: Answer) returns (run: seq<State>)
    requires At(s, t, Idle) && NobodyWrites(s) && s.Cached(answer.Query()) == None && s.IsFresh(answer)
    ensures TakesAll(run, t, [LockSharedStep(answer.Query()), LookUpStep(answer.Query()), SortStep(answer), FillStep(answer)])
    ensures run[0] == s && run[4] == Move(s.Store(answer), t, Answering(answer))
  {
    var q := answer.Query();
    var s1 := Move(s, t, Reading(q));
    var s2 := Move(s1, t, Missed(q));
    var s3 := Move(s2, t, Sorted(answer));
    var s4 := Move(s3.Store(answer), t, Answering(answer));
    run := [s, s1, s2, s3, s4];
    assert s4.phases == s.phases[t := Answering(answer)];
  }

  /** A reader that hits answers what is cached and changes nothing. */
  lemma HitAlone(s: State, t: Thread, q: Query) returns (run: seq<State>)
    requires At(s, t, Idle) && NobodyWrites(s) && s.Cached(q).Some?
    ensures TakesAll(run, t, [LockSharedStep(q), LookUpStep(q), UnlockSharedStep]) && run[0] == s
    ensures run[2] == Move(s, t, Answering(s.Cached(q).value)) && run[3] == s
  {
    var s1 := Move(s, t, Reading(q));
    var s2 := Move(s1, t, Answering(s.Cached(q).value));
    run := [s, s1, s2, Move(s2, t, Idle)];
    assert s2.phases == s.phases[t := Answering(s.Cached(q).value)];
    assert run[3].phases == s.phases;
  }

  /** A writer that adds a record drops exactly the cached views that show it. */
  lemma AddAlone(s: State, t: Thread, r: VariantRecord) returns (run: seq<State>)
    requires t in s.phases && (forall u :: u in s.phases ==> s.phases[u] == Idle) && Key(r) !in s.table
    ensures TakesAll(run, t, [LockExclusiveStep, InvalidateStep(r), UpdateStep(r), UnlockExclusiveStep]) && run[0] == s
    ensures run[4] == s.(table := s.table[Key(r) := r], caches := map v | v in s.caches && !Shows(v, r) :: s.caches[v])
  {
    var s1 := Move(s, t, Writing);
    var s2 := Move(s1.(caches := map v | v in s1.caches && !Shows(v, r) :: s1.caches[v]), t, Invalidated(r));
    var s3 := Move(s2.(table := s2.table[Key(r) := r]), t, Writing);
    var s4 := Move(s3, t, Idle);
    run := [s, s1, s2, s3, s4];
    assert s4.phases == s.phases;
  }

  /** A writer that changes the assets drops their cache and nothing else. */
  lemma ChangeAssetsAlone(s: State, t: Thread, assets: map<string, Asset>) returns (run: seq<State>)
    requires t in s.phases && forall u :: u in s.phases ==> s.phases[u] == Idle
    ensures TakesAll(run, t, [LockExclusiveStep, ChangeAssetsStep(assets), InvalidateAssetsStep, UnlockExclusiveStep]) && run[0] == s
    ensures run[4] == s.(assets := assets, assetCache := None)
  {
    var s1 := Move(s, t, Writing);
    var s2 := Move(s1.(assets := assets), t, AssetsChanged);
    var s3 := Move(s2.(assetCache := None), t, Writing);
    var s4 := Move(s3, t, Idle);
    run := [s, s1, s2, s3, s4];
    assert s4.phases == s.phases;
  }
}
