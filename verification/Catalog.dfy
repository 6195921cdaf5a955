/** The catalog: assets, the variant index and the commands over both
    (internal/catalog/commands.go, queries.go, query_helpers.go). */
module Catalog {
  import opened Basics
  import opened Sorting
  import opened CatalogRecords
  import VariantIndex

  // ---- The state and its commands ----------------------------------------------

  /** What a catalog holds. */
  datatype CatalogState = CatalogState(assets: map<string, Asset>, variants: map<string, VariantRecord>)

  const EMPTY := CatalogState(map[], map[])

  datatype CatalogError = NilAsset | NilVariant | AssetNotFound

  datatype Command =
    | UpsertAsset(asset: Option<Asset>)
    | UpsertVariant(variant: Option<Variant>)
    | DeleteAsset(assetPath: string)
    | DeleteVariants(assetPath: string)
    | DeleteVariantByArtifactPath(artifactPath: string)
    | ReplaceCatalog(assets: seq<Option<Asset>>, variants: seq<Option<Variant>>)

  type Outcome = Result<CatalogState, CatalogError>

  function WithAsset(s: CatalogState, asset: Asset): CatalogState {
    s.(assets := s.assets[asset.path := asset])
  }

  /** One command; an error leaves the state as it was. */
  ghost function Execute(s: CatalogState, c: Command): Outcome {
    match c
    case UpsertAsset(_) => ExecuteUpsert(s, c)
    case UpsertVariant(_) => ExecuteUpsert(s, c)
    case DeleteAsset(path) => Ok(CatalogState(s.assets - {path}, WithoutAsset(s.variants, path)))
    case DeleteVariants(path) => Ok(s.(variants := WithoutAsset(s.variants, path)))
    case DeleteVariantByArtifactPath(path) => Ok(s.(variants := WithoutArtifact(s.variants, path)))
    case ReplaceCatalog(assets, variants) => Run(EMPTY, Upserts(assets, variants))
  }

  function Upserts(assets: seq<Option<Asset>>, variants: seq<Option<Variant>>): seq<Command> {
    AssetUpserts(assets) + VariantUpserts(variants)
  }

  function AssetUpserts(assets: seq<Option<Asset>>): seq<Command> {
    seq(|assets|, i requires 0 <= i < |assets| => UpsertAsset(assets[i]))
  }

  function VariantUpserts(variants: seq<Option<Variant>>): seq<Command> {
    seq(|variants|, i requires 0 <= i < |variants| => UpsertVariant(variants[i]))
  }

  predicate IsUpsert(c: Command) {
    c.UpsertAsset? || c.UpsertVariant?
  }

  /** A run of upserts that stops at the first error. */
  ghost function Run(s: CatalogState, commands: seq<Command>): Outcome
    requires forall c :: c in commands ==> IsUpsert(c)
    decreases |commands|
  {
    if commands == [] then Ok(s)
    else
      match ExecuteUpsert(s, commands[0])
      case Ok(next) => Run(next, commands[1..])
      case Err(e) => Err(e)
  }

  ghost function ExecuteUpsert(s: CatalogState, c: Command): Outcome
    requires IsUpsert(c)
  {
    match c
    case UpsertAsset(asset) => if asset.Some? then Ok(WithAsset(s, asset.value)) else Err(NilAsset)
    case UpsertVariant(variant) =>
      if variant == None then Err(NilVariant)
      else if variant.value.assetPath !in s.assets then Err(AssetNotFound)
      else Ok(s.(variants := Upserted(s.variants, NewVariantRecord(variant.value))))
  }

  ghost function After(s: CatalogState, c: Command): CatalogState {
    match Execute(s, c)
    case Ok(next) => next
    case Err(_) => s
  }

  ghost function AfterAll(s: CatalogState, commands: seq<Command>): CatalogState {
    if commands == [] then s else After(AfterAll(s, commands[..|commands| - 1]), commands[|commands| - 1])
  }

  // ---- What every reachable state keeps --------------------------------------------

  ghost predicate Consistent(s: CatalogState) {
    && WellKeyed(s.variants)
    && (forall p :: p in s.assets ==> s.assets[p].path == p)
    && (forall k :: k in s.variants ==> s.variants[k].assetPath in s.assets)
    && (forall k :: k in s.variants ==> IsProjection(s.variants[k]))
  }

  lemma UpsertKeepsConsistent(s: CatalogState, c: Command)
    requires Consistent(s) && IsUpsert(c)
    ensures ExecuteUpsert(s, c).Ok? ==> Consistent(ExecuteUpsert(s, c).value)
  {
    if c.UpsertVariant? && c.variant.Some? {
      UpsertedIsWellKeyed(s.variants, NewVariantRecord(c.variant.value));
      RecordIsProjection(c.variant.value);
    }
  }

  lemma {:induction false} RunKeepsConsistent(s: CatalogState, commands: seq<Command>)
    requires Consistent(s) && forall c :: c in commands ==> IsUpsert(c)
    ensures Run(s, commands).Ok? ==> Consistent(Run(s, commands).value)
    decreases |commands|
  {
    if commands != [] {
      UpsertKeepsConsistent(s, commands[0]);
      if ExecuteUpsert(s, commands[0]).Ok? {
        RunKeepsConsistent(ExecuteUpsert(s, commands[0]).value, commands[1..]);
      }
    }
  }

  lemma ExecuteKeepsConsistent(s: CatalogState, c: Command)
    requires Consistent(s)
    ensures Consistent(After(s, c))
  {
    if IsUpsert(c) {
      UpsertKeepsConsistent(s, c);
    } else if c.ReplaceCatalog? {
      RunKeepsConsistent(EMPTY, Upserts(c.assets, c.variants));
    }
  }

  /** In every state reached from the empty catalog, no two variants claim a slot and
      every variant's asset is present. */
  lemma {:induction false} ReachableIsConsistent(commands: seq<Command>)
    ensures Consistent(AfterAll(EMPTY, commands))
    decreases |commands|
  {
    if commands != [] {
      ReachableIsConsistent(commands[..|commands| - 1]);
      ExecuteKeepsConsistent(AfterAll(EMPTY, commands[..|commands| - 1]), commands[|commands| - 1]);
    }
  }

  lemma DeletedAssetLeavesNothing(commands: seq<Command>, path: string)
    ensures var s := AfterAll(EMPTY, commands + [DeleteAsset(path)]);
            path !in s.assets && forall k :: k in s.variants ==> s.variants[k].assetPath != path
  {
    var all := commands + [DeleteAsset(path)];
    assert all[..|all| - 1] == commands;
  }

  // ---- Runs of upserts in two parts ----------------------------------------------------

  lemma {:induction false} RunSplit(s: CatalogState, a: seq<Command>, b: seq<Command>)
    requires forall c :: c in a ==> IsUpsert(c)
    requires forall c :: c in b ==> IsUpsert(c)
    ensures Run(s, a + b) == match Run(s, a) { case Ok(t) => Run(t, b) case Err(e) => Err(e) }
    decreases |a|
  {
    if a == [] {
      assert a + b == b;
    } else {
      assert (a + b)[0] == a[0] && (a + b)[1..] == a[1..] + b;
      if ExecuteUpsert(s, a[0]).Ok? {
        RunSplit(ExecuteUpsert(s, a[0]).value, a[1..], b);
      }
    }
  }

  lemma RunOne(s: CatalogState, c: Command)
    requires IsUpsert(c)
    ensures Run(s, [c]) == ExecuteUpsert(s, c)
  {
    assert [c][1..] == [];
  }

  /** Running one command more. */
  lemma RunStep(s: CatalogState, commands: seq<Command>, i: nat)
    requires i < |commands| && forall c :: c in commands ==> IsUpsert(c)
    ensures Run(s, commands[..i + 1])
         == match Run(s, commands[..i]) { case Ok(t) => ExecuteUpsert(t, commands[i]) case Err(e) => Err(e) }
  {
    assert commands[..i + 1] == commands[..i] + [commands[i]];
    RunSplit(s, commands[..i], [commands[i]]);
    if Run(s, commands[..i]).Ok? {
      RunOne(Run(s, commands[..i]).value, commands[i]);
    }
  }

  lemma RunErrorStays(s: CatalogState, commands: seq<Command>, i: nat)
    requires i <= |commands| && forall c :: c in commands ==> IsUpsert(c)
    requires Run(s, commands[..i]).Err?
    ensures Run(s, commands) == Run(s, commands[..i])
  {
    assert commands == commands[..i] + commands[i..];
    RunSplit(s, commands[..i], commands[i..]);
  }

  /** Deleting by artifact path keeps consistency, and changes something exactly when some
      variant has that path. */
  lemma DropKeepsConsistent(s: CatalogState, artifactPath: string)
    requires Consistent(s)
    ensures Consistent(s.(variants := WithoutArtifact(s.variants, artifactPath)))
    ensures WithoutArtifact(s.variants, artifactPath) != s.variants
            <==> artifactPath != "" && exists k :: k in s.variants && s.variants[k].artifactPath == artifactPath
  {
    var t := WithoutArtifact(s.variants, artifactPath);
    if k :| artifactPath != "" && k in s.variants && s.variants[k].artifactPath == artifactPath {
      assert k !in t;
    } else {
      assert t == s.variants;
    }
  }

  // ---- The class ------------------------------------------------------------------

  predicate PathLeq(a: Asset, b: Asset) {
    StringLeq(a.path, b.path)
  }

  /** The list a fresh sort of the assets gives. */
  ghost predicate IsFreshAssetSort(assets: map<string, Asset>, list: seq<Asset>) {
    && SortedBy(list, PathLeq)
    && Distinct(list)
    && (forall a :: a in list <==> a.path in assets && assets[a.path] == a)
  }

  lemma PathLeqIsTotal()
    ensures TotalPreorder(PathLeq)
  {
    forall a, b ensures PathLeq(a, b) || PathLeq(b, a) {
      StringLeqTotal(a.path, b.path);
    }
    forall a, b, c | PathLeq(a, b) && PathLeq(b, c) ensures PathLeq(a, c) {
      StringLeqTransitive(a.path, b.path, c.path);
    }
  }

  lemma SortIsFreshAssetSort(assets: map<string, Asset>, list: seq<Asset>)
    requires Distinct(list) && forall a :: a in list <==> a.path in assets && assets[a.path] == a
    ensures IsFreshAssetSort(assets, SortBy(list, PathLeq))
  {
    PathLeqIsTotal();
    SortIsSortedPermutation(list, PathLeq);
    SameElements(SortBy(list, PathLeq), list);
    DistinctPermutation(list, SortBy(list, PathLeq));
  }

  datatype Entry = Entry(asset: Asset, variants: seq<VariantRecord>)

  function AssetsOf(entries: seq<Entry>): seq<Asset> {
    seq(|entries|, i requires 0 <= i < |entries| => entries[i].asset)
  }

  class IndexedCatalog {
    var assetsByPath: map<string, Asset>
    var sortedAssetCache: Option<seq<Asset>>
    var variants: VariantIndex.Index

    ghost function State(): CatalogState
      reads this, variants
    {
      CatalogState(assetsByPath, variants.byKey)
    }

    ghost predicate Valid()
      reads this, variants
    {
      && variants.Valid()
      && Consistent(State())
      && (sortedAssetCache.Some? ==> IsFreshAssetSort(assetsByPath, sortedAssetCache.value))
    }

    constructor ()
      ensures Valid() && fresh(variants) && State() == EMPTY
    {
      assetsByPath, sortedAssetCache := map[], None;
      variants := new VariantIndex.Index();
    }

    method UpsertAsset(asset: Option<Asset>) returns (err: Option<CatalogError>)
      requires Valid()
      modifies this
      ensures Valid() && variants == old(variants)
      ensures Execute(old(State()), Command.UpsertAsset(asset)) == if err == None then Ok(State()) else Err(err.value)
      ensures err.Some? ==> State() == old(State())
      ensures asset.Some? ==> assetsByPath == old(assetsByPath)[asset.value.path := asset.value]
    {
      ExecuteKeepsConsistent(State(), Command.UpsertAsset(asset));
      if asset == None {
        return Some(NilAsset);
      }
      assetsByPath := assetsByPath[asset.value.path := asset.value];
      sortedAssetCache := None;
      err := None;
    }

    method UpsertVariant(variant: Option<Variant>) returns (err: Option<CatalogError>)
      requires Valid()
      modifies this, variants
      ensures Valid() && variants == old(variants)
      ensures Execute(old(State()), Command.UpsertVariant(variant)) == if err == None then Ok(State()) else Err(err.value)
      ensures err.Some? ==> State() == old(State())
      ensures assetsByPath == old(assetsByPath)
      ensures variant.Some? && variant.value.assetPath in assetsByPath ==>
                variants.byKey == Upserted(old(variants.byKey), NewVariantRecord(variant.value))
    {
      ExecuteKeepsConsistent(State(), Command.UpsertVariant(variant));
      if variant == None {
        return Some(NilVariant);
      }
      var record := NewVariantRecord(variant.value);
      if record.assetPath !in assetsByPath {
        return Some(AssetNotFound);
      }
      variants.Upsert(record);
      err := None;
    }

    method DeleteAsset(assetPath: string) returns (removed: seq<VariantRecord>)
      requires Valid()
      modifies this, variants
      ensures Valid() && variants == old(variants)
      ensures State() == After(old(State()), Command.DeleteAsset(assetPath))
      ensures assetsByPath == old(assetsByPath) - {assetPath} && variants.byKey == WithoutAsset(old(variants.byKey), assetPath)
      ensures VariantIndex.IsFreshSort(old(variants.byKey), VariantIndex.OfAsset(assetPath), removed)
    {
      ExecuteKeepsConsistent(State(), Command.DeleteAsset(assetPath));
      assetsByPath := assetsByPath - {assetPath};
      sortedAssetCache := None;
      removed := variants.DeleteByAssetPath(assetPath);
    }

    method DeleteVariants(assetPath: string) returns (removed: seq<VariantRecord>)
      requires Valid()
      modifies this, variants
      ensures Valid() && variants == old(variants)
      ensures State() == After(old(State()), Command.DeleteVariants(assetPath))
      ensures assetsByPath == old(assetsByPath) && variants.byKey == WithoutAsset(old(variants.byKey), assetPath)
      ensures VariantIndex.IsFreshSort(old(variants.byKey), VariantIndex.OfAsset(assetPath), removed)
    {
      ExecuteKeepsConsistent(State(), Command.DeleteVariants(assetPath));
      removed := variants.DeleteByAssetPath(assetPath);
    }

    method DeleteVariantByArtifactPath(artifactPath: string) returns (found: bool)
      requires Valid()
      modifies this, variants
      ensures Valid() && variants == old(variants)
      ensures State() == After(old(State()), Command.DeleteVariantByArtifactPath(artifactPath))
      ensures assetsByPath == old(assetsByPath) && variants.byKey == WithoutArtifact(old(variants.byKey), artifactPath)
      ensures found <==> State() != old(State())
    {
      ghost var before := State();
      DropKeepsConsistent(before, artifactPath);
      found := variants.DeleteByArtifactPath(artifactPath);
    }

    method SortedAssets() returns (records: seq<Asset>)
      requires Valid()
      modifies this`sortedAssetCache
      ensures Valid()
      ensures IsFreshAssetSort(assetsByPath, records)
    {
      if sortedAssetCache.Some? {
        return sortedAssetCache.value;
      }
      var pending := assetsByPath.Keys;
      var values: seq<Asset> := [];
      while pending != {}
        invariant pending <= assetsByPath.Keys && Distinct(values)
        invariant forall a :: a in values <==> a.path in assetsByPath && assetsByPath[a.path] == a && a.path !in pending
        decreases pending
      {
        var p :| p in pending;
        values := values + [assetsByPath[p]];
        pending := pending - {p};
      }
      SortIsFreshAssetSort(assetsByPath, values);
      records := SortBy(values, PathLeq);
      sortedAssetCache := Some(records);
    }

    // ---- Queries ------------------------------------------------------------------

    function FindAsset(assetPath: string): Option<Asset>
      reads this
    {
      if assetPath in assetsByPath then Some(assetsByPath[assetPath]) else None
    }

    method ListVariants(assetPath: string) returns (records: seq<VariantRecord>)
      requires Valid()
      modifies variants`sortedByAssetPath
      ensures Valid()
      ensures VariantIndex.IsFreshSort(variants.byKey, VariantIndex.OfAsset(assetPath), records)
    {
      records := variants.ListByAssetPath(assetPath);
    }

    method ListVariantsByStage(stage: string) returns (records: seq<VariantRecord>)
      requires Valid()
      modifies variants`sortedByStage
      ensures Valid()
      ensures VariantIndex.IsFreshSort(variants.byKey, VariantIndex.OfStage(stage), records)
    {
      records := variants.ListByStage(stage);
    }

    /** Either the fold of the upserts from the empty catalog, or no change at all. */
    method ReplaceCatalog(newAssets: seq<Option<Asset>>, newVariants: seq<Option<Variant>>)
      returns (err: Option<CatalogError>)
      requires Valid()
      modifies this
      ensures Valid() && (variants == old(variants) || fresh(variants))
      ensures Run(EMPTY, Upserts(newAssets, newVariants)) == if err == None then Ok(State()) else Err(err.value)
      ensures err.Some? ==> State() == old(State())
    {
      RunSplit(EMPTY, AssetUpserts(newAssets), VariantUpserts(newVariants));
      RunKeepsConsistent(EMPTY, Upserts(newAssets, newVariants));
      var nextAssets := BuildAssetRecords(newAssets);
      if nextAssets.Err? {
        return Some(nextAssets.error);
      }
      var nextVariants, buildErr := BuildVariantRecords(newVariants, nextAssets.value);
      if buildErr.Some? {
        return buildErr;
      }
      assetsByPath := nextAssets.value;
      variants := nextVariants;
      sortedAssetCache := None;
      err := None;
    }

    /** The consistent view that snapshots are compiled from. */
    method Snapshot() returns (entries: seq<Entry>)
      requires Valid()
      modifies this`sortedAssetCache, variants`sortedByAssetPath
      ensures Valid() && variants == old(variants)
      ensures IsFreshAssetSort(assetsByPath, AssetsOf(entries))
      ensures forall e :: e in entries ==>
                VariantIndex.IsFreshSort(variants.byKey, VariantIndex.OfAsset(e.asset.path), e.variants)
    {
      var records := SortedAssets();
      entries := [];
      for i := 0 to |records|
        invariant Valid() && |entries| == i
        invariant forall j :: 0 <= j < i ==> entries[j].asset == records[j]
        invariant forall e :: e in entries ==>
                    VariantIndex.IsFreshSort(variants.byKey, VariantIndex.OfAsset(e.asset.path), e.variants)
      {
        var list := variants.ListByAssetPath(records[i].path);
        entries := entries + [Entry(records[i], list)];
      }
      assert AssetsOf(entries) == records;
    }
  }

  // ---- Building a catalog in one go ---------------------------------------------------

  method BuildAssetRecords(assets: seq<Option<Asset>>) returns (next: Result<map<string, Asset>, CatalogError>)
    ensures Run(EMPTY, AssetUpserts(assets))
         == match next { case Ok(m) => Ok(CatalogState(m, map[])) case Err(e) => Err(e) }
  {
    var m: map<string, Asset> := map[];
    ghost var commands := AssetUpserts(assets);
    for i := 0 to |assets|
      invariant Run(EMPTY, commands[..i]) == Ok(CatalogState(m, map[]))
    {
      RunStep(EMPTY, commands, i);
      if assets[i] == None {
        RunErrorStays(EMPTY, commands, i + 1);
        return Err(NilAsset);
      }
      m := m[assets[i].value.path := assets[i].value];
    }
    assert commands[..|assets|] == commands;
    next := Ok(m);
  }

  method BuildVariantRecords(variants: seq<Option<Variant>>, assets: map<string, Asset>)
    returns (index: VariantIndex.Index, err: Option<CatalogError>)
    ensures fresh(index) && index.Valid()
    ensures Run(CatalogState(assets, map[]), VariantUpserts(variants))
         == if err == None then Ok(CatalogState(assets, index.byKey)) else Err(err.value)
  {
    index := new VariantIndex.Index();
    ghost var start := CatalogState(assets, map[]);
    ghost var commands := VariantUpserts(variants);
    for i := 0 to |variants|
      invariant index.Valid() && fresh(index)
      invariant Run(start, commands[..i]) == Ok(CatalogState(assets, index.byKey))
    {
      RunStep(start, commands, i);
      if variants[i] == None {
        RunErrorStays(start, commands, i + 1);
        return index, Some(NilVariant);
      }
      var record := NewVariantRecord(variants[i].value);
      if record.assetPath !in assets {
        RunErrorStays(start, commands, i + 1);
        return index, Some(AssetNotFound);
      }
      index.Upsert(record);
    }
    assert commands[..|variants|] == commands;
    err := None;
  }

  /** The sorted assets come in strictly ascending order of their paths. */
  lemma FreshAssetSortOrder(assets: map<string, Asset>, list: seq<Asset>)
    requires IsFreshAssetSort(assets, list)
    ensures forall i, j :: 0 <= i < j < |list| ==> list[i].path != list[j].path && LexicographicallyUpTo(list[i].path, list[j].path)
  {
    forall i, j | 0 <= i < j < |list| ensures list[i].path != list[j].path && LexicographicallyUpTo(list[i].path, list[j].path) {
      assert PathLeq(list[i], list[j]);
      StringLeqIff(list[i].path, list[j].path);
      assert list[i] in list && list[j] in list;
    }
  }
}
