/** Bringing the catalog up to date with a changed source, in full or from change events
    (internal/task/source_rescan.go, source_rescan_sidecar.go, source_rescan_change_set.go,
    source_rescan_change_set_processing.go). */
module SourceRescan {
  import opened Basics
  import opened CatalogRecords
  import opened Catalog
  import opened SidecarMatching
  import opened SourceSync
  import opened SourceScan
  import opened SourceChanges
  import opened SourceIncrement
  import VariantIndex

  datatype SyncError = ScanFailed | CatalogFailed

  /** assetChanged, for two assets of one path. */
  predicate AssetChanged(existing: Asset, next: Asset) {
    || existing.fullPath != next.fullPath || existing.size != next.size || existing.mediaType != next.mediaType
    || existing.sourceHash != next.sourceHash || existing.etag != next.etag
  }

  lemma UnchangedIsBareEqual(existing: Asset, next: Asset)
    requires existing.path == next.path
    ensures AssetChanged(existing, next) <==> BareAsset(existing) != BareAsset(next)
  {
  }

  /** The premises about a scanner's state of the source. */
  ghost predicate SoundSource(sc: Scanner) {
    SoundScanner(sc) && WellFormed(sc) && OneSidecarPerImage(sc)
  }

  class SourceRescanRun {
    const scanner: Scanner
    const cat: IndexedCatalog

    /** The catalog is in order. Here and below sc is the part of the source that the run
        accounts for: all of it, unless a change set drops an asset that is there. */
    ghost predicate Ready(sc: Scanner)
      reads cat, cat.variants
    {
      cat.Valid() && SoundSource(sc) && AllShaped(sc, cat.variants.byKey)
    }

    constructor (scanner: Scanner, cat: IndexedCatalog)
      ensures this.scanner == scanner && this.cat == cat
    {
      this.scanner, this.cat := scanner, cat;
    }

    // ---- Steps ------------------------------------------------------------------------------

    /** Upserting a sidecar as it should be settles it. */
    method UpsertSidecar(q: string, v: Variant, ghost sc: Scanner) returns (error: Option<SyncError>)
      requires Ready(sc) && IsTrustedSidecar(sc, q) && v.assetPath in cat.assetsByPath
      requires BareVariant(v) == BareVariant(TargetVariant(sc, q)) && StageKey(v) == SOURCE_SIDECAR_STAGE
      modifies cat, cat.variants
      ensures Ready(sc) && cat.variants == old(cat.variants) && cat.assetsByPath == old(cat.assetsByPath)
      ensures error == None && SidecarSettled(sc, cat.variants.byKey, q)
      ensures KeepsSettled(sc, old(cat.variants.byKey), cat.variants.byKey)
      ensures OnlyAdds(old(cat.variants.byKey), cat.variants.byKey, q)
    {
      UpsertSettles(sc, cat.variants.byKey, q, v);
      UpsertOnlyAdds(sc, cat.variants.byKey, q, v);
      var failed := cat.UpsertVariant(Some(v));
      error := None;
    }

    /** DeleteVariants. */
    method DropVariants(p: string, ghost sc: Scanner)
      requires Ready(sc)
      modifies cat, cat.variants
      ensures Ready(sc) && cat.variants == old(cat.variants) && cat.assetsByPath == old(cat.assetsByPath)
      ensures KeepsSettledBut(sc, old(cat.variants.byKey), cat.variants.byKey, p)
      ensures NoneBasedOn(sc, cat.variants.byKey, p)
    {
      WithoutAssetSettles(sc, cat.variants.byKey, p);
      var removed := cat.DeleteVariants(p);
    }

    /** DeleteAsset, for a path that is no asset any more. */
    method DropAsset(p: string, ghost sc: Scanner)
      requires Ready(sc) && !IsAssetPath(sc, p)
      modifies cat, cat.variants
      ensures Ready(sc) && cat.variants == old(cat.variants) && cat.assetsByPath == old(cat.assetsByPath) - {p}
      ensures KeepsSettled(sc, old(cat.variants.byKey), cat.variants.byKey) && NoneBasedOn(sc, cat.variants.byKey, p)
    {
      WithoutAssetSettles(sc, cat.variants.byKey, p);
      WithoutBase(sc, cat.variants.byKey, p);
      var removed := cat.DeleteAsset(p);
    }

    method StoreAsset(asset: Asset, ghost sc: Scanner) returns (error: Option<SyncError>)
      requires Ready(sc)
      modifies cat, cat.variants
      ensures Ready(sc) && cat.variants == old(cat.variants) && cat.variants.byKey == old(cat.variants.byKey)
      ensures cat.assetsByPath == old(cat.assetsByPath)[asset.path := asset] && error == None
    {
      var failed := cat.UpsertAsset(Some(asset));
      error := None;
    }

    /** removeSidecarVariants: the sidecar at this path goes, and no other. */
    method RemoveSidecarVariants(m: Match, ghost q: string, ghost sc: Scanner)
      requires Ready(sc) && sc.sidecarOf(q) == Some(m) && q == m.assetPath + m.suffix && m.assetPath != ""
      modifies cat, cat.variants
      ensures Ready(sc) && cat.variants == old(cat.variants) && cat.assetsByPath == old(cat.assetsByPath)
      ensures OnlyWent(old(cat.variants.byKey), cat.variants.byKey, q) && Absent(cat.variants.byKey, q)
    {
      if m.assetPath == "" {
        return;
      }
      ghost var start := cat.variants.byKey;
      var records := cat.ListVariants(m.assetPath);
      var i := 0;
      while i < |records|
        invariant i <= |records| && Ready(sc) && cat.variants == old(cat.variants) && cat.assetsByPath == old(cat.assetsByPath)
        invariant OnlyWent(start, cat.variants.byKey, q)
        invariant Unlisted(start, cat.variants.byKey, records[..i], q)
        decreases |records| - i
      {
        RemoveIfMatching(records[i], m, q, start, sc);
        StillUnlisted(start, cat.variants.byKey, records, i, q);
        i := i + 1;
      }
      NoneUnlisted(start, cat.variants.byKey, records, m.assetPath, q, sc);
    }

    method RemoveIfMatching(r: VariantRecord, m: Match, ghost q: string, ghost start: VariantTable, ghost sc: Scanner)
      requires Ready(sc) && WellKeyed(start) && Live(start, r) && OnlyWent(start, cat.variants.byKey, q)
      requires sc.sidecarOf(q) == Some(m) && q == m.assetPath + m.suffix && AllShaped(sc, start)
      modifies cat, cat.variants
      ensures Ready(sc) && cat.variants == old(cat.variants) && cat.assetsByPath == old(cat.assetsByPath)
      ensures OnlyWent(start, cat.variants.byKey, q)
      ensures HoldsSidecar(r, q) ==> Key(r) !in cat.variants.byKey
      ensures forall k :: k in cat.variants.byKey ==> k in old(cat.variants.byKey)
    {
      if r.encoding == m.encoding && r.id == m.assetPath + m.suffix {
        RemoveListed(r, q, start, sc);
      }
    }

    /** DeleteVariantByArtifactPath. */
    method DropFile(artifactPath: string, ghost sc: Scanner) returns (found: bool)
      requires Ready(sc)
      modifies cat, cat.variants
      ensures Ready(sc) && cat.variants == old(cat.variants) && cat.assetsByPath == old(cat.assetsByPath)
      ensures cat.variants.byKey == WithoutArtifact(old(cat.variants.byKey), artifactPath)
    {
      StillShaped(sc, cat.variants.byKey, artifactPath);
      found := cat.DeleteVariantByArtifactPath(artifactPath);
    }

    method RemoveListed(r: VariantRecord, ghost q: string, ghost start: VariantTable, ghost sc: Scanner)
      requires Ready(sc) && WellKeyed(start) && Live(start, r) && r.id == q && OnlyWent(start, cat.variants.byKey, q)
      modifies cat, cat.variants
      ensures Ready(sc) && cat.variants == old(cat.variants) && cat.assetsByPath == old(cat.assetsByPath)
      ensures OnlyWent(start, cat.variants.byKey, q)
      ensures r.artifactPath != "" ==> Key(r) !in cat.variants.byKey
      ensures forall k :: k in cat.variants.byKey ==> k in old(cat.variants.byKey)
    {
      ghost var before := cat.variants.byKey;
      WithoutRecordFile(start, before, Key(r));
      OnlyWentTrans(start, before, WithoutArtifact(before, r.artifactPath), q);
      var found := DropFile(r.artifactPath, sc);
    }

    // ---- The incremental steps -----------------------------------------------------------------

    /** Scanner.FindFile. */
    function FindFile(path: string): Option<File> {
      var normalized := scanner.normal(path);
      if normalized in scanner.tree then Some(scanner.tree[normalized]) else None
    }

    /** The trusted sidecar of an asset that a matcher finds. */
    method BuildSidecarVariant(asset: Asset, matcher: Matcher, ghost sc: Scanner) returns (variant: Option<Variant>)
      requires FindsSidecars(scanner, sc) && SoundSource(sc) && matcher in sc.matchers && IsAssetPath(sc, asset.path)
      requires BareAsset(asset) == BareAsset(TargetAsset(sc, asset.path))
      ensures sc.sidecarOf(asset.path + matcher.suffix) == Some(Match(asset.path, matcher.encoding, matcher.suffix))
      ensures variant.Some? <==> IsTrustedSidecar(sc, asset.path + matcher.suffix)
      ensures variant.Some? ==>
                && BareVariant(variant.value) == BareVariant(TargetVariant(sc, asset.path + matcher.suffix))
                && StageKey(variant.value) == SOURCE_SIDECAR_STAGE && variant.value.assetPath == asset.path
    {
      var sidecarPath := asset.path + matcher.suffix;
      assert PlainPath(sc, asset.path);
      assert sc.normal(sidecarPath) == sidecarPath && BasedInside(sc, sidecarPath);
      var file := FindFile(sidecarPath);
      if file == None {
        return None;
      }
      variant := SourceSidecarVariant(file.value, Match(asset.path, matcher.encoding, matcher.suffix), asset, sidecarPath, sc);
    }

    /** BuildSourceSidecarVariant: None when the payload is not trusted. */
    method SourceSidecarVariant(file: File, m: Match, asset: Asset, ghost q: string, ghost sc: Scanner) returns (variant: Option<Variant>)
      requires FindsSidecars(scanner, sc) && SoundSource(sc) && q in sc.tree && file == sc.tree[q] && sc.sidecarOf(q) == Some(m)
      requires BareAsset(asset) == BareAsset(TargetAsset(sc, m.assetPath))
      ensures variant.Some? <==> IsTrustedSidecar(sc, q)
      ensures variant.Some? ==>
                && BareVariant(variant.value) == BareVariant(TargetVariant(sc, q))
                && StageKey(variant.value) == SOURCE_SIDECAR_STAGE && variant.value.assetPath == m.assetPath
    {
      if !Trusted(file, m, scanner.outside) {
        return None;
      }
      BuiltStage(m, scanner.outside, file, asset);
      assert asset.mediaType == BareAsset(asset).mediaType && asset.sourceHash == BareAsset(asset).sourceHash;
      variant := Some(SidecarVariant(file, m, asset, scanner.outside));
    }

    /** The sidecar that the i-th matcher finds. */
    method RebuildSidecar(asset: Asset, i: nat, ghost sc: Scanner) returns (error: Option<SyncError>)
      requires FindsSidecars(scanner, sc) && Ready(sc) && asset.path in cat.assetsByPath && IsAssetPath(sc, asset.path)
      requires BareAsset(asset) == BareAsset(TargetAsset(sc, asset.path))
      requires i < |scanner.matchers| && RebuiltUpTo(sc, cat.variants.byKey, asset.path, i)
      modifies cat, cat.variants
      ensures Ready(sc) && cat.variants == old(cat.variants) && cat.assetsByPath == old(cat.assetsByPath)
      ensures error == None && KeepsSettled(sc, old(cat.variants.byKey), cat.variants.byKey)
      ensures RebuiltUpTo(sc, cat.variants.byKey, asset.path, i + 1)
    {
      error := None;
      var matcher := scanner.matchers[i];
      ghost var before := cat.variants.byKey;
      var variant := BuildSidecarVariant(asset, matcher, sc);
      if variant.Some? {
        error := UpsertSidecar(asset.path + matcher.suffix, variant.value, sc);
      }
      RebuiltOneMore(sc, before, cat.variants.byKey, asset.path, i);
    }

    /** rebuildSourceSidecarsForAsset: once an asset's sidecars are gone, the trusted ones of
        the source come back. */
    method RebuildSourceSidecarsForAsset(asset: Asset, ghost sc: Scanner) returns (error: Option<SyncError>)
      requires FindsSidecars(scanner, sc) && Ready(sc) && asset.path in cat.assetsByPath && IsAssetPath(sc, asset.path)
      requires BareAsset(asset) == BareAsset(TargetAsset(sc, asset.path))
      requires NoneBasedOn(sc, cat.variants.byKey, asset.path)
      modifies cat, cat.variants
      ensures Ready(sc) && cat.variants == old(cat.variants) && cat.assetsByPath == old(cat.assetsByPath)
      ensures error == None && KeepsSettled(sc, old(cat.variants.byKey), cat.variants.byKey)
      ensures forall q :: BasedOn(sc, q, asset.path) ==> SidecarSettled(sc, cat.variants.byKey, q)
    {
      for i := 0 to |scanner.matchers|
        invariant Ready(sc) && cat.variants == old(cat.variants) && cat.assetsByPath == old(cat.assetsByPath)
        invariant KeepsSettled(sc, old(cat.variants.byKey), cat.variants.byKey)
        invariant RebuiltUpTo(sc, cat.variants.byKey, asset.path, i)
      {
        error := RebuildSidecar(asset, i, sc);
        if error.Some? {
          return;
        }
      }
      error := None;
      RebuiltAll(sc, cat.variants.byKey, asset.path);
    }

    /** upsertAssetAndSidecars. */
    method UpsertAssetAndSidecars(p: string, file: File, ghost sc: Scanner) returns (error: Option<SyncError>)
      requires FindsSidecars(scanner, sc) && Ready(sc) && IsAssetPath(sc, p) && file == sc.tree[p]
      modifies cat, cat.variants
      ensures Ready(sc) && cat.variants == old(cat.variants) && error == None
      ensures AssetSettled(sc, cat.assetsByPath, p)
      ensures cat.assetsByPath - {p} == old(cat.assetsByPath) - {p}
      ensures KeepsSettledBut(sc, old(cat.variants.byKey), cat.variants.byKey, p)
      ensures if AssetSettled(sc, old(cat.assetsByPath), p) then cat.variants.byKey == old(cat.variants.byKey)
              else forall q :: BasedOn(sc, q, p) ==> SidecarSettled(sc, cat.variants.byKey, q)
    {
      var built := BuildAsset(file, scanner.outside);
      if built.Err? {
        return Some(ScanFailed);
      }
      assert PlainPath(sc, p);
      error := UpsertBuiltAsset(p, built.value, sc);
    }

    method UpsertBuiltAsset(p: string, next: Asset, ghost sc: Scanner) returns (error: Option<SyncError>)
      requires FindsSidecars(scanner, sc) && Ready(sc) && IsAssetPath(sc, p)
      requires next.path == p && BareAsset(next) == BareAsset(TargetAsset(sc, p))
      modifies cat, cat.variants
      ensures Ready(sc) && cat.variants == old(cat.variants) && error == None
      ensures AssetSettled(sc, cat.assetsByPath, p)
      ensures cat.assetsByPath - {p} == old(cat.assetsByPath) - {p}
      ensures KeepsSettledBut(sc, old(cat.variants.byKey), cat.variants.byKey, p)
      ensures if AssetSettled(sc, old(cat.assetsByPath), p) then cat.variants.byKey == old(cat.variants.byKey)
              else forall q :: BasedOn(sc, q, p) ==> SidecarSettled(sc, cat.variants.byKey, q)
    {
      var existing := cat.FindAsset(p);
      AssetsArePlaced(cat.State(), p);
      if existing.Some? {
        UnchangedIsBareEqual(existing.value, next);
        if !AssetChanged(existing.value, next) {
          return None;
        }
        DropVariants(p, sc);
      } else {
        NothingBasedOnMissing(sc, cat.State(), p);
      }
      error := StoreAndRebuild(next, sc);
    }

    method StoreAndRebuild(asset: Asset, ghost sc: Scanner) returns (error: Option<SyncError>)
      requires FindsSidecars(scanner, sc) && Ready(sc) && IsAssetPath(sc, asset.path) && NoneBasedOn(sc, cat.variants.byKey, asset.path)
      requires BareAsset(asset) == BareAsset(TargetAsset(sc, asset.path))
      modifies cat, cat.variants
      ensures Ready(sc) && cat.variants == old(cat.variants) && error == None
      ensures cat.assetsByPath == old(cat.assetsByPath)[asset.path := asset]
      ensures KeepsSettled(sc, old(cat.variants.byKey), cat.variants.byKey)
      ensures forall q :: BasedOn(sc, q, asset.path) ==> SidecarSettled(sc, cat.variants.byKey, q)
    {
      error := StoreAsset(asset, sc);
      if error.Some? {
        return;
      }
      error := RebuildSourceSidecarsForAsset(asset, sc);
    }

    // ---- The incremental sync ------------------------------------------------------------------

    /** One path of processDeletedAssets. */
    method DropIfThere(p: string, ghost sc: Scanner)
      requires Ready(sc) && !IsAssetPath(sc, p)
      modifies cat, cat.variants
      ensures Ready(sc) && cat.variants == old(cat.variants) && cat.assetsByPath == old(cat.assetsByPath) - {p}
      ensures KeepsSettled(sc, old(cat.variants.byKey), cat.variants.byKey)
      ensures SettledBasedOn(sc, cat.variants.byKey, {p})
    {
      if cat.FindAsset(p).Some? {
        DropAsset(p, sc);
      } else {
        NothingBasedOnMissing(sc, cat.State(), p);
        assert cat.assetsByPath - {p} == cat.assetsByPath;
      }
      NoneIsSettled(sc, cat.variants.byKey, p);
    }

    /** processDeletedAssets. */
    method ProcessDeletedAssets(deleted: set<string>, ghost sc: Scanner)
      requires Ready(sc) && forall p :: p in deleted ==> !IsAssetPath(sc, p)
      modifies cat, cat.variants
      ensures Ready(sc) && cat.variants == old(cat.variants)
      ensures KeepsSettled(sc, old(cat.variants.byKey), cat.variants.byKey)
      ensures SettledBasedOn(sc, cat.variants.byKey, deleted)
      ensures cat.assetsByPath == old(cat.assetsByPath) - deleted
    {
      var left := deleted;
      while left != {}
        invariant left <= deleted && Ready(sc) && cat.variants == old(cat.variants)
        invariant KeepsSettled(sc, old(cat.variants.byKey), cat.variants.byKey)
        invariant SettledBasedOn(sc, cat.variants.byKey, deleted - left)
        invariant cat.assetsByPath == old(cat.assetsByPath) - (deleted - left)
        decreases left
      {
        var p :| p in left;
        ghost var before := cat.variants.byKey;
        OneFewer(old(cat.assetsByPath), deleted, left, p);
        DropIfThere(p, sc);
        BasedOnOneMore(sc, before, cat.variants.byKey, deleted, left, p);
        left := left - {p};
      }
      assert deleted - left == deleted;
    }

    /** One sidecar of processDeletedSourceSidecars. */
    method RemoveSidecar(q: string, m: Match, ghost sc: Scanner)
      requires Ready(sc) && sc.sidecarOf(q) == Some(m) && sc.normal(q) == q
      modifies cat, cat.variants
      ensures Ready(sc) && cat.variants == old(cat.variants) && cat.assetsByPath == old(cat.assetsByPath)
      ensures OnlyWent(old(cat.variants.byKey), cat.variants.byKey, q) && Absent(cat.variants.byKey, q)
      ensures KeepsSettledOutside(sc, old(cat.variants.byKey), cat.variants.byKey, {q})
    {
      ghost var before := cat.variants.byKey;
      ProjectedRecords(cat.State());
      RemoveSidecarVariants(m, q, sc);
      OnlyWentSettles(sc, before, cat.variants.byKey, q);
    }

    /** processDeletedSourceSidecars. */
    method ProcessDeletedSourceSidecars(deleted: map<string, Match>, ghost sc: Scanner)
      requires Ready(sc)
      requires forall q :: q in deleted ==> sc.sidecarOf(q) == Some(deleted[q]) && sc.normal(q) == q
      modifies cat, cat.variants
      ensures Ready(sc) && cat.variants == old(cat.variants) && cat.assetsByPath == old(cat.assetsByPath)
      ensures KeepsSettledOutside(sc, old(cat.variants.byKey), cat.variants.byKey, deleted.Keys)
      ensures AllAbsent(cat.variants.byKey, deleted.Keys)
    {
      var left := deleted.Keys;
      assert deleted.Keys - left == {};
      while left != {}
        invariant left <= deleted.Keys && Ready(sc) && cat.variants == old(cat.variants) && cat.assetsByPath == old(cat.assetsByPath)
        invariant KeepsSettledOutside(sc, old(cat.variants.byKey), cat.variants.byKey, deleted.Keys - left)
        invariant AllAbsent(cat.variants.byKey, deleted.Keys - left)
        decreases left
      {
        var q :| q in left;
        ghost var before := cat.variants.byKey;
        RemoveSidecar(q, deleted[q], sc);
        OneMoreRemoved(sc, old(cat.variants.byKey), before, cat.variants.byKey, deleted.Keys, left, q);
        left := left - {q};
      }
      assert deleted.Keys - {} == deleted.Keys;
    }

    /** Removing the variants of a sidecar that is not trusted settles it. */
    method RemoveUntrusted(q: string, m: Match, ghost sc: Scanner)
      requires Ready(sc) && sc.sidecarOf(q) == Some(m) && sc.normal(q) == q && !IsTrustedSidecar(sc, q)
      modifies cat, cat.variants
      ensures Ready(sc) && cat.variants == old(cat.variants) && cat.assetsByPath == old(cat.assetsByPath)
      ensures KeepsSettled(sc, old(cat.variants.byKey), cat.variants.byKey)
      ensures SidecarSettled(sc, cat.variants.byKey, q)
    {
      RemoveSidecar(q, m, sc);
    }

    /** upsertSidecarVariant. */
    method UpsertSidecarVariant(q: string, change: SidecarChange, ghost sc: Scanner) returns (error: Option<SyncError>)
      requires FindsSidecars(scanner, sc) && Ready(sc) && SidecarChangeAt(sc, q, change) && AssetSettled(sc, cat.assetsByPath, change.match_.assetPath)
      modifies cat, cat.variants
      ensures Ready(sc) && cat.variants == old(cat.variants) && cat.assetsByPath == old(cat.assetsByPath) && error == None
      ensures KeepsSettled(sc, old(cat.variants.byKey), cat.variants.byKey)
      ensures SidecarSettled(sc, cat.variants.byKey, q)
    {
      error := None;
      BaseIsAsset(sc, q);
      var asset := cat.FindAsset(change.match_.assetPath);
      if asset == None {
        return;
      }
      var variant := SourceSidecarVariant(change.file, change.match_, asset.value, q, sc);
      if variant == None {
        RemoveUntrusted(q, change.match_, sc);
        return;
      }
      error := UpsertSidecar(q, variant.value, sc);
    }

    /** One asset of processChangedAssets. */
    method ProcessChangedAsset(p: string, file: File, ghost before: Scanner, ghost start: CatalogState, ghost changes: seq<Change>,
                               ghost all: set<string>, ghost left: set<string>, ghost deleted: set<string>, ghost sc: Scanner)
      returns (error: Option<SyncError>)
      requires FindsSidecars(scanner, sc) && Ready(sc) && SoundStates(before, sc) && Synced(before, start)
      requires IsAssetPath(sc, p) && file == sc.tree[p] && p in left && left <= all && p !in deleted
      requires DueSettled(before, sc, cat.variants.byKey, changes, all - left) && Processed(sc, start, cat.assetsByPath, all, left, deleted)
      modifies cat, cat.variants
      ensures Ready(sc) && cat.variants == old(cat.variants) && error == None
      ensures DueSettled(before, sc, cat.variants.byKey, changes, all - (left - {p}))
      ensures Processed(sc, start, cat.assetsByPath, all, left - {p}, deleted)
    {
      ghost var assets, t := cat.assetsByPath, cat.variants.byKey;
      error := UpsertAssetAndSidecars(p, file, sc);
      AssetProcessed(before, sc, start, assets, cat.assetsByPath, t, cat.variants.byKey, changes, all, left, deleted, p);
    }

    /** processChangedAssets, in any order. */
    method ProcessChangedAssets(changed: map<string, File>, ghost before: Scanner, ghost start: CatalogState, ghost changes: seq<Change>,
                                ghost deleted: set<string>, ghost sc: Scanner)
      returns (error: Option<SyncError>)
      requires FindsSidecars(scanner, sc) && Ready(sc) && SoundStates(before, sc) && Synced(before, start) && DueSettled(before, sc, cat.variants.byKey, changes, {})
      requires forall p :: p in changed ==> IsAssetPath(sc, p) && changed[p] == sc.tree[p] && p !in deleted
      requires SameBut(start.assets, cat.assetsByPath, deleted) && deleted !! cat.assetsByPath.Keys
      modifies cat, cat.variants
      ensures Ready(sc) && cat.variants == old(cat.variants) && error == None
      ensures DueSettled(before, sc, cat.variants.byKey, changes, changed.Keys)
      ensures SameBut(start.assets, cat.assetsByPath, changed.Keys + deleted) && deleted !! cat.assetsByPath.Keys
      ensures forall p :: p in changed ==> AssetSettled(sc, cat.assetsByPath, p)
    {
      var left := changed.Keys;
      NothingProcessed(sc, start, cat.assetsByPath, changed.Keys, deleted);
      while left != {}
        invariant left <= changed.Keys && Ready(sc) && cat.variants == old(cat.variants)
        invariant DueSettled(before, sc, cat.variants.byKey, changes, changed.Keys - left)
        invariant Processed(sc, start, cat.assetsByPath, changed.Keys, left, deleted)
        decreases left
      {
        var p :| p in left;
        error := ProcessChangedAsset(p, changed[p], before, start, changes, changed.Keys, left, deleted, sc);
        if error.Some? {
          return;
        }
        left := left - {p};
      }
      AllProcessed(sc, start, cat.assetsByPath, changed.Keys, deleted);
      error := None;
    }

    /** processChangedSourceSidecars, in any order. */
    method ProcessChangedSourceSidecars(changed: map<string, SidecarChange>, ghost changes: seq<Change>, ghost sc: Scanner) returns (error: Option<SyncError>)
      requires FindsSidecars(scanner, sc) && Ready(sc) && SettledButWritten(sc, cat.variants.byKey, changes, {})
      requires forall q :: q in changed ==> SidecarChangeAt(sc, q, changed[q])
      requires forall p :: AssetSettled(sc, cat.assetsByPath, p)
      modifies cat, cat.variants
      ensures Ready(sc) && cat.variants == old(cat.variants) && cat.assetsByPath == old(cat.assetsByPath) && error == None
      ensures SettledButWritten(sc, cat.variants.byKey, changes, changed.Keys)
    {
      var left := changed.Keys;
      while left != {}
        invariant left <= changed.Keys && Ready(sc) && cat.variants == old(cat.variants) && cat.assetsByPath == old(cat.assetsByPath)
        invariant SettledButWritten(sc, cat.variants.byKey, changes, changed.Keys - left)
        decreases left
      {
        var q :| q in left;
        error := UpsertSidecarVariant(q, changed[q], sc);
        if error.Some? {
          return;
        }
        left := left - {q};
      }
      assert changed.Keys - left == changed.Keys;
      error := None;
    }

    /** syncIncrementally. From a catalog synced to an earlier state of the source, the
        events bring it to the state now; full: an event asks for a full sync instead. */
    method SyncIncrementally(events: seq<ChangeEvent>, ghost before: Scanner) returns (error: Option<SyncError>, full: bool)
      requires Ready(scanner) && NormalChanges(scanner, ChangesOf(scanner.normal, events))
      requires !NeedsFullRescan(events, ChangesOf(scanner.normal, events)) ==>
                 SoundStates(before, scanner) && Synced(before, cat.State()) && Covers(before, scanner, ChangesOf(scanner.normal, events))
      modifies cat, cat.variants
      ensures Ready(scanner) && cat.variants == old(cat.variants) && error == None
      ensures full <==> NeedsFullRescan(events, ChangesOf(scanner.normal, events))
      ensures full ==> cat.State() == old(cat.State())
      ensures !full ==> Synced(scanner, cat.State())
    {
      error := None;
      ghost var changes := ChangesOf(scanner.normal, events);
      var changeSet;
      changeSet, full := BuildIncrementalChangeSet(events, scanner);
      if full {
        return;
      }
      EventsDeleteNothing(scanner, events);
      error := ProcessChangeSet(changeSet, before, changes);
    }

    /** The steps of the incremental sync, for any change set. What is scanner ends up synced:
        all of the source if and only if the set deletes no asset that is there. */
    method ProcessChangeSet(changeSet: SourceRescanChangeSet, ghost before: Scanner, ghost changes: seq<Change>)
      returns (error: Option<SyncError>)
      requires Ready(scanner) && SoundStates(before, scanner) && Synced(before, cat.State())
      requires NormalChanges(scanner, changes) && Covers(before, scanner, changes) && changeSet.Normalized(scanner, changes)
      modifies cat, cat.variants
      ensures Ready(scanner) && cat.variants == old(cat.variants) && error == None
      ensures Synced(Seen(scanner, changes), cat.State())
      ensures Synced(scanner, cat.State()) <==> NoneRecreated(scanner, changes)
    {
      ghost var sc := Seen(scanner, changes);
      SeenIsPart(scanner, changes);
      PartIsSound(scanner, sc);
      CoversSeen(before, scanner, changes);
      DeletionsFit(changeSet, before, scanner, changes);
      WritesFit(changeSet, before, scanner, changes);
      error := ProcessSeen(changeSet.deletedAssets, changeSet.deletedSourceSidecars, changeSet.changedAssets, changeSet.changedSourceSidecars, before, changes, sc);
      SeenIsAllIff(scanner, changes, cat.State());
    }

    /** Deletions first, then changed assets, then changed sidecars. */
    method ProcessSeen(deletedAssets: set<string>, deletedSidecars: map<string, Match>, changedAssets: map<string, File>,
                       changedSidecars: map<string, SidecarChange>, ghost before: Scanner, ghost changes: seq<Change>, ghost sc: Scanner)
      returns (error: Option<SyncError>)
      requires FindsSidecars(scanner, sc) && Ready(sc) && SoundStates(before, sc) && Synced(before, cat.State()) && Covers(before, sc, changes) && NoneRecreated(sc, changes)
      requires FitsDeletions(sc, deletedAssets, deletedSidecars, changes) && FitsWrites(sc, deletedAssets, changedAssets, changedSidecars, changes)
      modifies cat, cat.variants
      ensures Ready(sc) && cat.variants == old(cat.variants) && error == None
      ensures Synced(sc, cat.State())
    {
      ghost var start := cat.State();
      ProcessDeletions(deletedAssets, deletedSidecars, changes, sc);
      DueAfterDeletions(before, sc, start, cat.variants.byKey, changes);
      error := ProcessChangedAssets(changedAssets, before, start, changes, deletedAssets, sc);
      if error.Some? {
        return;
      }
      DueAfterAssets(before, sc, cat.variants.byKey, changedAssets.Keys, changes);
      AllAssetsSettled(before, sc, start, cat.assetsByPath, changedAssets.Keys, deletedAssets, changes);
      error := ProcessChangedSourceSidecars(changedSidecars, changes, sc);
      if error.Some? {
        return;
      }
      AllSidecarsSettled(sc, cat.variants.byKey, changedSidecars.Keys, changes);
    }

    method ProcessDeletions(deletedAssets: set<string>, deletedSidecars: map<string, Match>, ghost changes: seq<Change>, ghost sc: Scanner)
      requires Ready(sc) && FitsDeletions(sc, deletedAssets, deletedSidecars, changes)
      modifies cat, cat.variants
      ensures Ready(sc) && cat.variants == old(cat.variants)
      ensures SameBut(old(cat.assetsByPath), cat.assetsByPath, deletedAssets) && deletedAssets !! cat.assetsByPath.Keys
      ensures DeletionsDone(sc, old(cat.variants.byKey), cat.variants.byKey, changes)
    {
      SameButDeleted(cat.assetsByPath, deletedAssets);
      ProcessDeletedAssets(deletedAssets, sc);
      ghost var between := cat.variants.byKey;
      ProcessDeletedSourceSidecars(deletedSidecars, sc);
      DeletionsCombine(sc, old(cat.variants.byKey), between, cat.variants.byKey, deletedAssets, deletedSidecars, changes);
    }

    // ---- The full sync ----------------------------------------------------------------------------

    /** The sidecars of the catalog by the file they stand for. */
    method IndexSidecarsByFile(ghost sc: Scanner) returns (byFile: map<string, Variant>)
      requires Ready(sc)
      modifies cat.variants
      ensures Ready(sc) && cat.State() == old(cat.State())
      ensures ComeFromSidecars(cat.variants.byKey, byFile)
    {
      var records := cat.ListVariantsByStage(SOURCE_SIDECAR_STAGE);
      byFile := ByFile(records, cat.variants.byKey);
    }

    /** indexSourceSidecarVariants: the sidecars by ID. */
    method IndexSourceSidecarVariants(ghost sc: Scanner) returns (byID: map<string, Variant>)
      requires Ready(sc)
      modifies cat.variants
      ensures Ready(sc) && cat.State() == old(cat.State())
      ensures forall q :: !Absent(cat.variants.byKey, q) ==> q in byID
      ensures forall q :: q in byID ==> byID[q].artifactPath == sc.outside.fullPath(q)
    {
      var records := cat.ListVariantsByStage(SOURCE_SIDECAR_STAGE);
      ProjectedRecords(cat.State());
      byID := ByID(records, cat.variants.byKey, sc);
    }

    /** syncScannedAsset. */
    method SyncScannedAsset(p: string, asset: Asset, ghost sc: Scanner) returns (error: Option<SyncError>)
      requires Ready(sc) && asset.path == p
      modifies cat, cat.variants
      ensures Ready(sc) && cat.variants == old(cat.variants) && error == None
      ensures cat.assetsByPath == old(cat.assetsByPath)[p := asset]
    {
      var existing := cat.FindAsset(p);
      if existing.Some? && AssetChanged(existing.value, asset) {
        DropVariants(p, sc);
      }
      error := StoreAsset(asset, sc);
    }

    /** reconcileScannedAssets: what changed loses its variants, everything scanned is stored. */
    method ReconcileScannedAssets(scanned: map<string, Asset>, ghost sc: Scanner) returns (error: Option<SyncError>)
      requires Ready(sc) && forall p :: p in scanned ==> scanned[p].path == p
      modifies cat, cat.variants
      ensures Ready(sc) && cat.variants == old(cat.variants) && error == None
      ensures cat.assetsByPath == old(cat.assetsByPath) + scanned
    {
      error := None;
      var left := scanned.Keys;
      while left != {}
        invariant left <= scanned.Keys && Ready(sc) && cat.variants == old(cat.variants) && error == None
        invariant cat.assetsByPath == old(cat.assetsByPath) + (scanned - left)
        decreases left
      {
        var p :| p in left;
        OneMoreStored(old(cat.assetsByPath), scanned, left, p);
        error := SyncScannedAsset(p, scanned[p], sc);
        left := left - {p};
      }
    }

    /** reconcileSourceSidecars: every scanned sidecar is upserted, every other one removed. */
    method ReconcileSourceSidecars(scanned: map<string, Variant>, ghost sc: Scanner) returns (error: Option<SyncError>)
      requires Ready(sc) && HoldsVariants(sc, scanned, {}) && forall p :: IsAssetPath(sc, p) ==> p in cat.assetsByPath
      modifies cat, cat.variants
      ensures Ready(sc) && cat.variants == old(cat.variants) && cat.assetsByPath == old(cat.assetsByPath) && error == None
      ensures forall q :: SidecarSettled(sc, cat.variants.byKey, q)
    {
      var existing := IndexSourceSidecarVariants(sc);
      error := UpsertScanned(scanned, existing.Keys + scanned.Keys, sc);
      if error.Some? {
        return;
      }
      RemoveUnscanned(existing, scanned.Keys, sc);
      NothingElse(sc, cat.variants.byKey, scanned);
    }

    method UpsertScanned(scanned: map<string, Variant>, ghost ids: set<string>, ghost sc: Scanner) returns (error: Option<SyncError>)
      requires Ready(sc) && HoldsVariants(sc, scanned, {}) && scanned.Keys <= ids && OnlyThese(cat.variants.byKey, ids)
      requires forall p :: IsAssetPath(sc, p) ==> p in cat.assetsByPath
      modifies cat, cat.variants
      ensures Ready(sc) && cat.variants == old(cat.variants) && cat.assetsByPath == old(cat.assetsByPath) && error == None
      ensures OnlyThese(cat.variants.byKey, ids)
      ensures forall q :: q in scanned ==> SidecarSettled(sc, cat.variants.byKey, q)
    {
      error := None;
      var left := scanned.Keys;
      while left != {}
        invariant left <= scanned.Keys && error == None
        invariant Ready(sc) && cat.variants == old(cat.variants) && cat.assetsByPath == old(cat.assetsByPath)
        invariant OnlyThese(cat.variants.byKey, ids)
        invariant forall q :: q in scanned && q !in left ==> SidecarSettled(sc, cat.variants.byKey, q)
        decreases left
      {
        var q :| q in left;
        ghost var before := cat.variants.byKey;
        BaseOfScanned(sc, q, scanned[q]);
        error := UpsertSidecar(q, scanned[q], sc);
        StillOnlyThese(before, cat.variants.byKey, q, ids);
        left := left - {q};
      }
    }

    method RemoveUnscanned(existing: map<string, Variant>, scanned: set<string>, ghost sc: Scanner)
      requires Ready(sc) && forall q :: q in existing ==> existing[q].artifactPath == sc.outside.fullPath(q)
      requires OnlyThese(cat.variants.byKey, existing.Keys + scanned)
      requires forall q :: q in scanned <==> IsTrustedSidecar(sc, q)
      modifies cat, cat.variants
      ensures Ready(sc) && cat.variants == old(cat.variants) && cat.assetsByPath == old(cat.assetsByPath)
      ensures KeepsSettled(sc, old(cat.variants.byKey), cat.variants.byKey)
      ensures OnlyThese(cat.variants.byKey, scanned)
    {
      var left := existing.Keys - scanned;
      RestOrScanned(existing.Keys, scanned);
      while left != {}
        invariant left <= existing.Keys - scanned
        invariant Ready(sc) && cat.variants == old(cat.variants) && cat.assetsByPath == old(cat.assetsByPath)
        invariant KeepsSettled(sc, old(cat.variants.byKey), cat.variants.byKey)
        invariant OnlyThese(cat.variants.byKey, left + scanned)
        decreases left
      {
        var q :| q in left;
        ghost var before := cat.variants.byKey;
        ProjectedRecords(cat.State());
        WithoutSidecarFile(sc, before, q);
        OnlyWentSettles(sc, before, WithoutArtifact(before, sc.outside.fullPath(q)), q);
        OneLess(before, WithoutArtifact(before, sc.outside.fullPath(q)), q, left + scanned);
        var found := DropFile(existing[q].artifactPath, sc);
        left := left - {q};
      }
    }

    /** syncFull: from any catalog whose unchanged sizes and times can be trusted, to the
        source's state. */
    method SyncFull() returns (error: Option<SyncError>)
      requires Ready(scanner) && ReuseTrusted(scanner, cat.State())
      modifies cat, cat.variants
      ensures Ready(scanner) && cat.variants == old(cat.variants) && error == None
      ensures Synced(scanner, cat.State())
    {
      var sidecars := IndexSidecarsByFile(scanner);
      ReuseByFile(scanner, cat.State(), sidecars);
      var existing := cat.assetsByPath;
      var snapshot := ScanWithCatalog(scanner, existing, sidecars);
      if snapshot.Err? {
        return Some(ScanFailed);
      }
      var scanned := snapshot.value.assets;
      ScannedPaths(scanner, scanned);
      error := ReconcileScannedAssets(scanned, scanner);
      if error.Some? {
        return;
      }
      ProcessDeletedAssets(existing.Keys - scanned.Keys, scanner);
      ScannedAreAll(scanner, existing, scanned);
      error := ReconcileSourceSidecars(snapshot.value.variants, scanner);
    }

    /** sync: incrementally when there are events and none of them asks for more. */
    method Sync(events: seq<ChangeEvent>, ghost before: Scanner) returns (error: Option<SyncError>)
      requires Ready(scanner) && ReuseTrusted(scanner, cat.State())
      requires NormalChanges(scanner, ChangesOf(scanner.normal, events))
      requires events != [] && !NeedsFullRescan(events, ChangesOf(scanner.normal, events)) ==>
                 SoundStates(before, scanner) && Synced(before, cat.State()) && Covers(before, scanner, ChangesOf(scanner.normal, events))
      modifies cat, cat.variants
      ensures Ready(scanner) && cat.variants == old(cat.variants) && error == None
      ensures Synced(scanner, cat.State())
    {
      if events != [] {
        var full;
        error, full := SyncIncrementally(events, before);
        if !full {
          return;
        }
      }
      error := SyncFull();
    }
  }

  method ByFile(records: seq<VariantRecord>, ghost t: VariantTable) returns (byFile: map<string, Variant>)
    requires VariantIndex.IsFreshSort(t, VariantIndex.OfStage(SOURCE_SIDECAR_STAGE), records)
    ensures ComeFromSidecars(t, byFile)
  {
    byFile := map[];
    for i := 0 to |records|
      invariant ComeFromSidecars(t, byFile)
    {
      ListedSidecar(t, records, i);
      byFile := byFile[records[i].artifactPath := records[i].variant];
    }
  }

  method ByID(records: seq<VariantRecord>, ghost t: VariantTable, ghost sc: Scanner) returns (byID: map<string, Variant>)
    requires VariantIndex.IsFreshSort(t, VariantIndex.OfStage(SOURCE_SIDECAR_STAGE), records)
    requires WellKeyed(t) && AllShaped(sc, t) && forall k :: k in t ==> IsProjection(t[k])
    ensures forall q :: !Absent(t, q) ==> q in byID
    ensures forall q :: q in byID ==> byID[q].artifactPath == sc.outside.fullPath(q)
  {
    byID := map[];
    for i := 0 to |records|
      invariant forall k :: 0 <= k < i ==> records[k].id in byID
      invariant forall q :: q in byID ==> byID[q].artifactPath == sc.outside.fullPath(q)
    {
      ListedSidecar(t, records, i);
      byID := byID[records[i].id := records[i].variant];
    }
    AllListed(t, records, byID.Keys);
  }

  ghost predicate ComeFromSidecars(t: VariantTable, byFile: map<string, Variant>) {
    forall a :: a in byFile ==> exists k :: k in t && IsSidecar(t[k]) && t[k].artifactPath == a && t[k].variant == byFile[a]
  }

  lemma ListedSidecar(t: VariantTable, records: seq<VariantRecord>, i: nat)
    requires VariantIndex.IsFreshSort(t, VariantIndex.OfStage(SOURCE_SIDECAR_STAGE), records) && i < |records|
    ensures Live(t, records[i]) && IsSidecar(records[i])
  {
    assert records[i] in records;
  }

  lemma AllListed(t: VariantTable, records: seq<VariantRecord>, ids: set<string>)
    requires VariantIndex.IsFreshSort(t, VariantIndex.OfStage(SOURCE_SIDECAR_STAGE), records) && WellKeyed(t)
    requires forall k :: 0 <= k < |records| ==> records[k].id in ids
    ensures forall q :: !Absent(t, q) ==> q in ids
  {
    forall q | !Absent(t, q) ensures q in ids {
      var k :| k in t && IsSidecar(t[k]) && t[k].id == q;
      assert Live(t, t[k]) && VariantIndex.Shows(VariantIndex.OfStage(SOURCE_SIDECAR_STAGE), t[k]);
      var i :| 0 <= i < |records| && records[i] == t[k];
    }
  }

  /** The trust that scanning places in the catalog's sizes and modification times, on fields alone. */
  ghost predicate ReuseTrusted(sc: Scanner, s: CatalogState) {
    && (forall p :: p in s.assets && IsAssetPath(sc, p) && DescribesFile(s.assets[p], sc.tree[p], sc.outside) ==>
          BareAsset(s.assets[p]) == BareAsset(TargetAsset(sc, p)))
    && (forall k :: k in s.variants && IsSidecar(s.variants[k]) && IsTrustedSidecar(sc, s.variants[k].id)
                    && DescribesSidecar(s.variants[k].variant, sc.tree[s.variants[k].id], sc.sidecarOf(s.variants[k].id).value.encoding, sc.outside) ==>
          s.variants[k].variant.etag == Quoted(sc.outside.hash(sc.tree[s.variants[k].id].content)))
  }

  lemma ReuseByFile(sc: Scanner, s: CatalogState, byFile: map<string, Variant>)
    requires SoundScanner(sc) && WellFormed(sc) && Consistent(s) && AllShaped(sc, s.variants)
    requires ReuseTrusted(sc, s) && ComeFromSidecars(s.variants, byFile)
    ensures ReuseIsSound(sc, s.assets, byFile) && PlainSidecars(byFile)
  {
    forall a | a in byFile ensures byFile[a].format == "" && byFile[a].width == 0 {
      var k :| k in s.variants && IsSidecar(s.variants[k]) && s.variants[k].artifactPath == a && s.variants[k].variant == byFile[a];
      assert Shaped(sc, s.variants[k]);
      assert IsProjection(s.variants[k]);
    }
    forall q | IsTrustedSidecar(sc, q) && sc.tree[q].fullPath in byFile
               && DescribesSidecar(byFile[sc.tree[q].fullPath], sc.tree[q], sc.sidecarOf(q).value.encoding, sc.outside)
      ensures byFile[sc.tree[q].fullPath].etag == Quoted(sc.outside.hash(sc.tree[q].content))
    {
      var a := sc.tree[q].fullPath;
      var k :| k in s.variants && IsSidecar(s.variants[k]) && s.variants[k].artifactPath == a && s.variants[k].variant == byFile[a];
      assert Shaped(sc, s.variants[k]);
      assert PlainPath(sc, q);
      assert s.variants[k].id == q;
    }
  }

  lemma OneMoreStored(start: map<string, Asset>, scanned: map<string, Asset>, left: set<string>, p: string)
    requires p in left && left <= scanned.Keys
    ensures (start + (scanned - left))[p := scanned[p]] == start + (scanned - (left - {p}))
  {
  }

  lemma ScannedPaths(sc: Scanner, scanned: map<string, Asset>)
    requires WellFormed(sc) && HoldsAssets(sc, scanned, {})
    ensures forall p :: p in scanned ==> scanned[p].path == p
    ensures forall p :: p !in scanned ==> !IsAssetPath(sc, p)
  {
    forall p | p in scanned ensures scanned[p].path == p {
      assert PlainPath(sc, p);
      assert scanned[p].path == BareAsset(scanned[p]).path;
    }
  }

  lemma ScannedAreAll(sc: Scanner, existing: map<string, Asset>, scanned: map<string, Asset>)
    requires HoldsAssets(sc, scanned, {})
    ensures existing + scanned - (existing.Keys - scanned.Keys) == scanned
    ensures forall p :: AssetSettled(sc, scanned, p)
  {
    assert (existing + scanned - (existing.Keys - scanned.Keys)).Keys == scanned.Keys;
  }

  /** Every sidecar's ID is one of these. */
  ghost predicate OnlyThese(t: VariantTable, ids: set<string>) {
    forall k :: k in t && IsSidecar(t[k]) ==> t[k].id in ids
  }

  lemma StillOnlyThese(t: VariantTable, u: VariantTable, q: string, ids: set<string>)
    requires OnlyThese(t, ids) && OnlyAdds(t, u, q) && q in ids
    ensures OnlyThese(u, ids)
  {
  }

  lemma OneLess(t: VariantTable, u: VariantTable, q: string, ids: set<string>)
    requires OnlyThese(t, ids) && OnlyWent(t, u, q) && Absent(u, q)
    ensures OnlyThese(u, ids - {q})
  {
  }

  lemma RestOrScanned(existing: set<string>, scanned: set<string>)
    ensures (existing - scanned) + scanned == existing + scanned
  {
  }

  lemma BaseOfScanned(sc: Scanner, q: string, v: Variant)
    requires WellFormed(sc) && IsTrustedSidecar(sc, q) && BareVariant(v) == BareVariant(TargetVariant(sc, q))
    ensures IsAssetPath(sc, v.assetPath)
  {
    assert v.assetPath == BareVariant(v).assetPath;
  }

  lemma NothingElse(sc: Scanner, t: VariantTable, scanned: map<string, Variant>)
    requires HoldsVariants(sc, scanned, {}) && OnlyThese(t, scanned.Keys)
    requires forall q :: q in scanned ==> SidecarSettled(sc, t, q)
    ensures forall q :: SidecarSettled(sc, t, q)
  {
  }

  lemma SameButDeleted(assets: map<string, Asset>, deleted: set<string>)
    ensures SameBut(assets, assets - deleted, deleted) && deleted !! (assets - deleted).Keys
  {
  }

  ghost predicate FitsDeletions(sc: Scanner, deletedAssets: set<string>, deletedSidecars: map<string, Match>, changes: seq<Change>) {
    && (forall p :: p in deletedAssets <==> IsDeleted(changes, p) && sc.sidecarOf(p) == None)
    && (forall p :: p in deletedAssets ==> !IsAssetPath(sc, p))
    && (forall q :: q in deletedSidecars <==> IsDeleted(changes, q) && sc.sidecarOf(q).Some?)
    && (forall q :: q in deletedSidecars ==> sc.sidecarOf(q) == Some(deletedSidecars[q]) && sc.normal(q) == q)
  }

  ghost predicate FitsWrites(sc: Scanner, deletedAssets: set<string>, changedAssets: map<string, File>, changedSidecars: map<string, SidecarChange>, changes: seq<Change>) {
    && (forall p :: IsAssetPath(sc, p) && IsWritten(changes, p) ==> p in changedAssets)
    && (forall p :: p in changedAssets ==> IsAssetPath(sc, p) && changedAssets[p] == sc.tree[p] && p !in deletedAssets)
    && (forall q :: IsWritten(changes, q) && q in sc.tree && sc.sidecarOf(q).Some? ==> q in changedSidecars)
    && (forall q :: q in changedSidecars ==> SidecarChangeAt(sc, q, changedSidecars[q]))
  }

  lemma DeletionsFit(changeSet: SourceRescanChangeSet, before: Scanner, now: Scanner, changes: seq<Change>)
    requires SoundStates(before, now) && NormalChanges(now, changes) && changeSet.HoldsDeletions(now, changes)
    ensures FitsDeletions(Seen(now, changes), changeSet.deletedAssets, changeSet.deletedSourceSidecars, changes)
  {
    forall q | q in changeSet.deletedSourceSidecars ensures now.normal(q) == q {
      assert Change(q, Delete) in changes;
    }
  }

  lemma WritesFit(changeSet: SourceRescanChangeSet, before: Scanner, now: Scanner, changes: seq<Change>)
    requires SoundStates(before, now) && Covers(before, now, changes) && changeSet.Normalized(now, changes)
    ensures FitsWrites(Seen(now, changes), changeSet.deletedAssets, changeSet.changedAssets, changeSet.changedSourceSidecars, changes)
  {
    var seen := Seen(now, changes);
    var deleted, assets, sidecars := changeSet.deletedAssets, changeSet.changedAssets, changeSet.changedSourceSidecars;
    forall p | p in assets ensures IsAssetPath(seen, p) && assets[p] == seen.tree[p] && p !in deleted {
      assert p in now.tree && !Unseen(now, changes, p);
    }
    forall q | q in sidecars ensures SidecarChangeAt(seen, q, sidecars[q]) {
      SidecarIsSeen(now, changes, q, deleted);
    }
    forall q | IsWritten(changes, q) && q in seen.tree && seen.sidecarOf(q).Some? ensures q in sidecars {
      BaseNotDeleted(now, changes, q);
    }
  }

  lemma SidecarIsSeen(now: Scanner, changes: seq<Change>, q: string, deleted: set<string>)
    requires WellFormed(now) && q in now.tree && now.sidecarOf(q).Some? && now.sidecarOf(q).value.assetPath !in deleted
    requires forall p :: p in deleted <==> IsDeleted(changes, p) && now.sidecarOf(p) == None
    ensures q in Seen(now, changes).tree
  {
    assert IsAssetPath(now, now.sidecarOf(q).value.assetPath);
  }

  lemma BaseNotDeleted(now: Scanner, changes: seq<Change>, q: string)
    requires q in Seen(now, changes).tree && now.sidecarOf(q).Some?
    ensures q in now.tree && !IsDeleted(changes, now.sidecarOf(q).value.assetPath)
  {
    assert !Unseen(now, changes, q);
  }

  // ---- After the deletions ------------------------------------------------------------------

  ghost predicate SettledBasedOn(sc: Scanner, t: VariantTable, paths: set<string>) {
    forall q :: sc.sidecarOf(q).Some? && sc.sidecarOf(q).value.assetPath in paths ==> SidecarSettled(sc, t, q)
  }

  ghost predicate KeepsSettledOutside(sc: Scanner, t: VariantTable, u: VariantTable, paths: set<string>) {
    forall q :: q !in paths && SidecarSettled(sc, t, q) ==> SidecarSettled(sc, u, q)
  }

  ghost predicate AllAbsent(t: VariantTable, paths: set<string>) {
    forall q :: q in paths ==> Absent(t, q)
  }

  lemma NoneIsSettled(sc: Scanner, t: VariantTable, p: string)
    requires WellFormed(sc) && !IsAssetPath(sc, p) && NoneBasedOn(sc, t, p)
    ensures SettledBasedOn(sc, t, {p})
  {
    forall q | BasedOn(sc, q, p) ensures SidecarSettled(sc, t, q) {
      assert !IsTrustedSidecar(sc, q);
    }
  }

  lemma BasedOnOneMore(sc: Scanner, t: VariantTable, u: VariantTable, all: set<string>, left: set<string>, p: string)
    requires KeepsSettled(sc, t, u) && SettledBasedOn(sc, t, all - left) && SettledBasedOn(sc, u, {p})
    ensures SettledBasedOn(sc, u, all - (left - {p}))
  {
  }

  lemma OneMoreRemoved(sc: Scanner, start: VariantTable, t: VariantTable, u: VariantTable, all: set<string>, left: set<string>, q: string)
    requires q in left && left <= all && OnlyWent(t, u, q) && Absent(u, q) && KeepsSettledOutside(sc, t, u, {q})
    requires KeepsSettledOutside(sc, start, t, all - left) && AllAbsent(t, all - left)
    ensures KeepsSettledOutside(sc, start, u, all - (left - {q})) && AllAbsent(u, all - (left - {q}))
  {
    forall x | x in all - (left - {q}) ensures Absent(u, x) {
      if x != q {
        assert Absent(t, x);
      }
    }
  }

  lemma DeletionsCombine(sc: Scanner, start: VariantTable, between: VariantTable, t: VariantTable,
                         deletedAssets: set<string>, deletedSidecars: map<string, Match>, changes: seq<Change>)
    requires FitsDeletions(sc, deletedAssets, deletedSidecars, changes) && WellFormed(sc)
    requires KeepsSettled(sc, start, between) && SettledBasedOn(sc, between, deletedAssets)
    requires KeepsSettledOutside(sc, between, t, deletedSidecars.Keys) && AllAbsent(t, deletedSidecars.Keys)
    ensures DeletionsDone(sc, start, t, changes)
  {
    forall q | BaseDeleted(sc, q, changes) && sc.sidecarOf(sc.sidecarOf(q).value.assetPath) == None
      ensures SidecarSettled(sc, t, q)
    {
      assert sc.sidecarOf(q).value.assetPath in deletedAssets;
      assert !IsTrustedSidecar(sc, q);
    }
  }

  /** The assets in all but left are settled; but for them and the deleted ones, nothing
      has changed. */
  ghost predicate Processed(sc: Scanner, start: CatalogState, assets: map<string, Asset>, all: set<string>, left: set<string>, deleted: set<string>) {
    && SameBut(start.assets, assets, (all - left) + deleted) && deleted !! assets.Keys
    && forall p :: p in all && p !in left ==> AssetSettled(sc, assets, p)
  }

  lemma AssetProcessed(before: Scanner, now: Scanner, start: CatalogState, a: map<string, Asset>, b: map<string, Asset>,
                       t: VariantTable, u: VariantTable, changes: seq<Change>, all: set<string>, left: set<string>, deleted: set<string>, p: string)
    requires SoundStates(before, now) && Synced(before, start) && DueSettled(before, now, t, changes, all - left)
    requires p in left && left <= all && IsAssetPath(now, p) && p !in deleted && Processed(now, start, a, all, left, deleted)
    requires a - {p} == b - {p} && AssetSettled(now, b, p) && KeepsSettledBut(now, t, u, p)
    requires if AssetSettled(now, a, p) then u == t else forall q :: BasedOn(now, q, p) ==> SidecarSettled(now, u, q)
    ensures DueSettled(before, now, u, changes, all - (left - {p})) && Processed(now, start, b, all, left - {p}, deleted)
  {
    DueAfterAsset(before, now, start, a, t, u, changes, all - left, deleted, p);
    OneMoreDone(start.assets, a, b, all, left, deleted, p);
  }

  lemma NothingProcessed(sc: Scanner, start: CatalogState, assets: map<string, Asset>, all: set<string>, deleted: set<string>)
    requires SameBut(start.assets, assets, deleted) && deleted !! assets.Keys
    ensures Processed(sc, start, assets, all, all, deleted) && all - all == {}
  {
    assert (all - all) + deleted == deleted;
  }

  lemma AllProcessed(sc: Scanner, start: CatalogState, assets: map<string, Asset>, all: set<string>, deleted: set<string>)
    requires Processed(sc, start, assets, all, {}, deleted)
    ensures SameBut(start.assets, assets, all + deleted) && all - {} == all
    ensures forall p :: p in all ==> AssetSettled(sc, assets, p)
  {
    assert all - {} == all;
  }

  lemma OneFewer(assets: map<string, Asset>, deleted: set<string>, left: set<string>, p: string)
    requires p in left && left <= deleted
    ensures assets - (deleted - left) - {p} == assets - (deleted - (left - {p}))
    ensures p !in assets - (deleted - left) ==> assets - (deleted - left) == assets - (deleted - (left - {p}))
  {
  }

  lemma OneMoreDone(start: map<string, Asset>, a: map<string, Asset>, b: map<string, Asset>, all: set<string>, left: set<string>, deleted: set<string>, p: string)
    requires p in left && left <= all && p !in deleted
    requires SameBut(start, a, (all - left) + deleted) && a - {p} == b - {p}
    ensures SameBut(start, b, (all - (left - {p})) + deleted)
    ensures all - (left - {p}) == (all - left) + {p}
    ensures forall q :: q != p ==> (q in a <==> q in b) && (q in a ==> a[q] == b[q])
  {
    var but := (all - left) + deleted;
    assert (all - (left - {p})) + deleted == but + {p};
    forall q | q != p ensures (q in a <==> q in b) && (q in a ==> a[q] == b[q]) {
      assert q in a <==> q in a - {p};
      assert q in b <==> q in b - {p};
    }
    forall q ensures q in start - (but + {p}) <==> q in b - (but + {p}) {
      assert q in start - but <==> q in a - but;
    }
    forall q | q in start - (but + {p}) ensures start[q] == b[q] {
      assert (start - but)[q] == (a - but)[q];
    }
  }

  lemma ProjectedRecords(s: CatalogState)
    requires Consistent(s)
    ensures forall k :: k in s.variants ==> IsProjection(s.variants[k])
  {
  }

  lemma BaseIsAsset(sc: Scanner, q: string)
    requires WellFormed(sc) && q in sc.tree && sc.sidecarOf(q).Some?
    ensures IsAssetPath(sc, sc.sidecarOf(q).value.assetPath) && sc.normal(q) == q
  {
    assert PlainPath(sc, q);
  }

  lemma AssetsArePlaced(s: CatalogState, p: string)
    requires Consistent(s)
    ensures p in s.assets ==> s.assets[p].path == p
  {
  }

  /** Without the asset there are no variants of it. */
  lemma NothingBasedOnMissing(sc: Scanner, s: CatalogState, p: string)
    requires Consistent(s) && AllShaped(sc, s.variants) && p !in s.assets
    ensures NoneBasedOn(sc, s.variants, p)
  {
  }

  /** The asset's untrusted sidecars, and those of the first matchers, are settled. */
  ghost predicate RebuiltUpTo(sc: Scanner, t: VariantTable, p: string, i: nat)
    requires i <= |sc.matchers|
  {
    forall q :: BasedOn(sc, q, p) && (!IsTrustedSidecar(sc, q) || MatcherOf(sc, q) in sc.matchers[..i]) ==> SidecarSettled(sc, t, q)
  }

  function MatcherOf(sc: Scanner, q: string): Matcher
    requires sc.sidecarOf(q).Some?
  {
    Matcher(sc.sidecarOf(q).value.encoding, sc.sidecarOf(q).value.suffix)
  }

  lemma RebuiltOneMore(sc: Scanner, t: VariantTable, u: VariantTable, p: string, i: nat)
    requires SoundSource(sc) && i < |sc.matchers| && RebuiltUpTo(sc, t, p, i) && KeepsSettled(sc, t, u)
    requires IsTrustedSidecar(sc, p + sc.matchers[i].suffix) ==> SidecarSettled(sc, u, p + sc.matchers[i].suffix)
    ensures RebuiltUpTo(sc, u, p, i + 1)
  {
    assert sc.matchers[..i + 1] == sc.matchers[..i] + [sc.matchers[i]];
    forall q | BasedOn(sc, q, p) && (!IsTrustedSidecar(sc, q) || MatcherOf(sc, q) in sc.matchers[..i + 1])
      ensures SidecarSettled(sc, u, q)
    {
      if IsTrustedSidecar(sc, q) && MatcherOf(sc, q) !in sc.matchers[..i] {
        assert PlainPath(sc, q);
        assert q == p + sc.matchers[i].suffix;
      }
    }
  }

  lemma RebuiltAll(sc: Scanner, t: VariantTable, p: string)
    requires SoundSource(sc) && RebuiltUpTo(sc, t, p, |sc.matchers|)
    ensures forall q :: BasedOn(sc, q, p) ==> SidecarSettled(sc, t, q)
  {
    assert sc.matchers[..|sc.matchers|] == sc.matchers;
    forall q | BasedOn(sc, q, p) ensures SidecarSettled(sc, t, q) {
      if IsTrustedSidecar(sc, q) {
        assert PlainPath(sc, q);
      }
    }
  }

  /** What is left of a sidecar is not among these records. */
  ghost predicate Unlisted(start: VariantTable, t: VariantTable, records: seq<VariantRecord>, q: string) {
    forall k :: k in t && k in start && HoldsSidecar(start[k], q) ==> start[k] !in records
  }

  lemma StillUnlisted(start: VariantTable, t: VariantTable, records: seq<VariantRecord>, i: nat, q: string)
    requires WellKeyed(start) && i < |records| && Unlisted(start, t, records[..i], q)
    requires HoldsSidecar(records[i], q) ==> Key(records[i]) !in t
    ensures Unlisted(start, t, records[..i + 1], q)
  {
    assert records[..i + 1] == records[..i] + [records[i]];
  }

  lemma NoneUnlisted(start: VariantTable, t: VariantTable, records: seq<VariantRecord>, p: string, q: string, sc: Scanner)
    requires WellKeyed(start) && AllShaped(sc, start) && sc.sidecarOf(q).Some? && sc.sidecarOf(q).value.assetPath == p
    requires VariantIndex.IsFreshSort(start, VariantIndex.OfAsset(p), records)
    requires OnlyWent(start, t, q) && Unlisted(start, t, records[..|records|], q)
    ensures Absent(t, q)
  {
    assert records[..|records|] == records;
    forall k | k in t && IsSidecar(t[k]) ensures t[k].id != q {
      assert Shaped(sc, start[k]);
      assert Live(start, start[k]);
    }
  }

  lemma StillShaped(sc: Scanner, t: VariantTable, artifactPath: string)
    requires AllShaped(sc, t)
    ensures AllShaped(sc, WithoutArtifact(t, artifactPath))
  {
  }

  lemma WithoutBase(sc: Scanner, t: VariantTable, p: string)
    requires WellFormed(sc) && !IsAssetPath(sc, p)
    requires KeepsSettledBut(sc, t, WithoutAsset(t, p), p) && NoneBasedOn(sc, WithoutAsset(t, p), p)
    ensures KeepsSettled(sc, t, WithoutAsset(t, p))
  {
    var u := WithoutAsset(t, p);
    forall q | SidecarSettled(sc, t, q) ensures SidecarSettled(sc, u, q) {
      if BasedOn(sc, q, p) {
        assert !IsTrustedSidecar(sc, q);
      }
    }
  }
}
