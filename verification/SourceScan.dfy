/** Scanning a directory source against a catalog (internal/sourcecatalog/scanner.go,
    sidecar.go, asset_builder.go, sidecar_variants.go). */
module SourceScan {
  import opened Basics
  import opened CatalogRecords
  import opened SidecarMatching
  import opened SourceSync

  datatype ScanError = UnreadableFile

  datatype Snapshot = Snapshot(assets: map<string, Asset>, variants: map<string, Variant>)

  predicate CanReuseAsset(asset: Asset, file: File, o: Outside) {
    && o.stampOf(asset.metadata) == Some(file.modTime)
    && asset.path == file.path && asset.fullPath == file.fullPath && asset.size == file.size
    && asset.mediaType != "" && asset.sourceHash != "" && asset.etag != ""
  }

  predicate CanReuseSidecarVariant(v: Variant, file: File, m: Match, o: Outside) {
    && StageKey(v) == SOURCE_SIDECAR_STAGE
    && o.stampOf(v.metadata) == Some(file.modTime)
    && v.artifactPath == file.fullPath && v.encoding == m.encoding && v.size == file.size && v.etag != ""
  }

  /** The asset describes a file of this place, size and time. */
  predicate DescribesFile(asset: Asset, file: File, o: Outside) {
    && asset.path == file.path && asset.fullPath == file.fullPath
    && asset.size == file.size && o.stampOf(asset.metadata) == Some(file.modTime)
    && !("" in {asset.mediaType, asset.sourceHash, asset.etag})
  }

  /** The sidecar variant describes a file of this place, coding, size and time. */
  predicate DescribesSidecar(v: Variant, file: File, encoding: string, o: Outside) {
    && "stage" in v.metadata && TrimSpace(v.metadata["stage"]) == "source_sidecar"
    && v.artifactPath == file.fullPath && v.encoding == encoding
    && v.size == file.size && o.stampOf(v.metadata) == Some(file.modTime) && v.etag != ""
  }

  /** The trust that scanning places in sizes and modification times, on the fields of the
      catalog and the files alone: where they are the same, so are the bytes. */
  ghost predicate ReuseIsSound(sc: Scanner, assets: map<string, Asset>, sidecars: map<string, Variant>) {
    && (forall p :: p in assets && IsAssetPath(sc, p) && DescribesFile(assets[p], sc.tree[p], sc.outside) ==>
          BareAsset(assets[p]) == BareAsset(TargetAsset(sc, p)))
    && (forall q :: IsTrustedSidecar(sc, q) && sc.tree[q].fullPath in sidecars
                    && DescribesSidecar(sidecars[sc.tree[q].fullPath], sc.tree[q], sc.sidecarOf(q).value.encoding, sc.outside) ==>
          sidecars[sc.tree[q].fullPath].etag == Quoted(sc.outside.hash(sc.tree[q].content)))
  }

  /** Reuse asks for exactly that. */
  lemma ReuseIffDescribes(o: Outside)
    ensures forall asset, file :: CanReuseAsset(asset, file, o) <==> DescribesFile(asset, file, o)
    ensures forall v, file, m :: CanReuseSidecarVariant(v, file, m, o) <==> DescribesSidecar(v, file, m.encoding, o)
  {
  }

  /** Assets whose file has another place, size or time than the catalog says are built anew. */
  ghost predicate ChangedAreBuilt(sc: Scanner, existing: map<string, Asset>, assets: map<string, Asset>) {
    forall p :: p in assets && IsAssetPath(sc, p) && !(p in existing && DescribesFile(existing[p], sc.tree[p], sc.outside)) ==>
      assets[p] == TargetAsset(sc, p)
  }

  /** Sidecar variants, indexed by the file they stand for, carry no image format or width. */
  predicate PlainSidecars(sidecars: map<string, Variant>) {
    forall a :: a in sidecars ==> sidecars[a].format == "" && sidecars[a].width == 0
  }

  // ---- Files and sidecars -----------------------------------------------------------------

  /** matchSidecar: beside its base file, with outer white space of the base's path trimmed. */
  function Recognized(sc: Scanner, files: set<string>, path: string): Option<Match> {
    var found := sc.suffixOf(path);
    if found == None then None
    else
      var assetPath := TrimSpace(TrimSuffix(path, found.value.suffix));
      if assetPath == "" || assetPath == path || assetPath !in files then None
      else Some(Match(assetPath, found.value.encoding, found.value.suffix))
  }

  ghost predicate IsFileSet(sc: Scanner, files: set<string>) {
    forall p :: p in files <==> p in sc.tree && !sc.tree[p].isDir
  }

  /** Where every sidecar-suffixed file has its base, recognition is the path match alone. */
  lemma RecognizedIsMatched(sc: Scanner, files: set<string>, path: string)
    requires SoundScanner(sc) && WellFormed(sc) && IsFileSet(sc, files) && path in files
    ensures Recognized(sc, files, path) == sc.sidecarOf(path)
  {
    assert PlainPath(sc, path);
    var found := sc.suffixOf(path);
    if found.Some? {
      var assetPath := TrimSuffix(path, found.value.suffix);
      if sc.sidecarOf(path).Some? {
        assert PlainPath(sc, assetPath);
        TrimmedIsFixed(assetPath);
      } else {
        BlankBase(path, found.value.suffix, assetPath);
      }
    }
  }

  lemma BlankBase(path: string, suffix: string, assetPath: string)
    requires assetPath == TrimSuffix(path, suffix) && (assetPath == "" || assetPath == path) && Basics.Trimmed(path)
    ensures TrimSpace(assetPath) == "" || TrimSpace(assetPath) == path
  {
    TrimmedIsFixed("");
    TrimmedIsFixed(path);
  }

  method CollectSourceFiles(sc: Scanner) returns (files: set<string>)
    ensures IsFileSet(sc, files)
  {
    files := {};
    var left := sc.tree.Keys;
    while left != {}
      invariant left <= sc.tree.Keys
      invariant forall p :: p in files <==> p in sc.tree && !sc.tree[p].isDir && p !in left
      decreases left
    {
      var p :| p in left;
      if !sc.tree[p].isDir {
        files := files + {p};
      }
      left := left - {p};
    }
  }

  /** BuildAsset: reading a directory fails. */
  method BuildAsset(file: File, o: Outside) returns (asset: Result<Asset, ScanError>)
    ensures asset == if file.isDir then Err(UnreadableFile) else Ok(AssetOf(file, o))
  {
    asset := if file.isDir then Err(UnreadableFile) else Ok(AssetOf(file, o));
  }

  /** The files that are no sidecars, each with its asset, reused or built. */
  ghost predicate HoldsAssets(sc: Scanner, assets: map<string, Asset>, left: set<string>) {
    && (forall p :: p in assets <==> IsAssetPath(sc, p) && p !in left)
    && (forall p :: p in assets ==> BareAsset(assets[p]) == BareAsset(TargetAsset(sc, p)))
  }

  method BuildAssets(sc: Scanner, files: set<string>, existing: map<string, Asset>, ghost existingSidecars: map<string, Variant>)
    returns (assets: Result<map<string, Asset>, ScanError>)
    requires SoundScanner(sc) && WellFormed(sc) && IsFileSet(sc, files) && ReuseIsSound(sc, existing, existingSidecars)
    ensures assets.Ok? && HoldsAssets(sc, assets.value, {}) && ChangedAreBuilt(sc, existing, assets.value)
  {
    var built: map<string, Asset> := map[];
    var left := files;
    ReuseIffDescribes(sc.outside);
    while left != {}
      invariant left <= files && HoldsAssets(sc, built, left) && ChangedAreBuilt(sc, existing, built)
      decreases left
    {
      var p :| p in left;
      RecognizedIsMatched(sc, files, p);
      if Recognized(sc, files, p) == None {
        var file := sc.tree[p];
        if p in existing && CanReuseAsset(existing[p], file, sc.outside) {
          built := built[p := existing[p].(metadata := sc.outside.stamp(existing[p].metadata, file.modTime))];
        } else {
          var asset := BuildAsset(file, sc.outside);
          if asset.Err? {
            return Err(UnreadableFile);
          }
          built := built[p := asset.value];
        }
      }
      left := left - {p};
    }
    assets := Ok(built);
  }

  // ---- Sidecar variants -----------------------------------------------------------------------

  function Reused(v: Variant, file: File, m: Match, asset: Asset, o: Outside): Variant {
    v.(id := m.assetPath + m.suffix, assetPath := asset.path, artifactPath := file.fullPath, size := file.size,
       encoding := m.encoding, sourceHash := asset.sourceHash, mediaType := asset.mediaType,
       metadata := o.stamp(v.metadata, file.modTime))
  }

  /** One recognised sidecar: nothing when it is not trusted, else a variant as it should be. */
  method SidecarVariantOf(sc: Scanner, q: string, m: Match, asset: Asset, existingAssets: map<string, Asset>, existing: map<string, Variant>)
    returns (variant: Option<Variant>)
    requires SoundScanner(sc) && WellFormed(sc) && ReuseIsSound(sc, existingAssets, existing) && PlainSidecars(existing)
    requires q in sc.tree && sc.sidecarOf(q) == Some(m) && m.assetPath in sc.tree
    requires BareAsset(asset) == BareAsset(TargetAsset(sc, m.assetPath))
    ensures variant.Some? <==> IsTrustedSidecar(sc, q)
    ensures variant.Some? ==>
              && BareVariant(variant.value) == BareVariant(TargetVariant(sc, q))
              && StageKey(variant.value) == SOURCE_SIDECAR_STAGE && variant.value.id == q
  {
    var file := sc.tree[q];
    ReuseIffDescribes(sc.outside);
    assert asset.path == BareAsset(asset).path == m.assetPath;
    assert asset.mediaType == BareAsset(asset).mediaType && asset.sourceHash == BareAsset(asset).sourceHash;
    assert PlainPath(sc, q);
    if !Trusted(file, m, sc.outside) {
      return None;
    }
    if file.fullPath in existing && CanReuseSidecarVariant(existing[file.fullPath], file, m, sc.outside) {
      RestampedStage(existing[file.fullPath], file, m, asset, sc.outside);
      return Some(Reused(existing[file.fullPath], file, m, asset, sc.outside));
    }
    BuiltStage(m, sc.outside, file, asset);
    variant := Some(SidecarVariant(file, m, asset, sc.outside));
  }

  lemma RestampedStage(v: Variant, file: File, m: Match, asset: Asset, o: Outside)
    requires StampsKeepStage(o) && StageKey(v) == SOURCE_SIDECAR_STAGE
    ensures StageKey(Reused(v, file, m, asset, o)) == SOURCE_SIDECAR_STAGE
  {
  }

  ghost predicate HoldsVariants(sc: Scanner, variants: map<string, Variant>, left: set<string>) {
    && (forall q :: q in variants <==> IsTrustedSidecar(sc, q) && q !in left)
    && (forall q :: q in variants ==>
          && BareVariant(variants[q]) == BareVariant(TargetVariant(sc, q))
          && StageKey(variants[q]) == SOURCE_SIDECAR_STAGE && variants[q].id == q)
  }

  lemma VariantsOneMore(sc: Scanner, variants: map<string, Variant>, left: set<string>, q: string, variant: Option<Variant>)
    requires HoldsVariants(sc, variants, left) && q in left && (variant.Some? <==> IsTrustedSidecar(sc, q))
    requires variant.Some? ==>
               && BareVariant(variant.value) == BareVariant(TargetVariant(sc, q))
               && StageKey(variant.value) == SOURCE_SIDECAR_STAGE && variant.value.id == q
    ensures HoldsVariants(sc, if variant.Some? then variants[q := variant.value] else variants, left - {q})
  {
  }

  lemma UnmatchedIsUntrusted(sc: Scanner, q: string, assets: map<string, Asset>)
    requires WellFormed(sc) && HoldsAssets(sc, assets, {})
    requires sc.sidecarOf(q) == None || sc.sidecarOf(q).value.assetPath !in assets
    ensures !IsTrustedSidecar(sc, q)
  {
  }

  method BuildSidecarVariants(sc: Scanner, files: set<string>, assets: map<string, Asset>, existingAssets: map<string, Asset>, existing: map<string, Variant>)
    returns (variants: map<string, Variant>)
    requires SoundScanner(sc) && WellFormed(sc) && IsFileSet(sc, files) && HoldsAssets(sc, assets, {})
    requires ReuseIsSound(sc, existingAssets, existing) && PlainSidecars(existing)
    ensures HoldsVariants(sc, variants, {})
  {
    variants := map[];
    var left := files;
    SidecarsAreFiles(sc, files);
    while left != {}
      invariant left <= files && HoldsVariants(sc, variants, left)
      decreases left
    {
      var q :| q in left;
      RecognizedIsMatched(sc, files, q);
      var m := Recognized(sc, files, q);
      if m.Some? && m.value.assetPath in assets {
        var variant := SidecarVariantOf(sc, q, m.value, assets[m.value.assetPath], existingAssets, existing);
        VariantsOneMore(sc, variants, left, q, variant);
        if variant.Some? {
          variants := variants[variant.value.id := variant.value];
        }
      } else {
        UnmatchedIsUntrusted(sc, q, assets);
        VariantsOneMore(sc, variants, left, q, None);
      }
      left := left - {q};
    }
  }

  lemma SidecarsAreFiles(sc: Scanner, files: set<string>)
    requires WellFormed(sc) && IsFileSet(sc, files)
    ensures forall q :: IsTrustedSidecar(sc, q) ==> q in files
  {
  }

  /** ScanWithCatalog: the source's assets and trusted sidecars, up to metadata, whatever
      was reused. */
  method ScanWithCatalog(sc: Scanner, existingAssets: map<string, Asset>, existingSidecars: map<string, Variant>)
    returns (snapshot: Result<Snapshot, ScanError>)
    requires SoundScanner(sc) && WellFormed(sc)
    requires ReuseIsSound(sc, existingAssets, existingSidecars) && PlainSidecars(existingSidecars)
    ensures snapshot.Ok? && HoldsAssets(sc, snapshot.value.assets, {}) && HoldsVariants(sc, snapshot.value.variants, {})
    ensures ChangedAreBuilt(sc, existingAssets, snapshot.value.assets)
  {
    var files := CollectSourceFiles(sc);
    var assets := BuildAssets(sc, files, existingAssets, existingSidecars);
    if assets.Err? {
      return Err(UnreadableFile);
    }
    var variants := BuildSidecarVariants(sc, files, assets.value, existingAssets, existingSidecars);
    snapshot := Ok(Snapshot(assets.value, variants));
  }
}
