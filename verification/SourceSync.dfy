/** What a catalog synced to a directory source holds (internal/sourcecatalog/asset_builder.go,
    sidecar_variants.go), and how the catalog's commands bring it there. */
module SourceSync {
  import opened Basics
  import opened CatalogRecords
  import opened Catalog
  import opened SidecarMatching
  import Media

  const SOURCE_SIDECAR_STAGE := "source_sidecar"

  // ---- Files and what is built from them ---------------------------------------------------

  datatype File = File(path: string, fullPath: string, size: int, isDir: bool, modTime: int, content: string)

  type Tree = map<string, File>

  /** Hashing, media types, the payload check, the file system's full paths, and the
      modification time kept in metadata. */
  datatype Outside = Outside(
    hash: string -> string,
    mediaType: (string, string) -> string,
    trusts: (string, string, string) -> bool,
    fullPath: string -> string,
    stamp: (map<string, string>, int) -> map<string, string>,
    stampOf: map<string, string> -> Option<int>)

  /** A scanner over one state of the source: the files its path filter lets through, how
      paths are normalised, and which paths are sidecars. */
  datatype Scanner = Scanner(
    matchers: seq<Matcher>,
    suffixOf: string -> Option<Matcher>,
    sidecarOf: string -> Option<Match>,
    normal: string -> string,
    outside: Outside,
    tree: Tree)

  function Quoted(hash: string): string {
    "\"" + hash + "\""
  }

  /** BuildAsset, for a file of a directory source. */
  function AssetOf(file: File, o: Outside): Asset {
    Asset(file.path, file.fullPath, file.size, o.mediaType(file.fullPath, file.content), o.hash(file.content),
          Quoted(o.hash(file.content)), o.stamp(map[], file.modTime))
  }

  /** BuildSourceSidecarVariant. */
  function SidecarVariant(file: File, m: Match, asset: Asset, o: Outside): Variant {
    Variant(m.assetPath + m.suffix, m.assetPath, file.fullPath, file.size, asset.mediaType, asset.sourceHash,
            Quoted(o.hash(file.content)), m.encoding, "", 0,
            o.stamp(map["stage" := SOURCE_SIDECAR_STAGE, "source" := m.assetPath], file.modTime))
  }

  predicate Trusted(file: File, m: Match, o: Outside) {
    file.size > 0 && o.trusts(m.encoding, m.assetPath, file.content)
  }

  /** All but the metadata. */
  function BareAsset(a: Asset): Asset {
    a.(metadata := map[])
  }

  function BareVariant(v: Variant): Variant {
    v.(metadata := map[])
  }

  // ---- The premises about the source ------------------------------------------------------------

  ghost predicate MatchesSplit(sc: Scanner) {
    forall q :: sc.sidecarOf(q).Some? && sc.normal(q) == q ==>
      var m := sc.sidecarOf(q).value;
      m.assetPath != "" && q == m.assetPath + m.suffix && Matcher(m.encoding, m.suffix) in sc.matchers
  }

  ghost predicate MatchesFollowSuffixes(sc: Scanner) {
    forall q :: q != "" && sc.normal(q) == q ==> sc.sidecarOf(q) == SplitAt(q, sc.suffixOf(q))
  }

  function SplitAt(path: string, found: Option<Matcher>): Option<Match> {
    if found == None then None
    else
      var assetPath := TrimSuffix(path, found.value.suffix);
      if assetPath == "" || assetPath == path then None else Some(Match(assetPath, found.value.encoding, found.value.suffix))
  }

  ghost predicate SuffixedMatches(sc: Scanner) {
    forall p, m :: m in sc.matchers && p != "" && sc.normal(p + m.suffix) == p + m.suffix ==>
      sc.sidecarOf(p + m.suffix) == Some(Match(p, m.encoding, m.suffix))
  }

  ghost predicate SuffixesKeepNormal(sc: Scanner) {
    forall p, m :: PlainPath(sc, p) && m in sc.matchers ==> sc.normal(p + m.suffix) == p + m.suffix
  }

  ghost predicate DistinctEncodings(sc: Scanner) {
    forall m, n :: m in sc.matchers && n in sc.matchers && m.encoding == n.encoding ==> m == n
  }

  ghost predicate DistinctFullPaths(o: Outside) {
    && (forall p :: o.fullPath(p) != "")
    && (forall p, q :: o.fullPath(p) == o.fullPath(q) ==> p == q)
  }

  ghost predicate StampsKeepStage(o: Outside) {
    forall m, t :: "stage" in m ==> "stage" in o.stamp(m, t) && o.stamp(m, t)["stage"] == m["stage"]
  }

  ghost predicate SoundScanner(sc: Scanner) {
    && MatchesSplit(sc) && MatchesFollowSuffixes(sc) && SuffixedMatches(sc) && SuffixesKeepNormal(sc)
    && DistinctEncodings(sc) && DistinctFullPaths(sc.outside) && StampsKeepStage(sc.outside)
  }

  predicate PlainPath(sc: Scanner, p: string) {
    p != "" && sc.normal(p) == p && Basics.Trimmed(p) && 0 as char !in p
  }

  /** Paths are in normal form, and every sidecar-suffixed path is a file beside a base file
      that is no sidecar itself. */
  ghost predicate WellFormed(sc: Scanner) {
    && (forall p :: p in sc.tree ==> PlainPath(sc, p) && sc.tree[p].path == p && sc.tree[p].fullPath == sc.outside.fullPath(p))
    && (forall q :: q in sc.tree && sc.sidecarOf(q).Some? ==> !sc.tree[q].isDir && IsAssetPath(sc, sc.sidecarOf(q).value.assetPath))
  }

  predicate IsAssetPath(sc: Scanner, p: string) {
    p in sc.tree && !sc.tree[p].isDir && sc.sidecarOf(p) == None
  }

  predicate IsTrustedSidecar(sc: Scanner, q: string) {
    && q in sc.tree && sc.sidecarOf(q).Some?
    && sc.sidecarOf(q).value.assetPath in sc.tree
    && Trusted(sc.tree[q], sc.sidecarOf(q).value, sc.outside)
  }

  function TargetAsset(sc: Scanner, p: string): Asset
    requires p in sc.tree
  {
    AssetOf(sc.tree[p], sc.outside)
  }

  function TargetVariant(sc: Scanner, q: string): Variant
    requires IsTrustedSidecar(sc, q)
  {
    var m := sc.sidecarOf(q).value;
    SidecarVariant(sc.tree[q], m, TargetAsset(sc, m.assetPath), sc.outside)
  }

  /** No image asset has two trusted sidecars. */
  ghost predicate OneSidecarPerImage(sc: Scanner) {
    forall q, r :: IsTrustedSidecar(sc, q) && IsTrustedSidecar(sc, r) && q != r && sc.sidecarOf(q).value.assetPath == sc.sidecarOf(r).value.assetPath ==>
      Media.ImageFormat(TargetVariant(sc, q).mediaType) == ""
  }

  // ---- Being synced ---------------------------------------------------------------------------

  predicate IsSidecar(r: VariantRecord) {
    r.stage == SOURCE_SIDECAR_STAGE
  }

  function KeyAt(sc: Scanner, q: string): string
    requires sc.sidecarOf(q).Some?
  {
    sc.sidecarOf(q).value.assetPath + [0 as char] + q
  }

  /** The shape of a sidecar record: everything but size, digests and media type follows
      from the sidecar's path. */
  predicate Shaped(sc: Scanner, r: VariantRecord) {
    && PlainPath(sc, r.id) && sc.sidecarOf(r.id).Some?
    && var m := sc.sidecarOf(r.id).value;
    && r.assetPath == m.assetPath && r.encoding == m.encoding && r.artifactPath == sc.outside.fullPath(r.id)
    && r.variant.format == "" && r.width == 0
  }

  ghost predicate AllShaped(sc: Scanner, t: VariantTable) {
    forall k :: k in t && IsSidecar(t[k]) ==> Shaped(sc, t[k])
  }

  ghost predicate AtTarget(sc: Scanner, t: VariantTable, q: string)
    requires IsTrustedSidecar(sc, q)
  {
    var k := KeyAt(sc, q);
    k in t && IsSidecar(t[k]) && BareVariant(t[k].variant) == BareVariant(TargetVariant(sc, q))
  }

  ghost predicate Absent(t: VariantTable, q: string) {
    forall k :: k in t && IsSidecar(t[k]) ==> t[k].id != q
  }

  /** The sidecar at this path is as it should be: there with the right fields, or not there. */
  ghost predicate SidecarSettled(sc: Scanner, t: VariantTable, q: string) {
    if IsTrustedSidecar(sc, q) then AtTarget(sc, t, q) else Absent(t, q)
  }

  ghost predicate AssetSettled(sc: Scanner, assets: map<string, Asset>, p: string) {
    if IsAssetPath(sc, p) then p in assets && BareAsset(assets[p]) == BareAsset(TargetAsset(sc, p)) else p !in assets
  }

  /** The catalog's assets and sidecar variants are those of the source, up to metadata. */
  ghost predicate Synced(sc: Scanner, s: CatalogState) {
    && AllShaped(sc, s.variants)
    && (forall p :: AssetSettled(sc, s.assets, p))
    && (forall q :: SidecarSettled(sc, s.variants, q))
  }

  // ---- Sidecar records and their slots ---------------------------------------------------------

  lemma BaseHasNoZero(sc: Scanner, q: string)
    requires MatchesSplit(sc) && PlainPath(sc, q) && sc.sidecarOf(q).Some?
    ensures 0 as char !in sc.sidecarOf(q).value.assetPath
  {
    var m := sc.sidecarOf(q).value;
    assert forall c :: c in m.assetPath ==> c in q;
  }

  /** Different sidecars only ever clash over an image slot. */
  lemma SidecarsClashOverImages(sc: Scanner, a: VariantRecord, b: VariantRecord)
    requires SoundScanner(sc) && Shaped(sc, a) && Shaped(sc, b) && a.id != b.id && Clashes(a, b)
    ensures a.assetPath == b.assetPath && a.imageFormat == b.imageFormat != ""
  {
    BaseHasNoZero(sc, a.id);
    BaseHasNoZero(sc, b.id);
    if Key(a) == Key(b) {
      KeySplits(a.assetPath, a.id, b.assetPath, b.id);
    }
    if SharesEncoding(a, b) {
      SameEncodingIsSameSidecar(sc, a, b);
    }
  }

  /** An asset has one sidecar of each encoding. */
  lemma SameEncodingIsSameSidecar(sc: Scanner, a: VariantRecord, b: VariantRecord)
    requires SoundScanner(sc) && Shaped(sc, a) && Shaped(sc, b) && a.assetPath == b.assetPath && a.encoding == b.encoding
    ensures a.id == b.id
  {
    var m, n := sc.sidecarOf(a.id).value, sc.sidecarOf(b.id).value;
    assert Matcher(m.encoding, m.suffix) == Matcher(n.encoding, n.suffix);
  }

  lemma TargetRecord(sc: Scanner, q: string, v: Variant)
    requires SoundScanner(sc) && WellFormed(sc) && IsTrustedSidecar(sc, q)
    requires BareVariant(v) == BareVariant(TargetVariant(sc, q)) && StageKey(v) == SOURCE_SIDECAR_STAGE
    ensures var r := NewVariantRecord(v);
            r.id == q && r.variant == v && Shaped(sc, r) && IsSidecar(r) && Key(r) == KeyAt(sc, q)
  {
    assert PlainPath(sc, q);
    assert v.id == BareVariant(v).id && v.assetPath == BareVariant(v).assetPath && v.encoding == BareVariant(v).encoding
        && v.artifactPath == BareVariant(v).artifactPath && v.format == BareVariant(v).format && v.width == BareVariant(v).width;
  }

  lemma BuiltStage(m: Match, o: Outside, file: File, asset: Asset)
    requires StampsKeepStage(o)
    ensures StageKey(SidecarVariant(file, m, asset, o)) == SOURCE_SIDECAR_STAGE
  {
    TrimmedIsFixed(SOURCE_SIDECAR_STAGE);
  }

  // ---- What the commands do to settled sidecars ----------------------------------------------------

  lemma KeptAtTarget(sc: Scanner, t: VariantTable, q: string, r: VariantRecord)
    requires SoundScanner(sc) && WellFormed(sc) && OneSidecarPerImage(sc)
    requires WellKeyed(t) && AllShaped(sc, t) && (forall k :: k in t ==> IsProjection(t[k]))
    requires IsTrustedSidecar(sc, q) && AtTarget(sc, t, q)
    requires Shaped(sc, r) && IsProjection(r) && r.id != q && IsTrustedSidecar(sc, r.id)
    requires BareVariant(r.variant) == BareVariant(TargetVariant(sc, r.id))
    ensures AtTarget(sc, Upserted(t, r), q)
  {
    var k := KeyAt(sc, q);
    BareRecordID(sc, q, t[k]);
    HeldApart(sc, q, t[k], r);
    StillThere(t, r, k);
  }

  lemma StillThere(t: VariantTable, r: VariantRecord, k: string)
    requires WellKeyed(t) && k in t && !Clashes(t[k], r)
    ensures k in Upserted(t, r) && Upserted(t, r)[k] == t[k]
  {
    assert Key(t[k]) == k;
  }

  /** Two different sidecars as they should be do not clash. */
  lemma HeldApart(sc: Scanner, q: string, held: VariantRecord, r: VariantRecord)
    requires SoundScanner(sc) && WellFormed(sc) && OneSidecarPerImage(sc) && IsTrustedSidecar(sc, q) && IsTrustedSidecar(sc, r.id)
    requires Shaped(sc, held) && IsProjection(held) && held.id == q && Shaped(sc, r) && r.id != q
    requires BareVariant(held.variant) == BareVariant(TargetVariant(sc, q))
    ensures !Clashes(held, r)
  {
    assert held.variant.mediaType == BareVariant(held.variant).mediaType;
    assert held.imageFormat == Media.ImageFormat(TargetVariant(sc, q).mediaType);
    if Clashes(held, r) {
      SidecarsClashOverImages(sc, held, r);
    }
  }

  lemma BareRecordID(sc: Scanner, q: string, r: VariantRecord)
    requires MatchesSplit(sc) && WellFormed(sc) && IsTrustedSidecar(sc, q) && IsProjection(r) && q != ""
    requires BareVariant(r.variant) == BareVariant(TargetVariant(sc, q))
    ensures r.id == q
  {
    assert PlainPath(sc, q);
    assert r.variant.id == BareVariant(r.variant).id == q;
  }

  /** Upserting a sidecar as it should be settles it and unsettles none. */
  lemma UpsertSettles(sc: Scanner, t: VariantTable, q: string, v: Variant)
    requires SoundScanner(sc) && WellFormed(sc) && OneSidecarPerImage(sc)
    requires WellKeyed(t) && AllShaped(sc, t) && forall k :: k in t ==> IsProjection(t[k])
    requires IsTrustedSidecar(sc, q) && BareVariant(v) == BareVariant(TargetVariant(sc, q)) && StageKey(v) == SOURCE_SIDECAR_STAGE
    ensures var u := Upserted(t, NewVariantRecord(v));
            && AllShaped(sc, u) && AtTarget(sc, u, q)
            && KeepsSettled(sc, t, u)
  {
    var r := NewVariantRecord(v);
    var u := Upserted(t, r);
    TargetRecord(sc, q, v);
    RecordIsProjection(v);
    assert u[KeyAt(sc, q)] == r;
    forall p | SidecarSettled(sc, t, p) ensures SidecarSettled(sc, u, p) {
      if p != q && IsTrustedSidecar(sc, p) {
        KeptAtTarget(sc, t, p, r);
      }
    }
  }

  /** The sidecars of u are those of t, but perhaps for q. */
  ghost predicate OnlyAdds(t: VariantTable, u: VariantTable, q: string) {
    forall k :: k in u && IsSidecar(u[k]) && u[k].id != q ==> !Absent(t, u[k].id)
  }

  lemma UpsertOnlyAdds(sc: Scanner, t: VariantTable, q: string, v: Variant)
    requires SoundScanner(sc) && WellFormed(sc) && IsTrustedSidecar(sc, q)
    requires BareVariant(v) == BareVariant(TargetVariant(sc, q)) && StageKey(v) == SOURCE_SIDECAR_STAGE
    ensures OnlyAdds(t, Upserted(t, NewVariantRecord(v)), q)
  {
    TargetRecord(sc, q, v);
  }

  /** Some records went; every sidecar other than q stayed. */
  ghost predicate OnlyWent(t: VariantTable, u: VariantTable, q: string) {
    && (forall k :: k in u ==> k in t && u[k] == t[k])
    && (forall k :: k in t && IsSidecar(t[k]) && t[k].id != q ==> k in u)
  }

  /** Deleting by a sidecar's full path takes that sidecar away and no other. */
  lemma WithoutSidecarFile(sc: Scanner, t: VariantTable, q: string)
    requires DistinctFullPaths(sc.outside) && AllShaped(sc, t)
    ensures OnlyWent(t, WithoutArtifact(t, sc.outside.fullPath(q)), q) && Absent(WithoutArtifact(t, sc.outside.fullPath(q)), q)
  {
    var u := WithoutArtifact(t, sc.outside.fullPath(q));
    forall k | k in t && IsSidecar(t[k]) ensures k in u <==> t[k].id != q {
      assert Shaped(sc, t[k]);
    }
  }

  /** Deleting by the file of some record with this id, be it a sidecar or not, takes no
      other sidecar away. */
  lemma WithoutRecordFile(start: VariantTable, t: VariantTable, k: string)
    requires WellKeyed(start) && k in start
    requires forall j :: j in t ==> j in start && t[j] == start[j]
    ensures OnlyWent(t, WithoutArtifact(t, start[k].artifactPath), start[k].id)
    ensures start[k].artifactPath != "" ==> k !in WithoutArtifact(t, start[k].artifactPath)
  {
    var u := WithoutArtifact(t, start[k].artifactPath);
    forall j | j in t && j !in u ensures j == k {
      assert SharesArtifact(start[j], start[k]);
    }
  }

  lemma OnlyWentTrans(t: VariantTable, u: VariantTable, w: VariantTable, q: string)
    requires OnlyWent(t, u, q) && OnlyWent(u, w, q)
    ensures OnlyWent(t, w, q)
  {
  }

  lemma OnlyWentSettles(sc: Scanner, t: VariantTable, u: VariantTable, q: string)
    requires MatchesSplit(sc) && WellFormed(sc) && AllShaped(sc, t) && OnlyWent(t, u, q)
    requires forall k :: k in t ==> IsProjection(t[k])
    ensures AllShaped(sc, u)
    ensures forall p :: p != q && SidecarSettled(sc, t, p) ==> SidecarSettled(sc, u, p)
  {
    forall p | p != q && SidecarSettled(sc, t, p) ensures SidecarSettled(sc, u, p) {
      if IsTrustedSidecar(sc, p) {
        assert PlainPath(sc, p);
        BareRecordID(sc, p, t[KeyAt(sc, p)]);
      }
    }
  }

  /** The path is a sidecar of this asset. */
  predicate BasedOn(sc: Scanner, q: string, p: string) {
    sc.sidecarOf(q).Some? && sc.sidecarOf(q).value.assetPath == p
  }

  ghost predicate KeepsSettled(sc: Scanner, t: VariantTable, u: VariantTable) {
    forall q :: SidecarSettled(sc, t, q) ==> SidecarSettled(sc, u, q)
  }

  ghost predicate KeepsSettledBut(sc: Scanner, t: VariantTable, u: VariantTable, p: string) {
    forall q :: SidecarSettled(sc, t, q) && !BasedOn(sc, q, p) ==> SidecarSettled(sc, u, q)
  }

  ghost predicate NoneBasedOn(sc: Scanner, t: VariantTable, p: string) {
    forall q :: BasedOn(sc, q, p) ==> Absent(t, q)
  }

  /** Dropping an asset's variants leaves every other asset's sidecars alone. */
  lemma WithoutAssetSettles(sc: Scanner, t: VariantTable, p: string)
    requires MatchesSplit(sc) && WellFormed(sc) && AllShaped(sc, t) && forall k :: k in t ==> IsProjection(t[k])
    ensures var u := WithoutAsset(t, p);
            AllShaped(sc, u) && KeepsSettledBut(sc, t, u, p) && NoneBasedOn(sc, u, p)
  {
    var u := WithoutAsset(t, p);
    forall q | SidecarSettled(sc, t, q) && !BasedOn(sc, q, p) ensures SidecarSettled(sc, u, q)
    {
      if IsTrustedSidecar(sc, q) {
        var r := t[KeyAt(sc, q)];
        assert PlainPath(sc, q);
        BareRecordID(sc, q, r);
        assert Shaped(sc, r);
      }
    }
  }

  /** Two catalogs synced to one source hold the same assets and sidecars, up to metadata. */
  lemma SyncedIsUnique(sc: Scanner, s: CatalogState, t: CatalogState, q: string)
    requires SoundScanner(sc) && WellFormed(sc) && Consistent(s) && Consistent(t) && Synced(sc, s) && Synced(sc, t)
    ensures q in s.assets <==> q in t.assets
    ensures q in s.assets ==> BareAsset(s.assets[q]) == BareAsset(t.assets[q])
    ensures Absent(s.variants, q) <==> Absent(t.variants, q)
    ensures forall j, k :: j in s.variants && k in t.variants && HoldsSidecar(s.variants[j], q) && HoldsSidecar(t.variants[k], q) ==>
              j == k && BareVariant(s.variants[j].variant) == BareVariant(t.variants[k].variant)
  {
    assert AssetSettled(sc, s.assets, q) && AssetSettled(sc, t.assets, q);
    assert SidecarSettled(sc, s.variants, q) && SidecarSettled(sc, t.variants, q);
    if IsTrustedSidecar(sc, q) {
      SettledRecord(sc, s, q);
      SettledRecord(sc, t, q);
    }
  }

  predicate HoldsSidecar(r: VariantRecord, q: string) {
    IsSidecar(r) && r.id == q
  }

  lemma SettledRecord(sc: Scanner, s: CatalogState, q: string)
    requires SoundScanner(sc) && WellFormed(sc) && Consistent(s) && AllShaped(sc, s.variants)
    requires IsTrustedSidecar(sc, q) && AtTarget(sc, s.variants, q)
    ensures HoldsSidecar(s.variants[KeyAt(sc, q)], q)
    ensures forall k :: k in s.variants && HoldsSidecar(s.variants[k], q) ==> k == KeyAt(sc, q)
  {
    assert PlainPath(sc, q);
    BareRecordID(sc, q, s.variants[KeyAt(sc, q)]);
    forall k | k in s.variants && HoldsSidecar(s.variants[k], q) ensures k == KeyAt(sc, q) {
      assert Shaped(sc, s.variants[k]);
    }
  }

  // ---- Which sources a catalog can be synced to ---------------------------------------------

  /** Two sidecars of one image cannot both be in a catalog. */
  lemma SyncedHasOneSidecarPerImage(sc: Scanner, s: CatalogState)
    requires SoundScanner(sc) && WellFormed(sc) && Consistent(s) && Synced(sc, s)
    ensures OneSidecarPerImage(sc)
  {
    forall q, r | IsTrustedSidecar(sc, q) && IsTrustedSidecar(sc, r) && q != r && sc.sidecarOf(q).value.assetPath == sc.sidecarOf(r).value.assetPath
      ensures Media.ImageFormat(TargetVariant(sc, q).mediaType) == ""
    {
      HeldImageSlot(sc, s, q);
      HeldImageSlot(sc, s, r);
      var a, b := s.variants[KeyAt(sc, q)], s.variants[KeyAt(sc, r)];
      assert TargetVariant(sc, q).mediaType == TargetVariant(sc, r).mediaType;
      assert !Clashes(a, b);
    }
  }

  lemma HeldImageSlot(sc: Scanner, s: CatalogState, q: string)
    requires SoundScanner(sc) && WellFormed(sc) && Consistent(s) && Synced(sc, s) && IsTrustedSidecar(sc, q)
    ensures var k := KeyAt(sc, q);
            && k in s.variants && s.variants[k].id == q && Key(s.variants[k]) == k
            && ImageSlotOf(s.variants[k]) == ImageSlot(sc.sidecarOf(q).value.assetPath, Media.ImageFormat(TargetVariant(sc, q).mediaType), 0)
  {
    assert SidecarSettled(sc, s.variants, q);
    var r := s.variants[KeyAt(sc, q)];
    assert PlainPath(sc, q);
    BareRecordID(sc, q, r);
    assert Shaped(sc, r);
    assert r.variant.mediaType == BareVariant(r.variant).mediaType;
  }

  /** A table of these sidecars and nothing else. */
  ghost predicate HoldsExactly(sc: Scanner, t: VariantTable, todo: set<string>) {
    && WellKeyed(t) && AllShaped(sc, t)
    && (forall k :: k in t ==> IsProjection(t[k]) && IsSidecar(t[k]) && t[k].id in todo)
    && (forall q :: q in todo ==> IsTrustedSidecar(sc, q) && AtTarget(sc, t, q))
  }

  lemma EmptyHoldsNone(sc: Scanner)
    ensures HoldsExactly(sc, map[], {})
  {
  }

  lemma {:induction false} BuildTable(sc: Scanner, todo: set<string>) returns (t: VariantTable)
    requires SoundScanner(sc) && WellFormed(sc) && OneSidecarPerImage(sc) && AllTrusted(sc, todo)
    ensures HoldsExactly(sc, t, todo)
    decreases todo
  {
    if todo == {} {
      EmptyHoldsNone(sc);
      return map[];
    }
    var q :| q in todo;
    t := BuildTable(sc, todo - {q});
    AddSidecar(sc, t, todo, q);
    t := Upserted(t, NewVariantRecord(TargetVariant(sc, q)));
  }

  predicate AllTrusted(sc: Scanner, todo: set<string>) {
    forall q :: q in todo ==> IsTrustedSidecar(sc, q)
  }

  lemma AddSidecar(sc: Scanner, t: VariantTable, todo: set<string>, q: string)
    requires SoundScanner(sc) && WellFormed(sc) && OneSidecarPerImage(sc)
    requires q in todo && IsTrustedSidecar(sc, q) && HoldsExactly(sc, t, todo - {q})
    ensures HoldsExactly(sc, Upserted(t, NewVariantRecord(TargetVariant(sc, q))), todo)
  {
    var m := sc.sidecarOf(q).value;
    var v := TargetVariant(sc, q);
    var u := Upserted(t, NewVariantRecord(v));
    BuiltStage(m, sc.outside, sc.tree[q], TargetAsset(sc, m.assetPath));
    AddedTarget(sc, t, q, v);
    AddedRecords(sc, t, todo, q, v);
    StillAtTarget(sc, t, u, todo - {q});
  }

  lemma AddedTarget(sc: Scanner, t: VariantTable, q: string, v: Variant)
    requires SoundScanner(sc) && WellFormed(sc) && OneSidecarPerImage(sc)
    requires WellKeyed(t) && AllShaped(sc, t) && forall k :: k in t ==> IsProjection(t[k])
    requires IsTrustedSidecar(sc, q) && v == TargetVariant(sc, q) && StageKey(v) == SOURCE_SIDECAR_STAGE
    ensures var u := Upserted(t, NewVariantRecord(v));
            AllShaped(sc, u) && AtTarget(sc, u, q) && KeepsSettled(sc, t, u)
  {
    UpsertSettles(sc, t, q, v);
  }

  lemma AddedRecords(sc: Scanner, t: VariantTable, todo: set<string>, q: string, v: Variant)
    requires SoundScanner(sc) && WellFormed(sc) && IsTrustedSidecar(sc, q) && q in todo
    requires BareVariant(v) == BareVariant(TargetVariant(sc, q)) && StageKey(v) == SOURCE_SIDECAR_STAGE
    requires WellKeyed(t) && forall k :: k in t ==> IsProjection(t[k]) && IsSidecar(t[k]) && t[k].id in todo - {q}
    ensures var u := Upserted(t, NewVariantRecord(v));
            WellKeyed(u) && forall k :: k in u ==> IsProjection(u[k]) && IsSidecar(u[k]) && u[k].id in todo
  {
    TargetRecord(sc, q, v);
    RecordIsProjection(v);
    UpsertedIsWellKeyed(t, NewVariantRecord(v));
  }

  lemma StillAtTarget(sc: Scanner, t: VariantTable, u: VariantTable, done: set<string>)
    requires KeepsSettled(sc, t, u) && forall p :: p in done ==> IsTrustedSidecar(sc, p) && AtTarget(sc, t, p)
    ensures forall p :: p in done ==> AtTarget(sc, u, p)
  {
    forall p | p in done ensures AtTarget(sc, u, p) {
      assert SidecarSettled(sc, t, p);
      assert SidecarSettled(sc, u, p);
    }
  }

  /** A catalog synced to a source exists if and only if no image of it has two trusted sidecars. */
  lemma SyncableIff(sc: Scanner)
    requires SoundScanner(sc) && WellFormed(sc)
    ensures (exists s :: Consistent(s) && Synced(sc, s)) <==> OneSidecarPerImage(sc)
  {
    if s :| Consistent(s) && Synced(sc, s) {
      SyncedHasOneSidecarPerImage(sc, s);
    }
    if OneSidecarPerImage(sc) {
      var trusted := set q | q in sc.tree && IsTrustedSidecar(sc, q);
      var t := BuildTable(sc, trusted);
      var s := CatalogState(map p | p in sc.tree && IsAssetPath(sc, p) :: TargetAsset(sc, p), t);
      TableIsSynced(sc, s, trusted);
    }
  }

  lemma TableIsSynced(sc: Scanner, s: CatalogState, trusted: set<string>)
    requires SoundScanner(sc) && WellFormed(sc) && HoldsExactly(sc, s.variants, trusted)
    requires forall q :: IsTrustedSidecar(sc, q) ==> q in trusted
    requires s.assets == map p | p in sc.tree && IsAssetPath(sc, p) :: TargetAsset(sc, p)
    ensures Consistent(s) && Synced(sc, s)
  {
    forall p | p in s.assets ensures s.assets[p].path == p {
      assert PlainPath(sc, p);
    }
    forall k | k in s.variants ensures s.variants[k].assetPath in s.assets {
      assert Shaped(sc, s.variants[k]);
    }
    forall q ensures SidecarSettled(sc, s.variants, q) {
      if !IsTrustedSidecar(sc, q) {
        assert q !in trusted;
      }
    }
  }
}
