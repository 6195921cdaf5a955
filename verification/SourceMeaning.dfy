/** What a catalog synced to a source holds, in terms of the files' own fields
    (internal/sourcecatalog/asset_builder.go, sidecar_variants.go, scanner.go). */
module SourceMeaning {
  import opened Basics
  import opened CatalogRecords
  import opened Catalog
  import opened SidecarMatching
  import opened SourceSync
  import Paths

  // ---- Assets -------------------------------------------------------------------------------

  /** The asset says about the file what there is to say. */
  predicate TellsFile(a: Asset, file: File, o: Outside) {
    && a.path == file.path && a.fullPath == file.fullPath && a.size == file.size
    && a.mediaType == o.mediaType(file.fullPath, file.content)
    && a.sourceHash == o.hash(file.content) && a.etag == ['"'] + o.hash(file.content) + ['"']
  }

  /** In a synced catalog the assets are the regular files that are no sidecars, each as its
      file is now. */
  lemma SyncedAssets(sc: Scanner, s: CatalogState, p: string)
    requires Synced(sc, s)
    ensures p in s.assets <==> p in sc.tree && !sc.tree[p].isDir && sc.sidecarOf(p) == None
    ensures p in s.assets ==> TellsFile(s.assets[p], sc.tree[p], sc.outside)
  {
    assert AssetSettled(sc, s.assets, p);
    if p in s.assets {
      var a, b := s.assets[p], TargetAsset(sc, p);
      assert BareAsset(a) == BareAsset(b);
      assert a.path == BareAsset(a).path && a.fullPath == BareAsset(a).fullPath && a.size == BareAsset(a).size;
      assert a.mediaType == BareAsset(a).mediaType && a.sourceHash == BareAsset(a).sourceHash && a.etag == BareAsset(a).etag;
    }
  }

  // ---- Sidecars -----------------------------------------------------------------------------

  /** The file is a sidecar to be served: it has bytes, they are trusted to be its base's in
      that coding, and the base is there. */
  predicate IsServedSidecar(sc: Scanner, q: string) {
    && q in sc.tree && sc.sidecarOf(q).Some?
    && var m := sc.sidecarOf(q).value;
    && m.assetPath in sc.tree && sc.tree[q].size > 0
    && sc.outside.trusts(m.encoding, m.assetPath, sc.tree[q].content)
  }

  /** The variant says about the sidecar and its base what there is to say. */
  predicate TellsSidecar(v: Variant, file: File, m: Match, base: File, o: Outside) {
    && v.id == m.assetPath + m.suffix && v.assetPath == m.assetPath && v.artifactPath == file.fullPath
    && v.size == file.size && v.encoding == m.encoding && v.format == "" && v.width == 0
    && v.mediaType == o.mediaType(base.fullPath, base.content) && v.sourceHash == o.hash(base.content)
    && v.etag == ['"'] + o.hash(file.content) + ['"']
  }

  /** In a synced catalog the sidecar variants are the served sidecars, each as its file and
      its base are now. */
  lemma SyncedSidecars(sc: Scanner, s: CatalogState, q: string)
    requires SoundScanner(sc) && WellFormed(sc) && Consistent(s) && Synced(sc, s)
    ensures (exists k :: k in s.variants && HoldsSidecar(s.variants[k], q)) <==> IsServedSidecar(sc, q)
    ensures forall k :: k in s.variants && HoldsSidecar(s.variants[k], q) ==>
              IsServedSidecar(sc, q)
              && TellsSidecar(s.variants[k].variant, sc.tree[q], sc.sidecarOf(q).value, sc.tree[sc.sidecarOf(q).value.assetPath], sc.outside)
  {
    assert SidecarSettled(sc, s.variants, q);
    assert IsTrustedSidecar(sc, q) <==> IsServedSidecar(sc, q);
    if IsTrustedSidecar(sc, q) {
      SettledRecord(sc, s, q);
      assert HoldsSidecar(s.variants[KeyAt(sc, q)], q);
      SidecarFields(sc, s.variants[KeyAt(sc, q)].variant, q);
    } else {
      assert Absent(s.variants, q);
    }
  }

  lemma SidecarFields(sc: Scanner, v: Variant, q: string)
    requires IsTrustedSidecar(sc, q) && BareVariant(v) == BareVariant(TargetVariant(sc, q))
    ensures TellsSidecar(v, sc.tree[q], sc.sidecarOf(q).value, sc.tree[sc.sidecarOf(q).value.assetPath], sc.outside)
  {
    var b := BareVariant(v);
    assert v.id == b.id && v.assetPath == b.assetPath && v.artifactPath == b.artifactPath && v.size == b.size;
    assert v.encoding == b.encoding && v.format == b.format && v.width == b.width;
    assert v.mediaType == b.mediaType && v.sourceHash == b.sourceHash && v.etag == b.etag;
  }

  // ---- The normal form of source paths --------------------------------------------------------

  /** A clean relative path is what it is normalised to, with or without a slash before it and
      white space around it. */
  lemma NormalFormOf(raw: string, v: string)
    requires Paths.CleanRelative(v) && (TrimSpace(raw) == v || TrimSpace(raw) == "/" + v)
    ensures NormalizeSourcePath(raw) == v
  {
    Paths.CanonicalIsSettled(v);
    Paths.CleanKeepsCanonical(v);
  }

  /** The normal form of a path is its clean form without a leading slash. */
  lemma NormalFormIff(raw: string, v: string)
    requires TrimSpace(raw) != "" && v != "" && v[0] != '/'
    ensures NormalizeSourcePath(raw) == v <==> Paths.Clean(TrimSpace(raw)) == v || Paths.Clean(TrimSpace(raw)) == "/" + v
  {
    var clean := Paths.Clean(TrimSpace(raw));
    assert ("/" + v)[1..] == v;
    if "/" <= clean {
      assert clean == "/" + clean[1..];
    } else {
      assert clean != "/" + v by {
        assert "/" <= "/" + v;
      }
    }
  }
}
