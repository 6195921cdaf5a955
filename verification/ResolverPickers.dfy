/** The resolver's loops over the live catalog, proved against the choices of Resolver
    (internal/resolver/resolver.go, resolver_variant.go, variant_picker.go,
    variant_selection.go, helpers.go). */
module ResolverPickers {
  import opened Basics
  import opened Accept
  import opened AcceptEncoding
  import opened CatalogRecords
  import opened Catalog
  import opened ImagePicker
  import opened PreparedEncoding
  import opened Resolver
  import ResolverMeaning
  import VariantIndex
  import Media
  import Paths
  import RequestPath

  // ---- What a slot look-up says about the choices -----------------------------------

  lemma EncodingSlot(t: VariantTable, asset: Asset, e: string, found: Option<VariantRecord>)
    requires WellKeyed(t) && (found.Some? ==> Live(t, found.value))
    requires forall r :: Live(t, r) && e != "" ==> (found == Some(r) <==> r.assetPath == asset.path && r.encoding == e)
    requires e == "" ==> found == None
    ensures e in EncodingsOf(t, asset) <==> found.Some? && IsUsableVariant(found.value.variant, asset.sourceHash)
    ensures e in EncodingsOf(t, asset) ==> EncodingsOf(t, asset)[e] == found.value.variant
  {
    var m := EncodingsOf(t, asset);
    if e in m {
      var k :| k in t && Serves(t[k], asset) && t[k].encoding != "" && t[k].encoding == e;
      assert Live(t, t[k]);
      assert m[t[k].encoding] == t[k].variant;
    }
    if found.Some? && IsUsableVariant(found.value.variant, asset.sourceHash) {
      var k := Key(found.value);
      assert k in t && Serves(t[k], asset) && t[k].encoding != "";
      assert m[t[k].encoding] == t[k].variant;
    }
  }

  lemma ZeroWidthSlot(t: VariantTable, asset: Asset, format: string, found: Option<VariantRecord>, r: Option<Variant>)
    requires WellKeyed(t) && (forall k :: k in t ==> IsProjection(t[k]))
    requires found.Some? ==> Live(t, found.value)
    requires forall x :: Live(t, x) && format != "" ==>
               (found == Some(x) <==> ImageSlotOf(x) == ImageSlot(asset.path, format, 0))
    requires format == "" ==> found == None
    requires r == if found.Some? && Matches(found.value.variant, format, asset) then Some(found.value.variant) else None
    ensures PickImage(MatchesOf(t, asset, format), 0) == r
  {
    var vs := MatchesOf(t, asset, format);
    MatchesHaveDistinctWidths(t, asset, format);
    forall v | v in vs && v.width == 0
      ensures r == Some(v)
    {
      var k :| k in t && t[k].assetPath == asset.path && t[k].imageFormat == format && format != ""
               && Matches(t[k].variant, format, asset) && t[k].variant == v;
      assert Live(t, t[k]);
    }
    if r.Some? {
      assert found.value == t[Key(found.value)];
      assert r.value in vs;
    }
    PickImageIs(vs, 0, r);
  }

  lemma PickIgnoresNegative(vs: set<Variant>, width: int)
    requires width <= 0 && DistinctWidths(vs)
    ensures PickImage(vs, width) == PickImage(vs, 0)
  {
    PickImageIs(vs, width, PickImage(vs, 0));
  }

  /** The matching variants among the first n records. */
  ghost function MatchingOf(records: seq<VariantRecord>, n: nat, format: string, asset: Asset): set<Variant>
    requires n <= |records|
  {
    set j | 0 <= j < n && Matches(records[j].variant, format, asset) :: records[j].variant
  }

  lemma MatchingStep(records: seq<VariantRecord>, n: nat, format: string, asset: Asset)
    requires n < |records|
    ensures MatchingOf(records, n + 1, format, asset)
         == MatchingOf(records, n, format, asset)
            + if Matches(records[n].variant, format, asset) then {records[n].variant} else {}
  {
  }

  lemma MatchingOfAll(t: VariantTable, asset: Asset, format: string, records: seq<VariantRecord>)
    requires WellKeyed(t) && VariantIndex.IsFreshSort(t, VariantIndex.OfImage(asset.path, format), records)
    ensures MatchingOf(records, |records|, format, asset) == MatchesOf(t, asset, format)
  {
    forall v | v in MatchesOf(t, asset, format)
      ensures v in MatchingOf(records, |records|, format, asset)
    {
      var k :| k in t && t[k].assetPath == asset.path && t[k].imageFormat == format && format != ""
               && Matches(t[k].variant, format, asset) && t[k].variant == v;
      assert t[k] in records by {
        assert VariantIndex.Shows(VariantIndex.OfImage(asset.path, format), t[k]);
        FreshHolds(t, VariantIndex.OfImage(asset.path, format), records, k);
      }
    }
    forall v | v in MatchingOf(records, |records|, format, asset)
      ensures v in MatchesOf(t, asset, format)
    {
      var j :| 0 <= j < |records| && Matches(records[j].variant, format, asset) && records[j].variant == v;
      assert records[j] in records;
      assert t[Key(records[j])] == records[j];
    }
  }

  lemma FreshHolds(t: VariantTable, v: VariantIndex.View, records: seq<VariantRecord>, k: string)
    requires VariantIndex.IsFreshSort(t, v, records)
    requires k in t && VariantIndex.Shows(v, t[k]) && Key(t[k]) == k
    ensures t[k] in records
  {
    assert Live(t, t[k]);
  }

  lemma ScanIsPick(
    t: VariantTable, asset: Asset, format: string, records: seq<VariantRecord>, width: int,
    above: Option<Variant>, below: Option<Variant>)
    requires WellKeyed(t) && (forall j :: j in t ==> IsProjection(t[j])) && width > 0
    requires VariantIndex.IsFreshSort(t, VariantIndex.OfImage(asset.path, format), records)
    requires Scanned(MatchingOf(records, |records|, format, asset), width, above, below)
    ensures PickImage(MatchesOf(t, asset, format), width) == if above.Some? then above else below
  {
    var vs := MatchesOf(t, asset, format);
    MatchingOfAll(t, asset, format, records);
    MatchesHaveDistinctWidths(t, asset, format);
    ScanPicksClosest(vs, width, above, below);
    PickImageIs(vs, width, if above.Some? then above else below);
  }

  // ---- The usability cache -----------------------------------------------------------

  function CacheKey(v: Variant): string {
    if v.id == "" then v.artifactPath else v.id
  }

  /** The asset's variants with one cache key are all usable or all not. */
  ghost predicate KeysTellUsability(t: VariantTable, asset: Asset) {
    forall j, k ::
      (j in t && k in t && t[j].assetPath == asset.path && t[k].assetPath == asset.path
       && CacheKey(t[j].variant) == CacheKey(t[k].variant)) ==>
        (IsUsableVariant(t[j].variant, asset.sourceHash) <==> IsUsableVariant(t[k].variant, asset.sourceHash))
  }

  /** Only an asset with a blank path can have variants without an ID, and so two with one key. */
  lemma IDsTellUsability(t: VariantTable, asset: Asset)
    requires WellKeyed(t) && (forall j :: j in t ==> IsProjection(t[j])) && !IsBlank(asset.path)
    ensures KeysTellUsability(t, asset)
  {
    forall j, k | j in t && k in t && t[j].assetPath == asset.path && t[k].assetPath == asset.path
                  && CacheKey(t[j].variant) == CacheKey(t[k].variant)
      ensures j == k
    {
      RecordsHaveIDs(t, j);
      RecordsHaveIDs(t, k);
      assert Key(t[j]) == Key(t[k]);
    }
  }

  /** One answer per variant of the asset; it never changes what a variant's answer is. */
  class UsabilityCache {
    var values: map<string, bool>

    ghost predicate Agrees(t: VariantTable, asset: Asset)
      reads this
    {
      forall k :: k in t && t[k].assetPath == asset.path && CacheKey(t[k].variant) in values ==>
        values[CacheKey(t[k].variant)] == IsUsableVariant(t[k].variant, asset.sourceHash)
    }

    constructor ()
      ensures values == map[]
    {
      values := map[];
    }

    method IsUsable(v: Variant, asset: Asset, ghost t: VariantTable, ghost k: string) returns (usable: bool)
      requires KeysTellUsability(t, asset)
      requires k in t && t[k].assetPath == asset.path && t[k].variant == v
      requires Agrees(t, asset)
      modifies this
      ensures Agrees(t, asset)
      ensures usable == IsUsableVariant(v, asset.sourceHash)
    {
      var key := CacheKey(v);
      if key in values {
        return values[key];
      }
      usable := IsUsableVariant(v, asset.sourceHash);
      values := values[key := usable];
      forall j | j in t && t[j].assetPath == asset.path && CacheKey(t[j].variant) in values
        ensures values[CacheKey(t[j].variant)] == IsUsableVariant(t[j].variant, asset.sourceHash)
      {
        assert CacheKey(t[j].variant) == key ==> CacheKey(t[j].variant) == CacheKey(t[k].variant);
      }
    }

    method MatchesVariant(v: Variant, format: string, asset: Asset, ghost t: VariantTable, ghost k: string)
      returns (matches: bool)
      requires KeysTellUsability(t, asset)
      requires k in t && t[k].assetPath == asset.path && t[k].variant == v
      requires Agrees(t, asset)
      modifies this
      ensures Agrees(t, asset)
      ensures matches == Matches(v, format, asset)
    {
      if v.width <= 0 && v.format == "" {
        return false;
      }
      var usable := IsUsable(v, asset, t, k);
      if !usable {
        return false;
      }
      matches := format == "" || VariantFormat(v, Media.ImageFormat(asset.mediaType)) == format;
    }
  }

  // ---- The resolver --------------------------------------------------------------------

  class AssetResolver {
    const cfg: AssetsConfig
    const catalog: IndexedCatalog
    const headers: Headers

    constructor (cfg: AssetsConfig, catalog: IndexedCatalog, headers: Headers)
      ensures this.cfg == cfg && this.catalog == catalog && this.headers == headers
    {
      this.cfg, this.catalog, this.headers := cfg, catalog, headers;
    }

    method PickVariant(asset: Asset, encodings: seq<string>) returns (picked: Option<Variant>)
      requires catalog.Valid()
      ensures picked == FirstAvailable(encodings, EncodingsOf(catalog.State().variants, asset))
    {
      ghost var available := EncodingsOf(catalog.State().variants, asset);
      for i := 0 to |encodings|
        invariant FirstAvailable(encodings[i..], available) == FirstAvailable(encodings, available)
      {
        assert encodings[i..][1..] == encodings[i + 1..];
        var found := catalog.variants.FindEncoding(asset.path, encodings[i]);
        EncodingSlot(catalog.State().variants, asset, encodings[i], found);
        if found.Some? && IsUsableVariant(found.value.variant, asset.sourceHash) {
          return Some(found.value.variant);
        }
      }
      picked := None;
    }

    /** The scan of one format's sorted list, skipping what does not match. */
    method FindClosestWidthImageVariant(
      records: seq<VariantRecord>, format: string, width: int, asset: Asset, cache: UsabilityCache, ghost t: VariantTable)
      returns (picked: Option<Variant>)
      requires WellKeyed(t) && (forall j :: j in t ==> IsProjection(t[j])) && KeysTellUsability(t, asset) && width > 0
      requires VariantIndex.IsFreshSort(t, VariantIndex.OfImage(asset.path, format), records)
      requires cache.Agrees(t, asset)
      modifies cache
      ensures cache.Agrees(t, asset)
      ensures picked == PickImage(MatchesOf(t, asset, format), width)
    {
      var above: Option<Variant>, below: Option<Variant> := None, None;
      for i := 0 to |records|
        invariant cache.Agrees(t, asset)
        invariant Scanned(MatchingOf(records, i, format, asset), width, above, below)
      {
        assert records[i] in records;
        MatchingStep(records, i, format, asset);
        ScanStep(MatchingOf(records, i, format, asset), width, above, below, records[i].variant);
        var matches := cache.MatchesVariant(records[i].variant, format, asset, t, Key(records[i]));
        if matches {
          var next := UpdateWidthMatches(records[i].variant, width, above, below);
          above, below := next.0, next.1;
        } else {
          assert MatchingOf(records, i + 1, format, asset) == MatchingOf(records, i, format, asset);
        }
      }
      picked := if above.Some? then above else below;
      ScanIsPick(t, asset, format, records, width, above, below);
    }

    method PickImageVariantForFormat(asset: Asset, format: string, width: int, cache: UsabilityCache)
      returns (picked: Option<Variant>)
      requires catalog.Valid() && KeysTellUsability(catalog.State().variants, asset)
      requires cache.Agrees(catalog.State().variants, asset)
      modifies cache, catalog.variants`sortedByImageFormat
      ensures catalog.Valid() && cache.Agrees(catalog.State().variants, asset)
      ensures picked == PickImage(MatchesOf(catalog.State().variants, asset, format), width)
    {
      ghost var t := catalog.State().variants;
      if width <= 0 {
        var found := catalog.variants.FindImage(asset.path, format, 0);
        picked := None;
        if found.Some? {
          var matches := cache.MatchesVariant(found.value.variant, format, asset, t, Key(found.value));
          if matches {
            picked := Some(found.value.variant);
          }
        }
        ZeroWidthSlot(t, asset, format, found, picked);
        MatchesHaveDistinctWidths(t, asset, format);
        PickIgnoresNegative(MatchesOf(t, asset, format), width);
        return;
      }
      var records := catalog.variants.ListByImageFormat(asset.path, format);
      picked := FindClosestWidthImageVariant(records, format, width, asset, cache, t);
    }

    method PickImageVariant(asset: Asset, width: int, preferred: seq<string>) returns (picked: Option<Variant>)
      requires catalog.Valid() && KeysTellUsability(catalog.State().variants, asset)
      modifies catalog.variants`sortedByImageFormat
      ensures catalog.Valid()
      ensures picked == FirstImage(catalog.State().variants, asset, OrSource(preferred, asset), width)
    {
      var formats := OrSource(preferred, asset);
      var cache := new UsabilityCache();
      ghost var t := catalog.State().variants;
      for i := 0 to |formats|
        invariant catalog.Valid() && catalog.State().variants == t && cache.Agrees(t, asset)
        invariant FirstImage(t, asset, formats[i..], width) == FirstImage(t, asset, formats, width)
      {
        assert formats[i..][1..] == formats[i + 1..];
        picked := PickImageVariantForFormat(asset, formats[i], width, cache);
        if picked.Some? {
          return;
        }
      }
      picked := None;
    }

    /** resolvePreferredVariant: an image variant first, then an encoding one. */
    method ResolvePreferredVariant(asset: Asset, request: Request) returns (variant: Option<Variant>)
      requires catalog.Valid() && KeysTellUsability(catalog.State().variants, asset)
      modifies catalog.variants`sortedByImageFormat
      ensures catalog.Valid()
      ensures variant == VariantChoice(catalog.State().variants, asset, request, headers)
    {
      var formats := RequestedFormats(asset, request, headers);
      if request.width > 0 || formats != [] {
        variant := PickImageVariant(asset, request.width, formats);
        if variant.Some? {
          return;
        }
      }
      if request.rangeRequested {
        return None;
      }
      var encodings := ParseAcceptEncoding(request.acceptEncoding, DEFAULT_ENCODINGS, headers.entry);
      variant := PickVariant(asset, encodings);
    }

    method Resolve(request: Request) returns (result: Option<Selection>)
      requires catalog.Valid()
      requires forall p :: p in catalog.assetsByPath ==> KeysTellUsability(catalog.State().variants, catalog.assetsByPath[p])
      modifies catalog.variants`sortedByImageFormat
      ensures catalog.Valid()
      ensures result == Resolution(catalog.State(), cfg, request, headers)
      ensures result.Some? ==>
                ResolverMeaning.AnswersRequest(catalog.State().variants, result.value.asset, request, headers, result.value.variant)
      ensures result.Some? && result.value.variant.Some? ==>
                ResolverMeaning.UpToDate(result.value.variant.value, result.value.asset)
    {
      var found := FindAsset(catalog.assetsByPath, cfg, RequestPath.Clean(request.path));
      if found == None {
        return None;
      }
      var (asset, fallbackUsed) := found.value;
      FoundIsAsset(catalog.assetsByPath, cfg, RequestPath.Clean(request.path));
      var variant := ResolvePreferredVariant(asset, request);
      AnswerIsRight(catalog.State(), asset, request, headers);
      result := Some(Selection(asset, variant, fallbackUsed));
    }
  }

  lemma AnswerIsRight(s: CatalogState, asset: Asset, request: Request, h: Headers)
    requires Consistent(s)
    ensures var answer := VariantChoice(s.variants, asset, request, h);
            && ResolverMeaning.AnswersRequest(s.variants, asset, request, h, answer)
            && (answer.Some? ==> ResolverMeaning.UpToDate(answer.value, asset))
  {
    ResolverMeaning.ChoiceAnswersRequest(s.variants, asset, request, h);
    ResolverMeaning.AnswerIsUpToDate(s.variants, asset, request, h, VariantChoice(s.variants, asset, request, h));
  }

  lemma FoundIsAsset(assets: map<string, Asset>, cfg: AssetsConfig, p: RequestPath.Cleaned)
    ensures FindAsset(assets, cfg, p).Some? ==> exists k :: k in assets && assets[k] == FindAsset(assets, cfg, p).value.0
  {
  }
}
