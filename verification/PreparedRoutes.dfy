/** Prepared routes: the compiled form of one asset's variants, and selection on it
    (internal/server/prepared_model.go, prepared_compile.go, prepared_select.go).

    Response bodies, headers and resource hints are not part of this model: a response
    is the variant it serves. */
module PreparedRoutes {
  import opened Basics
  import opened Sorting
  import opened AcceptEncoding
  import opened CatalogRecords
  import opened ImagePicker
  import opened PreparedEncoding
  import opened Resolver
  import VariantIndex
  import Media

  // ---- The premise on variants -------------------------------------------------------

  /** Purely an encoding, or purely an image in a canonical format. */
  predicate Pure(v: Variant) {
    || (v.encoding != "" && v.format == "" && v.width == 0)
    || (v.encoding == "" && v.format in Media.SUPPORTED_IMAGE_FORMATS && v.width >= 0)
  }

  ghost predicate PureTable(t: VariantTable) {
    WellKeyed(t) && forall k :: k in t ==> IsProjection(t[k]) && Pure(t[k].variant)
  }

  lemma SupportedIsTrimmed(format: string)
    requires format in Media.SUPPORTED_IMAGE_FORMATS
    ensures TrimSpace(format) == format && format != ""
  {
    assert format[0] in ['j', 'p', 'w', 'a'] && format[|format| - 1] in ['g', 'p', 'f'];
    TrimmedIsFixed(format);
  }

  // ---- Compiling the variants of an asset ----------------------------------------------

  predicate IsPreparedVariantUsable(v: Variant, assetSourceHash: string) {
    !IsBlank(v.artifactPath) && (assetSourceHash == "" || v.sourceHash == "" || v.sourceHash == assetSourceHash)
  }

  function ResultMediaType(v: Variant, asset: Asset): string {
    if v.encoding != "" then asset.mediaType
    else if !IsBlank(v.mediaType) then v.mediaType
    else asset.mediaType
  }

  function VariantImageFormat(v: Variant, asset: Asset): string {
    if TrimSpace(v.format) != "" then TrimSpace(v.format) else Media.ImageFormat(ResultMediaType(v, asset))
  }

  /** The image format a variant is filed under, if it is. */
  type Filing = Variant -> Option<string>

  function ImageFiling(asset: Asset): Filing {
    (v: Variant) => if v.encoding != "" || VariantImageFormat(v, asset) == "" then None else Some(VariantImageFormat(v, asset))
  }

  /** The variants filed under a format, in order. */
  function ImagesIn(vs: seq<Variant>, filing: Filing, format: string): seq<Variant> {
    if vs == [] then []
    else
      ImagesIn(vs[..|vs| - 1], filing, format)
      + if filing(vs[|vs| - 1]) == Some(format) then [vs[|vs| - 1]] else []
  }

  lemma {:induction false} ImagesInMeaning(vs: seq<Variant>, filing: Filing, format: string)
    ensures forall v :: v in ImagesIn(vs, filing, format) <==> v in vs && filing(v) == Some(format)
    ensures Distinct(vs) ==> Distinct(ImagesIn(vs, filing, format))
    decreases |vs|
  {
    if vs != [] {
      var before := vs[..|vs| - 1];
      ImagesInMeaning(before, filing, format);
      assert vs == before + [vs[|vs| - 1]];
      if Distinct(vs) {
        assert vs[|vs| - 1] !in before;
      }
    }
  }

  predicate ServesEncoding(vs: seq<Variant>, e: string, v: Variant) {
    v in vs && e != "" && v.encoding == e
  }

  predicate ServesWidth(vs: seq<Variant>, filing: Filing, format: string, width: int, v: Variant) {
    v in vs && filing(v) == Some(format) && v.width == width
  }

  ghost predicate HoldsEncodings(vs: seq<Variant>, encodings: map<string, Variant>) {
    && (forall e :: e in encodings ==> ServesEncoding(vs, e, encodings[e]))
    && (forall v :: v in vs && v.encoding != "" ==> v.encoding in encodings)
  }

  ghost predicate HoldsImages(vs: seq<Variant>, filing: Filing, images: map<string, seq<Variant>>) {
    && (forall f :: f in images ==> images[f] == ImagesIn(vs, filing, f) && images[f] != [])
    && (forall f :: ImagesIn(vs, filing, f) != [] ==> f in images)
  }

  ghost predicate HoldsWidths(vs: seq<Variant>, filing: Filing, widths: map<(string, int), Variant>) {
    && (forall f, w :: (f, w) in widths ==> ServesWidth(vs, filing, f, w, widths[(f, w)]))
    && (forall v :: v in vs && filing(v).Some? ==> (filing(v).value, v.width) in widths)
  }

  lemma EncodingsGrow(vs: seq<Variant>, encodings: map<string, Variant>, v: Variant)
    requires HoldsEncodings(vs, encodings)
    ensures HoldsEncodings(vs + [v], if v.encoding != "" then encodings[v.encoding := v] else encodings)
  {
  }

  lemma ImagesInStep(vs: seq<Variant>, filing: Filing, v: Variant, f: string)
    ensures ImagesIn(vs + [v], filing, f) == ImagesIn(vs, filing, f) + if filing(v) == Some(f) then [v] else []
  {
    assert (vs + [v])[..|vs|] == vs;
  }

  function Responses(images: map<string, seq<Variant>>, format: string): seq<Variant> {
    if format in images then images[format] else []
  }

  lemma ImagesGrow(vs: seq<Variant>, filing: Filing, images: map<string, seq<Variant>>, v: Variant)
    requires HoldsImages(vs, filing, images)
    ensures HoldsImages(vs + [v], filing,
                        if filing(v).Some? then images[filing(v).value := Responses(images, filing(v).value) + [v]] else images)
  {
    forall f
      ensures ImagesIn(vs + [v], filing, f) == ImagesIn(vs, filing, f) + if filing(v) == Some(f) then [v] else []
    {
      ImagesInStep(vs, filing, v, f);
    }
  }

  lemma WidthsGrow(vs: seq<Variant>, filing: Filing, widths: map<(string, int), Variant>, v: Variant)
    requires HoldsWidths(vs, filing, widths)
    ensures HoldsWidths(vs + [v], filing, if filing(v).Some? then widths[(filing(v).value, v.width) := v] else widths)
  {
  }

  class PreparedRoute {
    const asset: Asset
    const filing: Filing
    var encodings: map<string, Variant>
    var images: map<string, seq<Variant>>
    var imagePicks: map<string, Picker>
    var imageWidths: map<(string, int), Variant>

    /** The maps hold the variants vs. */
    ghost predicate Holds(vs: seq<Variant>)
      reads this
    {
      HoldsEncodings(vs, encodings) && HoldsImages(vs, filing, images) && HoldsWidths(vs, filing, imageWidths)
    }

    constructor (asset: Asset)
      ensures this.asset == asset && filing == ImageFiling(asset) && Holds([]) && imagePicks == map[]
    {
      this.asset, this.filing := asset, ImageFiling(asset);
      encodings, images, imagePicks, imageWidths := map[], map[], map[], map[];
    }

    method AddVariant(v: Variant, ghost vs: seq<Variant>)
      requires Holds(vs) && (v.encoding != "" ==> filing(v) == None)
      modifies this`encodings, this`images, this`imageWidths
      ensures Holds(vs + [v])
    {
      EncodingsGrow(vs, encodings, v);
      ImagesGrow(vs, filing, images, v);
      WidthsGrow(vs, filing, imageWidths, v);
      if v.encoding != "" {
        encodings := encodings[v.encoding := v];
        return;
      }
      var format := filing(v);
      if format == None {
        return;
      }
      imageWidths := imageWidths[(format.value, v.width) := v];
      images := images[format.value := Responses(images, format.value) + [v]];
    }

    method Finalize()
      modifies this`images, this`imagePicks
      ensures images.Keys == old(images).Keys
      ensures forall f :: f in images ==> images[f] == SortBy(old(images)[f], ImageLeq)
      ensures forall f :: f in images && NewImagePicker(images[f]).Some? ==>
                f in imagePicks && imagePicks[f] == NewImagePicker(images[f]).value
    {
      var pending := images.Keys;
      while pending != {}
        invariant images.Keys == old(images).Keys && pending <= images.Keys
        invariant forall f :: f in pending ==> images[f] == old(images)[f]
        invariant forall f :: f in images && f !in pending ==> images[f] == SortBy(old(images)[f], ImageLeq)
        invariant forall f :: f in images && f !in pending && NewImagePicker(images[f]).Some? ==>
                    f in imagePicks && imagePicks[f] == NewImagePicker(images[f]).value
        decreases pending
      {
        var f :| f in pending;
        var sorted := SortBy(images[f], ImageLeq);
        images := images[f := sorted];
        var picker := NewImagePicker(sorted);
        if picker.Some? {
          imagePicks := imagePicks[f := picker.value];
        }
        pending := pending - {f};
      }
    }
  }

  // ---- What a compiled route is, in terms of the catalog ----------------------------------

  datatype Route = Route(
    asset: Asset, encodings: map<string, Variant>, images: map<string, seq<Variant>>,
    picks: map<string, Picker>, widths: map<(string, int), Variant>)

  ghost predicate PicksFor(vs: set<Variant>, p: Picker) {
    && |p.widths| == |p.responses|
    && (forall width :: width > 0 ==> PickClosest(p, width) == PickImage(vs, width))
  }

  ghost predicate ImagesFor(t: VariantTable, asset: Asset, images: map<string, seq<Variant>>) {
    && (forall f :: f in images <==> MatchesOf(t, asset, f) != {})
    && (forall f :: f in images ==> Elements(images[f]) == MatchesOf(t, asset, f))
  }

  ghost predicate WidthsFor(t: VariantTable, asset: Asset, widths: map<(string, int), Variant>) {
    && (forall f, w :: (f, w) in widths ==> widths[(f, w)] in MatchesOf(t, asset, f) && widths[(f, w)].width == w)
    && (forall f, v :: v in MatchesOf(t, asset, f) ==> (f, v.width) in widths)
  }

  /** The route answers for the asset as the catalog does. */
  ghost predicate RouteFor(t: VariantTable, asset: Asset, route: Route)
    requires WellKeyed(t)
  {
    && route.asset == asset
    && route.encodings == EncodingsOf(t, asset)
    && ImagesFor(t, asset, route.images)
    && WidthsFor(t, asset, route.widths)
    && (forall f :: f in route.images ==> f in route.picks && PicksFor(MatchesOf(t, asset, f), route.picks[f]))
  }

  /** vs lists the usable variants of the asset once each. */
  ghost predicate UsableOf(t: VariantTable, asset: Asset, vs: seq<Variant>) {
    && Distinct(vs)
    && (forall v :: v in vs <==> exists k :: k in t && Serves(t[k], asset) && t[k].variant == v)
  }

  lemma FilingIsFormat(v: Variant, asset: Asset, f: string)
    requires Pure(v)
    ensures ImageFiling(asset)(v) == Some(f) <==> v.encoding == "" && v.format == f
  {
    if v.encoding == "" {
      SupportedIsTrimmed(v.format);
    }
  }

  lemma PureMatches(v: Variant, asset: Asset, f: string)
    requires Pure(v) && IsUsableVariant(v, asset.sourceHash) && f != ""
    ensures Matches(v, f, asset) && ImageFormatKey(v) == f <==> v.encoding == "" && v.format == f
  {
    if v.encoding == "" {
      SupportedIsTrimmed(v.format);
    }
  }

  lemma FiledAreMatches(t: VariantTable, asset: Asset, vs: seq<Variant>, f: string)
    requires PureTable(t) && UsableOf(t, asset, vs)
    ensures Elements(ImagesIn(vs, ImageFiling(asset), f)) == MatchesOf(t, asset, f)
  {
    var filed := ImagesIn(vs, ImageFiling(asset), f);
    ImagesInMeaning(vs, ImageFiling(asset), f);
    forall v
      ensures v in Elements(filed) <==> v in MatchesOf(t, asset, f)
    {
      if v in filed {
        var k :| k in t && Serves(t[k], asset) && t[k].variant == v;
        FilingIsFormat(v, asset, f);
        SupportedIsTrimmed(v.format);
        PureMatches(v, asset, f);
      }
      if v in MatchesOf(t, asset, f) {
        var k :| k in t && t[k].assetPath == asset.path && t[k].imageFormat == f && f != ""
                 && Matches(t[k].variant, f, asset) && t[k].variant == v;
        assert Serves(t[k], asset);
        PureMatches(v, asset, f);
        FilingIsFormat(v, asset, f);
      }
    }
  }

  lemma FiledIsUniform(t: VariantTable, asset: Asset, vs: seq<Variant>, f: string)
    requires PureTable(t) && UsableOf(t, asset, vs)
    ensures UniformList(ImagesIn(vs, ImageFiling(asset), f))
  {
    var filed := ImagesIn(vs, ImageFiling(asset), f);
    ImagesInMeaning(vs, ImageFiling(asset), f);
    FiledAreMatches(t, asset, vs, f);
    MatchesHaveDistinctWidths(t, asset, f);
    forall v | v in filed
      ensures v.format == f && v.width >= 0
    {
      var k :| k in t && Serves(t[k], asset) && t[k].variant == v;
      FilingIsFormat(v, asset, f);
    }
  }

  lemma UniformPicker(vs: seq<Variant>)
    requires UniformList(vs) && vs != []
    ensures var p := NewImagePicker(SortBy(vs, ImageLeq)); p.Some? && PicksFor(Elements(vs), p.value)
    ensures Elements(SortBy(vs, ImageLeq)) == Elements(vs)
  {
    PickerOfUniform(vs);
    var p := NewImagePicker(SortBy(vs, ImageLeq));
    assert vs[0] in Elements(vs);
    forall width | width > 0
      ensures PickClosest(p.value, width) == PickImage(Elements(vs), width)
    {
      ClosestExists(Elements(vs), width);
      PickerIsLinearScan(vs, width, PickImage(Elements(vs), width).value);
    }
  }

  lemma EncodingServed(t: VariantTable, asset: Asset, k: string)
    requires WellKeyed(t) && k in t && Serves(t[k], asset) && t[k].encoding != ""
    ensures t[k].encoding in EncodingsOf(t, asset) && EncodingsOf(t, asset)[t[k].encoding] == t[k].variant
  {
  }

  lemma ServedEncoding(t: VariantTable, asset: Asset, e: string)
    requires WellKeyed(t) && e in EncodingsOf(t, asset)
    ensures exists k :: k in t && Serves(t[k], asset) && t[k].encoding != "" && t[k].encoding == e
  {
  }

  lemma HeldEncodingIsChoice(t: VariantTable, asset: Asset, vs: seq<Variant>, encodings: map<string, Variant>, e: string)
    requires PureTable(t) && UsableOf(t, asset, vs) && HoldsEncodings(vs, encodings) && e in encodings
    ensures e in EncodingsOf(t, asset) && EncodingsOf(t, asset)[e] == encodings[e]
  {
    assert ServesEncoding(vs, e, encodings[e]);
    var k :| k in t && Serves(t[k], asset) && t[k].variant == encodings[e];
    EncodingServed(t, asset, k);
  }

  lemma ChoiceIsHeldEncoding(t: VariantTable, asset: Asset, vs: seq<Variant>, encodings: map<string, Variant>, e: string)
    requires PureTable(t) && UsableOf(t, asset, vs) && HoldsEncodings(vs, encodings) && e in EncodingsOf(t, asset)
    ensures e in encodings
  {
    ServedEncoding(t, asset, e);
    var k :| k in t && Serves(t[k], asset) && t[k].encoding != "" && t[k].encoding == e;
    assert t[k].variant in vs;
  }

  lemma EncodingsAreChoices(t: VariantTable, asset: Asset, vs: seq<Variant>, encodings: map<string, Variant>)
    requires PureTable(t) && UsableOf(t, asset, vs) && HoldsEncodings(vs, encodings)
    ensures encodings == EncodingsOf(t, asset)
  {
    var m := EncodingsOf(t, asset);
    forall e | e in encodings
      ensures e in m && m[e] == encodings[e]
    {
      HeldEncodingIsChoice(t, asset, vs, encodings, e);
    }
    forall e | e in m
      ensures e in encodings
    {
      ChoiceIsHeldEncoding(t, asset, vs, encodings, e);
    }
  }

  lemma WidthsAreMatches(t: VariantTable, asset: Asset, vs: seq<Variant>, widths: map<(string, int), Variant>)
    requires PureTable(t) && UsableOf(t, asset, vs) && HoldsWidths(vs, ImageFiling(asset), widths)
    ensures WidthsFor(t, asset, widths)
  {
    forall f, w | (f, w) in widths
      ensures widths[(f, w)] in MatchesOf(t, asset, f) && widths[(f, w)].width == w
    {
      FiledAreMatches(t, asset, vs, f);
      ImagesInMeaning(vs, ImageFiling(asset), f);
      assert ServesWidth(vs, ImageFiling(asset), f, w, widths[(f, w)]);
      assert widths[(f, w)] in Elements(ImagesIn(vs, ImageFiling(asset), f));
    }
    forall f, v | v in MatchesOf(t, asset, f)
      ensures (f, v.width) in widths
    {
      FiledAreMatches(t, asset, vs, f);
      ImagesInMeaning(vs, ImageFiling(asset), f);
      assert v in Elements(ImagesIn(vs, ImageFiling(asset), f));
    }
  }

  lemma FinalizedIsRoute(
    t: VariantTable, vs: seq<Variant>, route: Route, filed: map<string, seq<Variant>>)
    requires PureTable(t) && UsableOf(t, route.asset, vs)
    requires HoldsEncodings(vs, route.encodings)
    requires HoldsImages(vs, ImageFiling(route.asset), filed)
    requires HoldsWidths(vs, ImageFiling(route.asset), route.widths)
    requires route.images.Keys == filed.Keys
    requires forall f :: f in filed ==> route.images[f] == SortBy(filed[f], ImageLeq)
    requires forall f :: f in filed && NewImagePicker(route.images[f]).Some? ==>
               f in route.picks && route.picks[f] == NewImagePicker(route.images[f]).value
    ensures RouteFor(t, route.asset, route)
  {
    var asset := route.asset;
    EncodingsAreChoices(t, asset, vs, route.encodings);
    WidthsAreMatches(t, asset, vs, route.widths);
    forall f
      ensures f in route.images <==> MatchesOf(t, asset, f) != {}
      ensures f in route.images ==> Elements(route.images[f]) == MatchesOf(t, asset, f)
      ensures f in route.images ==> f in route.picks && PicksFor(MatchesOf(t, asset, f), route.picks[f])
    {
      FormatIsServed(t, asset, vs, f);
    }
  }

  /** One format of a built route. */
  lemma FormatIsServed(t: VariantTable, asset: Asset, vs: seq<Variant>, f: string)
    requires PureTable(t) && UsableOf(t, asset, vs)
    ensures var list := ImagesIn(vs, ImageFiling(asset), f);
            var sorted := SortBy(list, ImageLeq);
            && (list != [] <==> MatchesOf(t, asset, f) != {})
            && (list != [] ==>
                  && Elements(sorted) == MatchesOf(t, asset, f)
                  && NewImagePicker(sorted).Some? && PicksFor(MatchesOf(t, asset, f), NewImagePicker(sorted).value))
  {
    FiledAreMatches(t, asset, vs, f);
    var list := ImagesIn(vs, ImageFiling(asset), f);
    if list != [] {
      assert list[0] in Elements(list);
      FiledIsUniform(t, asset, vs, f);
      UniformPicker(list);
    }
  }

  lemma UsableRecords(t: VariantTable, asset: Asset, records: seq<VariantRecord>)
    requires PureTable(t) && VariantIndex.IsFreshSort(t, VariantIndex.OfAsset(asset.path), records)
    ensures UsableOf(t, asset, UsableVariants(records, asset))
  {
    UsableVariantsMeaning(records, asset);
    var vs := UsableVariants(records, asset);
    forall v
      ensures v in vs <==> exists k :: k in t && Serves(t[k], asset) && t[k].variant == v
    {
      if v in vs {
        var r :| r in records && IsPreparedVariantUsable(r.variant, asset.sourceHash) && r.variant == v;
        assert Serves(t[Key(r)], asset);
      }
      if k :| k in t && Serves(t[k], asset) && t[k].variant == v {
        assert Live(t, t[k]);
        assert VariantIndex.Shows(VariantIndex.OfAsset(asset.path), t[k]);
        assert t[k] in records;
      }
    }
    forall r | r in records ensures IsProjection(r) {
      assert r == t[Key(r)];
    }
    UsableVariantsDistinct(records, asset);
  }

  function UsableVariants(records: seq<VariantRecord>, asset: Asset): seq<Variant> {
    if records == [] then []
    else
      UsableVariants(records[..|records| - 1], asset)
      + if IsPreparedVariantUsable(records[|records| - 1].variant, asset.sourceHash)
        then [records[|records| - 1].variant] else []
  }

  lemma {:induction false} UsableVariantsMeaning(records: seq<VariantRecord>, asset: Asset)
    ensures forall v :: v in UsableVariants(records, asset) <==>
              exists r :: r in records && IsPreparedVariantUsable(r.variant, asset.sourceHash) && r.variant == v
    decreases |records|
  {
    if records != [] {
      UsableVariantsMeaning(records[..|records| - 1], asset);
      assert records == records[..|records| - 1] + [records[|records| - 1]];
    }
  }

  lemma {:induction false} UsableVariantsDistinct(records: seq<VariantRecord>, asset: Asset)
    requires Distinct(records) && forall r :: r in records ==> IsProjection(r)
    ensures Distinct(UsableVariants(records, asset))
    decreases |records|
  {
    if records != [] {
      var before, last := records[..|records| - 1], records[|records| - 1];
      assert records == before + [last];
      UsableVariantsDistinct(before, asset);
      UsableVariantsMeaning(before, asset);
      assert last !in before;
      forall r | r in before
        ensures r.variant != last.variant
      {
        assert r in records && last in records;
      }
      assert last.variant !in UsableVariants(before, asset);
    }
  }

  lemma UsableVariantsStep(records: seq<VariantRecord>, asset: Asset, i: nat)
    requires i < |records|
    ensures UsableVariants(records[..i + 1], asset)
         == UsableVariants(records[..i], asset)
            + if IsPreparedVariantUsable(records[i].variant, asset.sourceHash) then [records[i].variant] else []
  {
    assert records[..i + 1][..i] == records[..i];
  }

  lemma EncodingsAreNotFiled(v: Variant, asset: Asset)
    ensures v.encoding != "" ==> ImageFiling(asset)(v) == None
  {
  }

  method AddUsable(building: PreparedRoute, record: VariantRecord, ghost vs: seq<Variant>)
    requires building.Holds(vs) && building.filing == ImageFiling(building.asset)
    modifies building`encodings, building`images, building`imageWidths
    ensures building.Holds(vs + if IsPreparedVariantUsable(record.variant, building.asset.sourceHash)
                                then [record.variant] else [])
  {
    EncodingsAreNotFiled(record.variant, building.asset);
    if IsPreparedVariantUsable(record.variant, building.asset.sourceHash) {
      building.AddVariant(record.variant, vs);
    } else {
      assert vs + [] == vs;
    }
  }

  method BuildRoute(asset: Asset, records: seq<VariantRecord>) returns (building: PreparedRoute)
    ensures fresh(building) && building.asset == asset && building.filing == ImageFiling(asset)
    ensures building.Holds(UsableVariants(records, asset))
  {
    building := new PreparedRoute(asset);
    for i := 0 to |records|
      invariant building.Holds(UsableVariants(records[..i], asset))
    {
      UsableVariantsStep(records, asset, i);
      AddUsable(building, records[i], UsableVariants(records[..i], asset));
    }
    assert records[..|records|] == records;
  }

  method CompileRoute(asset: Asset, records: seq<VariantRecord>, ghost t: VariantTable) returns (route: Route)
    requires PureTable(t) && VariantIndex.IsFreshSort(t, VariantIndex.OfAsset(asset.path), records)
    ensures RouteFor(t, asset, route)
  {
    var building := BuildRoute(asset, records);
    UsableRecords(t, asset, records);
    ghost var filed := building.images;
    building.Finalize();
    route := Route(asset, building.encodings, building.images, building.imagePicks, building.imageWidths);
    FinalizedIsRoute(t, UsableVariants(records, asset), route, filed);
  }
}
