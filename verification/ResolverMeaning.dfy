/** What the resolver's choice of a variant means in terms of the catalog's records: which
    variants may be served at all, and which one is (internal/resolver/helpers.go,
    variant_picker.go, variant_selection.go). */
module ResolverMeaning {
  import opened Basics
  import opened Accept
  import opened AcceptEncoding
  import opened CatalogRecords
  import opened Catalog
  import opened ImagePicker
  import opened PreparedEncoding
  import opened Resolver
  import Media
  import Paths
  import RequestPath

  // ---- Which variants may be served ---------------------------------------------------

  predicate HasText(s: string) {
    exists i :: 0 <= i < |s| && !IsSpace(s[i])
  }

  lemma BlankIffNoText(s: string)
    ensures IsBlank(s) <==> !HasText(s)
  {
    if IsBlank(s) {
      BlankIsAllSpace(s);
    } else if !HasText(s) {
      BlankPartsAreBlank(s, ',');
    }
  }

  /** The artifact has a place, and was made from the asset's bytes as far as both hashes are known. */
  predicate UpToDate(v: Variant, asset: Asset) {
    HasText(v.artifactPath) && (asset.sourceHash == "" || v.sourceHash == "" || v.sourceHash == asset.sourceHash)
  }

  lemma UsableIffUpToDate(v: Variant, asset: Asset)
    ensures IsUsableVariant(v, asset.sourceHash) <==> UpToDate(v, asset)
  {
    BlankIffNoText(v.artifactPath);
  }

  /** The catalog has this variant for the asset. */
  ghost predicate IsVariantOf(t: VariantTable, asset: Asset, v: Variant) {
    exists k :: k in t && t[k].variant == v && v.assetPath == asset.path
  }

  // ---- Codings ---------------------------------------------------------------------------

  /** The variant can be served for a coding. */
  ghost predicate Offers(t: VariantTable, asset: Asset, coding: string, v: Variant) {
    IsVariantOf(t, asset, v) && v.encoding == coding && coding != "" && UpToDate(v, asset)
  }

  lemma EncodingsAreOffers(t: VariantTable, asset: Asset, coding: string, v: Variant)
    requires WellKeyed(t) && forall k :: k in t ==> IsProjection(t[k])
    ensures coding in EncodingsOf(t, asset) && EncodingsOf(t, asset)[coding] == v <==> Offers(t, asset, coding, v)
  {
    var m := EncodingsOf(t, asset);
    if coding in m {
      var k :| k in t && Serves(t[k], asset) && t[k].encoding != "" && t[k].encoding == coding;
      assert m[t[k].encoding] == t[k].variant;
      UsableIffUpToDate(t[k].variant, asset);
      assert IsVariantOf(t, asset, t[k].variant);
    }
    if Offers(t, asset, coding, v) {
      var k :| k in t && t[k].variant == v && v.assetPath == asset.path;
      UsableIffUpToDate(v, asset);
      assert Serves(t[k], asset) && t[k].encoding == coding;
      assert m[t[k].encoding] == t[k].variant;
    }
  }

  /** v is served for the first coding of the list that any variant can be served for. */
  ghost predicate IsFirstOffer(t: VariantTable, asset: Asset, codings: seq<string>, v: Variant) {
    exists i :: 0 <= i < |codings| && Offers(t, asset, codings[i], v)
      && forall j, w :: 0 <= j < i ==> !Offers(t, asset, codings[j], w)
  }

  lemma {:induction false} FirstAvailableIsFirstOffer(t: VariantTable, asset: Asset, codings: seq<string>, v: Variant)
    requires WellKeyed(t) && forall k :: k in t ==> IsProjection(t[k])
    ensures FirstAvailable(codings, EncodingsOf(t, asset)) == Some(v) <==> IsFirstOffer(t, asset, codings, v)
    decreases |codings|
  {
    var m := EncodingsOf(t, asset);
    if codings != [] {
      var rest := codings[1..];
      FirstAvailableIsFirstOffer(t, asset, rest, v);
      forall w ensures codings[0] in m && m[codings[0]] == w <==> Offers(t, asset, codings[0], w) {
        EncodingsAreOffers(t, asset, codings[0], w);
      }
      if codings[0] in m {
        assert Offers(t, asset, codings[0], m[codings[0]]);
      } else {
        LaterOffer(t, asset, codings, v);
      }
    }
  }

  lemma LaterOffer(t: VariantTable, asset: Asset, codings: seq<string>, v: Variant)
    requires codings != [] && forall w :: !Offers(t, asset, codings[0], w)
    ensures IsFirstOffer(t, asset, codings, v) <==> IsFirstOffer(t, asset, codings[1..], v)
  {
    var rest := codings[1..];
    if IsFirstOffer(t, asset, codings, v) {
      var i :| 0 <= i < |codings| && Offers(t, asset, codings[i], v)
        && forall j, w :: 0 <= j < i ==> !Offers(t, asset, codings[j], w);
      assert rest[i - 1] == codings[i];
      forall j, w | 0 <= j < i - 1 ensures !Offers(t, asset, rest[j], w) {
        assert rest[j] == codings[j + 1];
      }
    }
    if IsFirstOffer(t, asset, rest, v) {
      var i :| 0 <= i < |rest| && Offers(t, asset, rest[i], v)
        && forall j, w :: 0 <= j < i ==> !Offers(t, asset, rest[j], w);
      assert codings[i + 1] == rest[i];
      forall j, w | 0 <= j < i + 1 ensures !Offers(t, asset, codings[j], w) {
        if j > 0 {
          assert codings[j] == rest[j - 1];
        }
      }
    }
  }

  // ---- Images ------------------------------------------------------------------------------

  /** The variant can be served as an image of a format: it is filed under the format, is no
      mere encoding of the source, and has that format or else the source has. */
  ghost predicate Shows(t: VariantTable, asset: Asset, format: string, v: Variant) {
    && IsVariantOf(t, asset, v) && format != "" && UpToDate(v, asset)
    && (if v.format != "" then v.format else Media.ImageFormat(v.mediaType)) == format
    && (v.format != "" || v.width > 0)
    && (if HasText(v.format) then v.format == format
        else HasText(Media.ImageFormat(asset.mediaType)) && Media.ImageFormat(asset.mediaType) == format)
  }

  lemma MatchIffShows(t: VariantTable, asset: Asset, format: string, v: Variant)
    requires forall k :: k in t ==> IsProjection(t[k])
    ensures v in MatchesOf(t, asset, format) <==> Shows(t, asset, format, v)
  {
    UsableIffUpToDate(v, asset);
    BlankIffNoText(v.format);
    BlankIffNoText(Media.ImageFormat(asset.mediaType));
    if v in MatchesOf(t, asset, format) {
      var k :| k in t && t[k].assetPath == asset.path && t[k].imageFormat == format && Matches(t[k].variant, format, asset) && t[k].variant == v;
      assert IsVariantOf(t, asset, v);
    }
    if Shows(t, asset, format, v) {
      var k :| k in t && t[k].variant == v && v.assetPath == asset.path;
      assert t[k].imageFormat == format && t[k].assetPath == asset.path;
    }
  }

  /** Among the format's images, the one for the width: the narrowest at least as wide, else
      the widest; without a width, the one that was not resized. */
  ghost predicate Fits(t: VariantTable, asset: Asset, format: string, width: int, v: Variant) {
    && Shows(t, asset, format, v)
    && if width <= 0 then v.width == 0
       else forall w :: Shows(t, asset, format, w) ==>
         if v.width >= width then w.width < width || w.width >= v.width else w.width <= v.width
  }

  lemma PickIsFit(t: VariantTable, asset: Asset, format: string, width: int, v: Variant)
    requires WellKeyed(t) && forall k :: k in t ==> IsProjection(t[k])
    ensures PickImage(MatchesOf(t, asset, format), width) == Some(v) <==> Fits(t, asset, format, width, v)
  {
    var vs := MatchesOf(t, asset, format);
    forall w ensures w in vs <==> Shows(t, asset, format, w) {
      MatchIffShows(t, asset, format, w);
    }
    MatchesHaveDistinctWidths(t, asset, format);
    if Fits(t, asset, format, width, v) {
      PickImageIs(vs, width, Some(v));
    }
  }

  /** v is the image for the first format of the list that has one. */
  ghost predicate IsFirstFit(t: VariantTable, asset: Asset, formats: seq<string>, width: int, v: Variant) {
    exists i :: 0 <= i < |formats| && Fits(t, asset, formats[i], width, v)
      && forall j, w :: 0 <= j < i ==> !Fits(t, asset, formats[j], width, w)
  }

  lemma LaterFit(t: VariantTable, asset: Asset, formats: seq<string>, width: int, v: Variant)
    requires formats != [] && forall w :: !Fits(t, asset, formats[0], width, w)
    ensures IsFirstFit(t, asset, formats, width, v) <==> IsFirstFit(t, asset, formats[1..], width, v)
  {
    var rest := formats[1..];
    if IsFirstFit(t, asset, formats, width, v) {
      var i :| 0 <= i < |formats| && Fits(t, asset, formats[i], width, v)
        && forall j, w :: 0 <= j < i ==> !Fits(t, asset, formats[j], width, w);
      assert rest[i - 1] == formats[i];
      forall j, w | 0 <= j < i - 1 ensures !Fits(t, asset, rest[j], width, w) {
        assert rest[j] == formats[j + 1];
      }
    }
    if IsFirstFit(t, asset, rest, width, v) {
      var i :| 0 <= i < |rest| && Fits(t, asset, rest[i], width, v)
        && forall j, w :: 0 <= j < i ==> !Fits(t, asset, rest[j], width, w);
      assert formats[i + 1] == rest[i];
      forall j, w | 0 <= j < i + 1 ensures !Fits(t, asset, formats[j], width, w) {
        if j > 0 {
          assert formats[j] == rest[j - 1];
        }
      }
    }
  }

  lemma {:induction false} FirstImageIsFirstFit(t: VariantTable, asset: Asset, formats: seq<string>, width: int, v: Variant)
    requires WellKeyed(t) && forall k :: k in t ==> IsProjection(t[k])
    ensures FirstImage(t, asset, formats, width) == Some(v) <==> IsFirstFit(t, asset, formats, width, v)
    decreases |formats|
  {
    if formats != [] {
      FirstImageIsFirstFit(t, asset, formats[1..], width, v);
      var picked := PickImage(MatchesOf(t, asset, formats[0]), width);
      forall w ensures picked == Some(w) <==> Fits(t, asset, formats[0], width, w) {
        PickIsFit(t, asset, formats[0], width, w);
      }
      if picked == None {
        LaterFit(t, asset, formats, width, v);
      } else {
        assert Fits(t, asset, formats[0], width, picked.value);
      }
    }
  }

  // ---- The whole choice -----------------------------------------------------------------------

  /** The formats to try: the one asked for, else those the header prefers, and the source's
      own when a width alone is asked for. */
  function FormatsTried(asset: Asset, request: Request, h: Headers): seq<string> {
    var asked := Media.NormalizeImageFormat(request.format);
    if asked != "" then [asked]
    else
      var isImage := "image/" <= ToLower(TrimSpace(asset.mediaType));
      var preferred := if isImage then h.imageFormats(request.accept, Media.ImageFormat(asset.mediaType)) else [];
      if preferred != [] then preferred
      else if request.width > 0 then [Media.ImageFormat(asset.mediaType)]
      else []
  }

  /** The image the request gets. */
  ghost predicate GetsImage(t: VariantTable, asset: Asset, request: Request, h: Headers, v: Variant) {
    IsFirstFit(t, asset, FormatsTried(asset, request, h), request.width, v)
  }

  /** The encoding the request gets when it gets no image. */
  ghost predicate GetsEncoding(t: VariantTable, asset: Asset, request: Request, h: Headers, v: Variant) {
    && !request.rangeRequested
    && IsFirstOffer(t, asset, NegotiateHeader(request.acceptEncoding, ["br", "zstd", "gzip"], h.entry), v)
  }

  /** What a variant answer has to be, on the catalog's records alone. */
  ghost predicate AnswersRequest(t: VariantTable, asset: Asset, request: Request, h: Headers, answer: Option<Variant>) {
    && (forall v :: GetsImage(t, asset, request, h, v) ==> answer == Some(v))
    && ((forall v :: !GetsImage(t, asset, request, h, v)) ==>
          forall v :: answer == Some(v) <==> GetsEncoding(t, asset, request, h, v))
  }

  lemma ChoiceAnswersRequest(t: VariantTable, asset: Asset, request: Request, h: Headers)
    requires WellKeyed(t) && forall k :: k in t ==> IsProjection(t[k])
    ensures AnswersRequest(t, asset, request, h, VariantChoice(t, asset, request, h))
  {
    var image := ImageChoice(t, asset, request, h);
    var formats := FormatsTried(asset, request, h);
    forall v ensures image == Some(v) <==> GetsImage(t, asset, request, h, v) {
      FirstImageIsFirstFit(t, asset, formats, request.width, v);
    }
    if image == None && !request.rangeRequested {
      var codings := NegotiateHeader(request.acceptEncoding, DEFAULT_ENCODINGS, h.entry);
      forall v ensures EncodingChoice(t, asset, request, h) == Some(v) <==> GetsEncoding(t, asset, request, h, v) {
        FirstAvailableIsFirstOffer(t, asset, codings, v);
      }
    }
  }

  /** Only variants of the asset that are up to date are ever served. */
  lemma AnswerIsUpToDate(t: VariantTable, asset: Asset, request: Request, h: Headers, answer: Option<Variant>)
    requires AnswersRequest(t, asset, request, h, answer)
    ensures answer.Some? ==> IsVariantOf(t, asset, answer.value) && UpToDate(answer.value, asset)
  {
    if v :| GetsImage(t, asset, request, h, v) {
      var formats := FormatsTried(asset, request, h);
      var i :| 0 <= i < |formats| && Fits(t, asset, formats[i], request.width, v);
    } else if answer.Some? {
      assert GetsEncoding(t, asset, request, h, answer.value);
    }
  }

  // ---- The asset -----------------------------------------------------------------------------

  /** The paths an asset is looked for under, in this order. */
  function PathsTried(cfg: AssetsConfig, p: RequestPath.Cleaned): seq<string> {
    if p.value == "" then [cfg.entry]
    else [p.value] + if p.allowsEntryFallback then [Paths.JoinPath(p.value, cfg.entry)] else []
  }

  /** The asset is the one under the first of these paths that has one. */
  ghost predicate IsFirstFound(assets: map<string, Asset>, paths: seq<string>, asset: Asset) {
    exists i :: 0 <= i < |paths| && paths[i] in assets && assets[paths[i]] == asset && forall j :: 0 <= j < i ==> paths[j] !in assets
  }

  ghost predicate NoneFound(assets: map<string, Asset>, paths: seq<string>) {
    forall i :: 0 <= i < |paths| ==> paths[i] !in assets
  }

  /** The fallback target stands in when it is enabled, none of the paths has an asset and the
      path looks like a page. */
  ghost predicate FallsBack(assets: map<string, Asset>, cfg: AssetsConfig, p: RequestPath.Cleaned, asset: Asset) {
    var target := RequestPath.Clean(cfg.fallbackTarget).value;
    && NoneFound(assets, PathsTried(cfg, p))
    && cfg.fallbackOnNotFound && p.allowsEntryFallback && target != "" && target in assets && assets[target] == asset
  }

  lemma FindAssetIff(assets: map<string, Asset>, cfg: AssetsConfig, p: RequestPath.Cleaned, asset: Asset)
    ensures FindAsset(assets, cfg, p) == Some((asset, false)) <==> IsFirstFound(assets, PathsTried(cfg, p), asset)
    ensures FindAsset(assets, cfg, p) == Some((asset, true)) <==> FallsBack(assets, cfg, p, asset)
  {
    PrimaryIff(assets, cfg, p, asset);
  }

  lemma PrimaryIff(assets: map<string, Asset>, cfg: AssetsConfig, p: RequestPath.Cleaned, asset: Asset)
    ensures FindPrimaryAsset(assets, cfg, p) == Some(asset) <==> IsFirstFound(assets, PathsTried(cfg, p), asset)
    ensures FindPrimaryAsset(assets, cfg, p) == None <==> NoneFound(assets, PathsTried(cfg, p))
  {
    var below := Paths.JoinPath(p.value, cfg.entry);
    if p.value == "" {
      OnePath(assets, PathsTried(cfg, p), cfg.entry, asset);
    } else if p.allowsEntryFallback {
      assert [p.value] + [below] == [p.value, below];
      TwoPaths(assets, PathsTried(cfg, p), p.value, below, asset);
    } else {
      assert [p.value] + [] == [p.value];
      OnePath(assets, PathsTried(cfg, p), p.value, asset);
    }
  }

  lemma OnePath(assets: map<string, Asset>, paths: seq<string>, p: string, asset: Asset)
    requires paths == [p]
    ensures IsFirstFound(assets, paths, asset) <==> p in assets && assets[p] == asset
    ensures NoneFound(assets, paths) <==> p !in assets
  {
    assert paths[0] == p;
  }

  lemma TwoPaths(assets: map<string, Asset>, paths: seq<string>, p: string, q: string, asset: Asset)
    requires paths == [p, q]
    ensures IsFirstFound(assets, paths, asset) <==>
              if p in assets then assets[p] == asset else q in assets && assets[q] == asset
    ensures NoneFound(assets, paths) <==> p !in assets && q !in assets
  {
    assert paths[0] == p && paths[1] == q;
  }
}
