/** The dynamic resolver, the reference semantics of asset requests
    (internal/resolver/resolver.go, resolver_variant.go, variant_picker.go,
    variant_selection.go, helpers.go).

    Metrics, contexts and read errors are not part of this model. */
module Resolver {
  import opened Basics
  import opened Accept
  import opened AcceptEncoding
  import opened CatalogRecords
  import opened Catalog
  import opened ImagePicker
  import opened PreparedEncoding
  import VariantIndex
  import Media
  import Paths
  import RequestPath

  datatype Request = Request(
    path: string, accept: string, acceptEncoding: string, width: int, format: string, rangeRequested: bool)

  datatype AssetsConfig = AssetsConfig(entry: string, fallbackOnNotFound: bool, fallbackTarget: string)

  /** The header parsers: Accept to image formats, for a source format, and the
      entries of Accept-Encoding. */
  datatype Headers = Headers(imageFormats: (string, string) -> seq<string>, entry: EntryParser)

  datatype Selection = Selection(asset: Asset, variant: Option<Variant>, fallbackUsed: bool) {
    function FilePath(): string {
      if variant.Some? then variant.value.artifactPath else asset.fullPath
    }
  }

  // ---- Which asset ---------------------------------------------------------------

  function Lookup(assets: map<string, Asset>, path: string): Option<Asset> {
    if path in assets then Some(assets[path]) else None
  }

  function FindPrimaryAsset(assets: map<string, Asset>, cfg: AssetsConfig, p: RequestPath.Cleaned): Option<Asset> {
    if p.value == "" then Lookup(assets, cfg.entry)
    else if p.value in assets then Some(assets[p.value])
    else if !p.allowsEntryFallback then None
    else
      var candidate := Paths.JoinPath(p.value, cfg.entry);
      if candidate == p.value then None else Lookup(assets, candidate)
  }

  /** The asset for a cleaned path, and whether it is the fallback target. */
  function FindAsset(assets: map<string, Asset>, cfg: AssetsConfig, p: RequestPath.Cleaned): Option<(Asset, bool)> {
    match FindPrimaryAsset(assets, cfg, p)
    case Some(asset) => Some((asset, false))
    case None =>
      var target := RequestPath.Clean(cfg.fallbackTarget).value;
      if cfg.fallbackOnNotFound && p.allowsEntryFallback && target != "" && target in assets
      then Some((assets[target], true))
      else None
  }

  // ---- Which variant -------------------------------------------------------------

  predicate IsUsableVariant(v: Variant, assetSourceHash: string) {
    !IsBlank(v.artifactPath) && !(assetSourceHash != "" && v.sourceHash != "" && v.sourceHash != assetSourceHash)
  }

  function FirstNonBlank(a: string, b: string): string {
    if !IsBlank(a) then a else if !IsBlank(b) then b else ""
  }

  function VariantFormat(v: Variant, sourceFormat: string): string {
    FirstNonBlank(v.format, sourceFormat)
  }

  function PreferredImageFormats(accept: string, explicitFormat: string, mediaType: string, h: Headers): seq<string> {
    if explicitFormat != "" then [explicitFormat]
    else if !Media.IsImageMediaType(mediaType) then []
    else h.imageFormats(accept, Media.ImageFormat(mediaType))
  }

  ghost predicate Serves(r: VariantRecord, asset: Asset) {
    r.assetPath == asset.path && IsUsableVariant(r.variant, asset.sourceHash)
  }

  /** The usable encoding variants of an asset, by coding. */
  ghost function EncodingsOf(t: VariantTable, asset: Asset): map<string, Variant>
    requires WellKeyed(t)
  {
    map k | k in t && Serves(t[k], asset) && t[k].encoding != "" :: t[k].encoding := t[k].variant
  }

  predicate Matches(v: Variant, format: string, asset: Asset) {
    && !(v.width <= 0 && v.format == "")
    && IsUsableVariant(v, asset.sourceHash)
    && (format == "" || VariantFormat(v, Media.ImageFormat(asset.mediaType)) == format)
  }

  /** The variants of an asset that match an image format. */
  ghost function MatchesOf(t: VariantTable, asset: Asset, format: string): set<Variant> {
    set k | k in t && t[k].assetPath == asset.path && t[k].imageFormat == format && format != ""
            && Matches(t[k].variant, format, asset) :: t[k].variant
  }

  /** The variant to serve among those of one format, for the width asked for. */
  ghost function PickImage(vs: set<Variant>, width: int): Option<Variant> {
    if width <= 0 then
      if exists v :: v in vs && v.width == 0 then
        var v :| v in vs && v.width == 0;
        Some(v)
      else None
    else if vs == {} then None
    else
      ClosestExists(vs, width);
      var v :| Closest(vs, width, v);
      Some(v)
  }

  lemma PickImageIs(vs: set<Variant>, width: int, r: Option<Variant>)
    requires DistinctWidths(vs)
    requires r.Some? ==> r.value in vs && if width <= 0 then r.value.width == 0 else Closest(vs, width, r.value)
    requires r == None ==> if width <= 0 then forall v :: v in vs ==> v.width != 0 else vs == {}
    ensures PickImage(vs, width) == r
  {
    if r.Some? && width > 0 {
      var picked := PickImage(vs, width);
      ClosestIsUnique(vs, width, picked.value, r.value);
    }
  }

  /** The first format that has a variant decides. */
  ghost function FirstImage(t: VariantTable, asset: Asset, formats: seq<string>, width: int): Option<Variant> {
    if formats == [] then None
    else
      var picked := PickImage(MatchesOf(t, asset, formats[0]), width);
      if picked.Some? then picked else FirstImage(t, asset, formats[1..], width)
  }

  function OrSource(formats: seq<string>, asset: Asset): seq<string> {
    if formats == [] then [Media.ImageFormat(asset.mediaType)] else formats
  }

  ghost function ChoiceAmong(t: VariantTable, asset: Asset, formats: seq<string>, width: int): Option<Variant> {
    if width > 0 || formats != [] then FirstImage(t, asset, OrSource(formats, asset), width) else None
  }

  function RequestedFormats(asset: Asset, request: Request, h: Headers): seq<string> {
    PreferredImageFormats(request.accept, Media.NormalizeImageFormat(request.format), asset.mediaType, h)
  }

  ghost function ImageChoice(t: VariantTable, asset: Asset, request: Request, h: Headers): Option<Variant> {
    ChoiceAmong(t, asset, RequestedFormats(asset, request, h), request.width)
  }

  ghost function EncodingChoice(t: VariantTable, asset: Asset, request: Request, h: Headers): Option<Variant>
    requires WellKeyed(t)
  {
    if request.rangeRequested then None
    else FirstAvailable(NegotiateHeader(request.acceptEncoding, DEFAULT_ENCODINGS, h.entry), EncodingsOf(t, asset))
  }

  /** An image variant first, then an encoding one, then the asset itself. */
  ghost function VariantChoice(t: VariantTable, asset: Asset, request: Request, h: Headers): Option<Variant>
    requires WellKeyed(t)
  {
    var image := ImageChoice(t, asset, request, h);
    if image.Some? then image else EncodingChoice(t, asset, request, h)
  }

  ghost function Resolution(s: CatalogState, cfg: AssetsConfig, request: Request, h: Headers): Option<Selection>
    requires WellKeyed(s.variants)
  {
    match FindAsset(s.assets, cfg, RequestPath.Clean(request.path))
    case None => None
    case Some((asset, fallbackUsed)) => Some(Selection(asset, VariantChoice(s.variants, asset, request, h), fallbackUsed))
  }

  // ---- Facts about the variants of one asset --------------------------------------

  lemma MatchesHaveDistinctWidths(t: VariantTable, asset: Asset, format: string)
    requires WellKeyed(t) && forall k :: k in t ==> IsProjection(t[k])
    ensures DistinctWidths(MatchesOf(t, asset, format))
  {
    forall u, v | u in MatchesOf(t, asset, format) && v in MatchesOf(t, asset, format) && u.width == v.width
      ensures u == v
    {
      var j :| j in t && t[j].variant == u && t[j].assetPath == asset.path && t[j].imageFormat == format && format != "";
      var k :| k in t && t[k].variant == v && t[k].assetPath == asset.path && t[k].imageFormat == format && format != "";
      assert j != k ==> !Clashes(t[j], t[k]);
    }
  }

  /** Records of an asset with a name have an ID, and the ID tells them apart. */
  lemma RecordsHaveIDs(t: VariantTable, k: string)
    requires k in t && IsProjection(t[k]) && !IsBlank(t[k].assetPath)
    ensures t[k].variant.id != "" && t[k].variant.id == t[k].id
  {
  }
}
