/** The prepared snapshot answers as the dynamic resolver, and exactly when it does not
    (internal/server/prepared_select.go against internal/resolver/resolver.go). */
module PreparedAgreement {
  import opened Basics
  import opened CatalogRecords
  import opened Catalog
  import opened PreparedEncoding
  import opened Resolver
  import ResolverMeaning
  import opened PreparedRoutes
  import opened PreparedSnapshot
  import Paths
  import RequestPath

  // ---- Which asset the route table leads to --------------------------------------------

  function PreparedPrimary(assets: map<string, Asset>, cfg: AssetsConfig, p: RequestPath.Cleaned): Option<Asset> {
    RouteTarget(assets, cfg.entry, if p.value == "" then cfg.entry else p.value)
  }

  /** The asset of the route the prepared snapshot finds, and whether it is the fallback. */
  function PreparedFind(assets: map<string, Asset>, cfg: AssetsConfig, p: RequestPath.Cleaned): Option<(Asset, bool)> {
    var primary := PreparedPrimary(assets, cfg, p);
    if primary.Some? then Some((primary.value, false))
    else if cfg.fallbackOnNotFound && p.allowsEntryFallback then
      var target := RouteTarget(assets, cfg.entry, RequestPath.Clean(cfg.fallbackTarget).value);
      if target.Some? then Some((target.value, true)) else None
    else None
  }

  /** A key only the alias of an entry below it occupies. */
  predicate AliasOnly(assets: map<string, Asset>, entry: string, key: string) {
    key !in assets && RouteTarget(assets, entry, key).Some?
  }

  /** The requests on which the two part: an alias stands where the resolver looks for an
      asset only, because the configured entry, a path with an extension or the fallback
      target is one; or the fallback target is empty and so is the name of an asset. */
  predicate Diverges(assets: map<string, Asset>, cfg: AssetsConfig, p: RequestPath.Cleaned) {
    if p.value == "" && AliasOnly(assets, cfg.entry, cfg.entry) then true
    else if p.value != "" && !p.allowsEntryFallback && AliasOnly(assets, cfg.entry, p.value) then true
    else
      var target := RequestPath.Clean(cfg.fallbackTarget).value;
      && FindPrimaryAsset(assets, cfg, p) == None
      && cfg.fallbackOnNotFound && p.allowsEntryFallback
      && (AliasOnly(assets, cfg.entry, target) || (target == "" && "" in assets))
  }

  predicate CleanEntry(entry: string) {
    Paths.CleanRelative(entry) && TrimSpace(entry) == entry
  }

  predicate CleanedShape(p: RequestPath.Cleaned) {
    if p.value == "" then p.allowsEntryFallback else Paths.CleanRelative(p.value)
  }

  lemma PrimaryAgrees(assets: map<string, Asset>, cfg: AssetsConfig, p: RequestPath.Cleaned)
    requires CleanEntry(cfg.entry) && CleanedShape(p)
    requires p.value == "" ==> !AliasOnly(assets, cfg.entry, cfg.entry)
    requires p.value != "" && !p.allowsEntryFallback ==> !AliasOnly(assets, cfg.entry, p.value)
    ensures PreparedPrimary(assets, cfg, p) == FindPrimaryAsset(assets, cfg, p)
  {
    Paths.CanonicalIsSettled(cfg.entry);
    if p.value != "" {
      Paths.JoinCanonical(p.value, cfg.entry);
      assert |p.value + "/" + cfg.entry| > |p.value|;
    }
  }

  /** The two find the same asset, with the same fallback flag, if and only if the request
      does not diverge. */
  lemma RoutesAgreeIff(assets: map<string, Asset>, cfg: AssetsConfig, p: RequestPath.Cleaned)
    requires CleanEntry(cfg.entry) && CleanedShape(p)
    ensures PreparedFind(assets, cfg, p) == FindAsset(assets, cfg, p) <==> !Diverges(assets, cfg, p)
  {
    Paths.CanonicalIsSettled(cfg.entry);
    if p.value == "" && AliasOnly(assets, cfg.entry, cfg.entry) {
    } else if p.value != "" && !p.allowsEntryFallback && AliasOnly(assets, cfg.entry, p.value) {
    } else {
      PrimaryAgrees(assets, cfg, p);
    }
  }

  /** "/v1.0", a directory with a dot in its name, is such a path: its entry is an alias to the
      prepared snapshot and nothing to the resolver. */
  lemma DottedDirectoryDiverges(raw: string, asset: Asset)
    requires raw == "/v1.0"
    ensures var assets := map["v1.0/index.html" := asset];
            var cfg := AssetsConfig("index.html", false, "");
            var p := RequestPath.Clean(raw);
            PreparedFind(assets, cfg, p) == Some((asset, false)) && FindAsset(assets, cfg, p) == None
  {
    DottedPathIsClean(raw, "v1.0");
    DottedKeyIsAlias(RequestPath.Clean(raw), asset);
  }

  lemma DottedKeyIsAlias(p: RequestPath.Cleaned, asset: Asset)
    requires p == RequestPath.Cleaned("v1.0", false)
    ensures var assets := map["v1.0/index.html" := asset];
            var cfg := AssetsConfig("index.html", false, "");
            PreparedFind(assets, cfg, p) == Some((asset, false)) && FindAsset(assets, cfg, p) == None
  {
    TrimmedIsFixed("index.html");
    assert "v1.0" + "/" + "index.html" == "v1.0/index.html";
  }

  lemma DottedPathIsClean(raw: string, value: string)
    requires value == "v1.0" && raw == "/" + value
    ensures RequestPath.Clean(raw) == RequestPath.Cleaned(value, false)
  {
    TrimmedIsFixed(raw);
    SplitWhole(value, '/');
    RequestPath.CanonicalValueOf(value, raw);
    assert value[2] == '.' && '/' !in value;
  }

  // ---- The whole answer ---------------------------------------------------------------------

  method FindRoute(routes: map<string, Route>, cfg: AssetsConfig, p: RequestPath.Cleaned, ghost s: CatalogState)
    returns (found: Option<(Route, bool)>)
    requires PureTable(s.variants) && TableFor(s.assets, s.variants, cfg.entry, routes)
    ensures found == None <==> PreparedFind(s.assets, cfg, p) == None
    ensures found.Some? ==>
              && RouteFor(s.variants, found.value.0.asset, found.value.0)
              && PreparedFind(s.assets, cfg, p) == Some((found.value.0.asset, found.value.1))
  {
    TableLeads(routes, cfg.entry, s);
    var key := if p.value == "" then cfg.entry else p.value;
    if key in routes {
      return Some((routes[key], false));
    }
    if cfg.fallbackOnNotFound && p.allowsEntryFallback {
      var target := RequestPath.Clean(cfg.fallbackTarget).value;
      if target in routes {
        return Some((routes[target], true));
      }
    }
    found := None;
  }

  lemma TableLeads(routes: map<string, Route>, entry: string, s: CatalogState)
    requires PureTable(s.variants) && TableFor(s.assets, s.variants, entry, routes)
    ensures forall key :: key in routes <==> RouteTarget(s.assets, entry, key).Some?
    ensures forall key :: key in routes ==>
              RouteTarget(s.assets, entry, key) == Some(routes[key].asset) && RouteFor(s.variants, routes[key].asset, routes[key])
  {
    forall key
      ensures key in routes <==> RouteTarget(s.assets, entry, key).Some?
      ensures key in routes ==>
                RouteTarget(s.assets, entry, key) == Some(routes[key].asset) && RouteFor(s.variants, routes[key].asset, routes[key])
    {
      assert Targets(s.assets, entry)(key) == RouteTarget(s.assets, entry, key);
      if key in routes {
        assert Fits(s.variants)(RouteTarget(s.assets, entry, key).value, routes[key]);
      }
    }
  }

  /** For every catalog of pure variants and every request, the prepared snapshot serves
      the same asset and variant, with the same fallback flag, as the resolver: exactly
      when the request does not diverge. Diverging or not, the variant is one that answers
      the request for the asset served. */
  method Resolve(routes: map<string, Route>, cfg: AssetsConfig, request: Request, h: Headers, ghost s: CatalogState)
    returns (result: Option<Selection>)
    requires PureTable(s.variants) && TableFor(s.assets, s.variants, cfg.entry, routes)
    requires CleanEntry(cfg.entry) && PlainParts(h.entry)
    ensures result == Resolution(s, cfg, request, h) <==> !Diverges(s.assets, cfg, RequestPath.Clean(request.path))
    ensures result.Some? ==> ResolverMeaning.AnswersRequest(s.variants, result.value.asset, request, h, result.value.variant)
    ensures result.Some? && result.value.variant.Some? ==> ResolverMeaning.UpToDate(result.value.variant.value, result.value.asset)
  {
    var p := RequestPath.Clean(request.path);
    RequestPath.CleanShape(request.path);
    RoutesAgreeIff(s.assets, cfg, p);
    var found := FindRoute(routes, cfg, p, s);
    if found == None {
      return None;
    }
    var (route, fallbackUsed) := found.value;
    var variant := SelectResponse(route, request, h, s.variants);
    ResolverMeaning.ChoiceAnswersRequest(s.variants, route.asset, request, h);
    ResolverMeaning.AnswerIsUpToDate(s.variants, route.asset, request, h, variant);
    result := Some(Selection(route.asset, variant, fallbackUsed));
  }
}
