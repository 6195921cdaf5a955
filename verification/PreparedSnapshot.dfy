/** The prepared snapshot: its route table, its answers, and that they are the
    resolver's (internal/server/prepared_compile.go, prepared_select.go). */
module PreparedSnapshot {
  import opened Basics
  import opened Sorting
  import opened Accept
  import opened AcceptEncoding
  import opened CatalogRecords
  import opened Catalog
  import opened ImagePicker
  import opened PreparedEncoding
  import opened Resolver
  import opened PreparedRoutes
  import VariantIndex
  import Media
  import Paths
  import RequestPath

  // ---- Selection on one route ------------------------------------------------------------

  lemma ExactIsClosest(vs: set<Variant>, v: Variant)
    requires v in vs
    ensures Closest(vs, v.width, v)
  {
  }

  method PickZeroWidth(responses: seq<Variant>) returns (picked: Option<Variant>)
    ensures picked.Some? ==> picked.value in responses && picked.value.width == 0
    ensures picked == None ==> forall v :: v in responses ==> v.width != 0
  {
    for i := 0 to |responses|
      invariant forall j :: 0 <= j < i ==> responses[j].width != 0
    {
      if responses[i].width == 0 {
        return Some(responses[i]);
      }
    }
    picked := None;
  }

  lemma PickOfNothing(width: int)
    ensures PickImage({}, width) == None
  {
  }

  method PickImageFormat(route: Route, format: string, width: int, ghost t: VariantTable) returns (picked: Option<Variant>)
    requires PureTable(t) && RouteFor(t, route.asset, route)
    ensures picked == PickImage(MatchesOf(t, route.asset, format), width)
  {
    ghost var vs := MatchesOf(t, route.asset, format);
    MatchesHaveDistinctWidths(t, route.asset, format);
    if format !in route.images {
      PickOfNothing(width);
      return None;
    }
    if width <= 0 {
      if (format, 0) in route.widths {
        picked := Some(route.widths[(format, 0)]);
      } else {
        picked := PickZeroWidth(route.images[format]);
      }
      assert forall v :: v in vs <==> v in route.images[format];
      PickImageIs(vs, width, picked);
      return;
    }
    if (format, width) in route.widths {
      picked := Some(route.widths[(format, width)]);
      ExactIsClosest(vs, picked.value);
      PickImageIs(vs, width, picked);
      return;
    }
    picked := PickClosest(route.picks[format], width);
  }

  lemma {:induction false} NoImagesNoChoice(t: VariantTable, asset: Asset, formats: seq<string>, width: int)
    requires forall f :: MatchesOf(t, asset, f) == {}
    ensures FirstImage(t, asset, formats, width) == None
    decreases |formats|
  {
    if formats != [] {
      assert MatchesOf(t, asset, formats[0]) == {};
      PickOfNothing(width);
      NoImagesNoChoice(t, asset, formats[1..], width);
    }
  }

  method PickFirstFormat(route: Route, formats: seq<string>, width: int, ghost t: VariantTable)
    returns (picked: Option<Variant>)
    requires PureTable(t) && RouteFor(t, route.asset, route)
    ensures picked == FirstImage(t, route.asset, formats, width)
  {
    for i := 0 to |formats|
      invariant FirstImage(t, route.asset, formats[i..], width) == FirstImage(t, route.asset, formats, width)
    {
      assert formats[i..][1..] == formats[i + 1..];
      picked := PickImageFormat(route, formats[i], width, t);
      if picked.Some? {
        return;
      }
    }
    picked := None;
  }

  lemma OneFormatChoice(t: VariantTable, asset: Asset, format: string, width: int)
    ensures ChoiceAmong(t, asset, [format], width) == PickImage(MatchesOf(t, asset, format), width)
  {
    assert OrSource([format], asset) == [format];
    assert [format][1..] == [];
    assert FirstImage(t, asset, [], width) == None;
  }

  lemma EmptyRouteChoosesNothing(t: VariantTable, asset: Asset, images: map<string, seq<Variant>>, formats: seq<string>, width: int)
    requires ImagesFor(t, asset, images) && images == map[]
    ensures ChoiceAmong(t, asset, formats, width) == None
  {
    forall f ensures MatchesOf(t, asset, f) == {} {
      assert f !in images;
    }
    NoImagesNoChoice(t, asset, OrSource(formats, asset), width);
  }

  method SelectAmong(route: Route, requestedFormat: string, formats: seq<string>, width: int, ghost t: VariantTable)
    returns (picked: Option<Variant>)
    requires PureTable(t) && RouteFor(t, route.asset, route)
    requires requestedFormat != "" ==> formats == [requestedFormat]
    ensures picked == ChoiceAmong(t, route.asset, formats, width)
  {
    if route.images == map[] {
      EmptyRouteChoosesNothing(t, route.asset, route.images, formats, width);
      return None;
    }
    if requestedFormat != "" {
      OneFormatChoice(t, route.asset, requestedFormat, width);
      picked := PickImageFormat(route, requestedFormat, width, t);
      return;
    }
    if width <= 0 && formats == [] {
      return None;
    }
    picked := PickFirstFormat(route, OrSource(formats, route.asset), width, t);
  }

  method SelectImageResponse(route: Route, request: Request, h: Headers, ghost t: VariantTable)
    returns (picked: Option<Variant>)
    requires PureTable(t) && RouteFor(t, route.asset, route)
    ensures picked == ImageChoice(t, route.asset, request, h)
  {
    var requestedFormat := Media.NormalizeImageFormat(request.format);
    picked := SelectAmong(route, requestedFormat, RequestedFormats(route.asset, request, h), request.width, t);
  }

  /** A route serves what the resolver would choose for its asset. */
  method SelectResponse(route: Route, request: Request, h: Headers, ghost t: VariantTable)
    returns (variant: Option<Variant>)
    requires PureTable(t) && RouteFor(t, route.asset, route) && PlainParts(h.entry)
    ensures variant == VariantChoice(t, route.asset, request, h)
  {
    variant := SelectImageResponse(route, request, h, t);
    if variant == None {
      variant := SelectEncodingResponse(request.acceptEncoding, request.rangeRequested, route.encodings, h.entry);
    }
  }

  // ---- The route table ----------------------------------------------------------------------

  function PreparedEntryAlias(routePath: string, entry: string): string {
    var suffix := "/" + TrimSpace(entry);
    if IsBlank(routePath) || suffix == "/" || !HasSuffix(routePath, suffix) then ""
    else TrimSuffix(routePath, suffix)
  }

  /** The asset a key of the route table leads to: its own, else the entry below it. */
  function RouteTarget(assets: map<string, Asset>, entry: string, key: string): Option<Asset> {
    var below := key + "/" + TrimSpace(entry);
    if key in assets then Some(assets[key])
    else if key != "" && TrimSpace(entry) != "" && below in assets then Some(assets[below])
    else None
  }

  lemma BlankHasNoSlash(s: string)
    ensures IsBlank(s) ==> '/' !in s
  {
    if IsBlank(s) {
      BlankIsAllSpace(s);
    }
  }

  lemma AliasMeaning(path: string, entry: string, key: string)
    requires key != ""
    ensures PreparedEntryAlias(path, entry) == key <==> TrimSpace(entry) != "" && path == key + "/" + TrimSpace(entry)
  {
    var suffix := "/" + TrimSpace(entry);
    if TrimSpace(entry) != "" && path == key + "/" + TrimSpace(entry) {
      assert path == key + suffix;
      assert path[|key|] == '/';
      BlankHasNoSlash(path);
      assert path[|path| - |suffix|..] == suffix;
      assert path[..|path| - |suffix|] == key;
    }
    if PreparedEntryAlias(path, entry) == key {
      assert path == path[..|path| - |suffix|] + path[|path| - |suffix|..];
      assert key + suffix == key + "/" + TrimSpace(entry);
    }
  }

  /** routes has a key for every target, and what it holds fits the target. */
  ghost predicate Table(target: string -> Option<Asset>, fits: (Asset, Route) -> bool, routes: map<string, Route>) {
    && (forall key :: key in routes <==> target(key).Some?)
    && (forall key :: key in routes ==> fits(target(key).value, routes[key]))
  }

  function Targets(assets: map<string, Asset>, entry: string): string -> Option<Asset> {
    key => RouteTarget(assets, entry, key)
  }

  ghost function Fits(t: VariantTable): (Asset, Route) -> bool
    requires WellKeyed(t)
  {
    (asset, route) => RouteFor(t, asset, route)
  }

  ghost predicate TableFor(assets: map<string, Asset>, t: VariantTable, entry: string, routes: map<string, Route>)
    requires WellKeyed(t)
  {
    Table(Targets(assets, entry), Fits(t), routes)
  }

  lemma TableGrowsBy(
    target: string -> Option<Asset>, next: string -> Option<Asset>, fits: (Asset, Route) -> bool,
    routes: map<string, Route>, path: string, alias: string, route: Route)
    requires Table(target, fits, routes) && fits(route.asset, route)
    requires forall key :: next(key) == if key == path then Some(route.asset)
                           else if alias != "" && key == alias && target(key) == None then Some(route.asset)
                           else target(key)
    ensures var own := routes[path := route];
            Table(next, fits, if alias != "" && alias !in own then own[alias := route] else own)
  {
  }

  /** The keys a new asset takes: its own path, and its alias where nothing is. */
  lemma TargetGrows(assets: map<string, Asset>, entry: string, asset: Asset, key: string)
    requires asset.path !in assets
    ensures var alias := PreparedEntryAlias(asset.path, entry);
            RouteTarget(assets[asset.path := asset], entry, key)
            == if key == asset.path then Some(asset)
               else if alias != "" && key == alias && RouteTarget(assets, entry, key) == None then Some(asset)
               else RouteTarget(assets, entry, key)
  {
    if key != "" {
      AliasMeaning(asset.path, entry, key);
    }
  }

  /** The new route's own key always wins, and its alias only where nothing was. */
  lemma TableGrows(assets: map<string, Asset>, t: VariantTable, entry: string, routes: map<string, Route>, route: Route)
    requires PureTable(t) && TableFor(assets, t, entry, routes)
    requires route.asset.path !in assets && RouteFor(t, route.asset, route)
    ensures var own := routes[route.asset.path := route];
            var alias := PreparedEntryAlias(route.asset.path, entry);
            TableFor(assets[route.asset.path := route.asset], t, entry,
                     if alias != "" && alias !in own then own[alias := route] else own)
  {
    var path := route.asset.path;
    var target, next := Targets(assets, entry), Targets(assets[path := route.asset], entry);
    forall key
      ensures next(key) == if key == path then Some(route.asset)
                           else if PreparedEntryAlias(path, entry) != "" && key == PreparedEntryAlias(path, entry) && target(key) == None
                           then Some(route.asset) else target(key)
    {
      TargetGrows(assets, entry, route.asset, key);
    }
    TableGrowsBy(target, next, Fits(t), routes, path, PreparedEntryAlias(path, entry), route);
  }

  lemma EmptyTable(t: VariantTable, entry: string)
    requires WellKeyed(t)
    ensures TableFor(map[], t, entry, map[])
  {
  }

  method AddRoute(routes: map<string, Route>, route: Route, entry: string, ghost assets: map<string, Asset>, ghost t: VariantTable)
    returns (next: map<string, Route>)
    requires PureTable(t) && TableFor(assets, t, entry, routes)
    requires route.asset.path !in assets && RouteFor(t, route.asset, route)
    ensures TableFor(assets[route.asset.path := route.asset], t, entry, next)
  {
    TableGrows(assets, t, entry, routes, route);
    var alias := PreparedEntryAlias(route.asset.path, entry);
    next := routes[route.asset.path := route];
    if alias != "" && alias !in next {
      next := next[alias := route];
    }
  }

  /** The assets of the first n entries. */
  ghost function Compiled(list: seq<Asset>, n: nat): map<string, Asset>
    requires n <= |list|
  {
    if n == 0 then map[] else Compiled(list, n - 1)[list[n - 1].path := list[n - 1]]
  }

  lemma {:induction false} CompiledMeaning(assets: map<string, Asset>, list: seq<Asset>, n: nat)
    requires IsFreshAssetSort(assets, list) && n <= |list|
    ensures forall p :: p in Compiled(list, n) <==> exists j :: 0 <= j < n && list[j].path == p
    ensures forall p :: p in Compiled(list, n) ==> p in assets && Compiled(list, n)[p] == assets[p]
    ensures n < |list| ==> list[n].path !in Compiled(list, n)
  {
    if n > 0 {
      CompiledMeaning(assets, list, n - 1);
      assert list[n - 1] in list;
    }
    if n < |list| {
      ListedOnce(assets, list, n);
    }
  }

  lemma CompiledAll(assets: map<string, Asset>, list: seq<Asset>)
    requires IsFreshAssetSort(assets, list) && forall p :: p in assets ==> assets[p].path == p
    ensures Compiled(list, |list|) == assets
  {
    CompiledMeaning(assets, list, |list|);
    forall p | p in assets
      ensures p in Compiled(list, |list|)
    {
      assert assets[p] in list;
      var j :| 0 <= j < |list| && list[j] == assets[p];
      assert list[j].path == p;
    }
  }

  method CompileEntries(entries: seq<Entry>, entry: string, ghost assets: map<string, Asset>, ghost t: VariantTable)
    returns (routes: map<string, Route>)
    requires PureTable(t) && IsFreshAssetSort(assets, AssetsOf(entries))
    requires forall p :: p in assets ==> assets[p].path == p
    requires forall e :: e in entries ==> VariantIndex.IsFreshSort(t, VariantIndex.OfAsset(e.asset.path), e.variants)
    ensures TableFor(assets, t, entry, routes)
  {
    ghost var list := AssetsOf(entries);
    routes := map[];
    EmptyTable(t, entry);
    for i := 0 to |entries|
      invariant TableFor(Compiled(list, i), t, entry, routes)
    {
      CompiledMeaning(assets, list, i);
      assert entries[i] in entries && list[i] == entries[i].asset;
      var route := CompileRoute(entries[i].asset, entries[i].variants, t);
      routes := AddRoute(routes, route, entry, Compiled(list, i), t);
    }
    CompiledAll(assets, list);
  }

  /** Compile: one route per asset, plus its entry alias. */
  method Compile(catalog: IndexedCatalog, entry: string) returns (routes: map<string, Route>)
    requires catalog.Valid() && PureTable(catalog.State().variants)
    modifies catalog`sortedAssetCache, catalog.variants`sortedByAssetPath
    ensures catalog.Valid() && catalog.State() == old(catalog.State())
    ensures TableFor(catalog.State().assets, catalog.State().variants, entry, routes)
  {
    var entries := catalog.Snapshot();
    routes := CompileEntries(entries, entry, catalog.State().assets, catalog.State().variants);
  }

  lemma ListedOnce(assets: map<string, Asset>, list: seq<Asset>, i: nat)
    requires IsFreshAssetSort(assets, list) && i < |list|
    ensures forall j :: 0 <= j < i ==> list[j].path != list[i].path
  {
    forall j | 0 <= j < i
      ensures list[j].path != list[i].path
    {
      assert list[j] in list && list[i] in list;
    }
  }
}
