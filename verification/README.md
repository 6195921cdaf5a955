# SPACK: verified model of the asset server's core

SPACK serves static assets. Its difficult logic sits in fast forms that have to agree with
simple ones, in a catalog with many indexes over one record set, in small concurrent
protocols, and in a bundle format with a writer, a verifier, a reader and an extractor. This
project models these parts in Dafny and proves what they promise. `dafny verify
dfyconfig.toml` checks everything.

## What is modelled

| files | part of SPACK |
|---|---|
| `Basics`, `Sorting`, `SizedMaps`, `Paths` | strings over ASCII, ordering, sums over maps, `path.Clean` and `path.Join` |
| `RequestPath` | cleaning of request paths, fast route and slow route |
| `Accept`, `AcceptEncoding`, `AcceptEncodingProofs` | Accept entries, the bitmask preference record, negotiation of content codings (sections 12.4.2 and 12.5.3 of RFC 9110) |
| `AcceptImage`, `AcceptImageProofs` | negotiation of image formats with two wildcards and the source's own format (section 12.5.1 of RFC 9110) |
| `PreparedEncoding` | the shortcut for plain Accept-Encoding headers |
| `Media`, `CatalogRecords`, `VariantIndex`, `Catalog`, `CatalogMeaning`, `CacheReaders` | records and their slots, the six indexes and four sorted caches, the commands, and readers that fill caches at the same time |
| `ImagePicker`, `Resolver`, `ResolverMeaning`, `ResolverPickers` | widest/closest image choice, the dynamic resolver over the live catalog |
| `PreparedRoutes`, `PreparedSnapshot`, `PreparedAgreement` | compiling the catalog into a route table, answering from it, and when it answers as the resolver does |
| `BodyBudget` | the memory budget of prepared bodies, over 64-bit integers |
| `RebuildWorker`, `PipelineQueue`, `SourceWatch`, `WorkerPool`, `CollectErrors` | the step protocols, as transition systems with inductive invariants, and the joining of errors |
| `SidecarMatching`, `SourceScanner`, `SourceSync`, `SourceScan`, `SourceChanges`, `SourceIncrement`, `SourceRescan`, `SourceMeaning` | scanning a directory source, full and incremental rescans of the catalog |
| `CachePolicy`, `Cleanup` | expiry and least-recently-used eviction of generated artifacts |
| `BundlePath`, `BundlePathMeaning`, `BundleMeaning`, `BundleIndex`, `BundleVerify`, `BundleWrite`, `BundleRead`, `BundleExtract`, `BundleRoundTrip` | the bundle format |

Four conventions run through the files. Objects the source updates in place are classes, and
their methods state the whole new state, usually as a function of the old one. Concurrent
protocols are transition systems: every interleaving is a run, a step per atomic action, and
the claims hold in every state of every run. What the source gets from elsewhere (digests,
JSON, number parsing, media types, payload checks) is a function parameter, with the one
property that is relied on stated as a premise. The small rules that the code and its
specification share (which variant is usable, which file is expired, which path segment is
portable) are pinned by lemmas, mostly in the files whose names end in `Meaning`, that say on
fields and characters alone when they hold.

## Where the code does less than one might expect

Each of these is kept as the code has it, with the exact condition under which the expected
property holds:

- The route table registers entry aliases that the resolver never looks up as assets.
  `PreparedAgreement.RoutesAgreeIff` says for which requests the two answers agree, and
  `PreparedAgreement.DottedDirectoryDiverges` gives a request on which they do not.
- The prepared image picker searches a list sorted by format before width.
  `ImagePicker.PickerIsClosestIffIncreasing` says when that search is right, and
  `ImagePicker.MixedFormatsMiss` gives a list on which it is not.
- Two encoding sidecars of one PNG claim the same image slot and evict each other
  (`CatalogRecords.ImageSidecarsEvictEachOther`). A catalog synced to a source can therefore
  exist if and only if no image of the source has two trusted sidecars
  (`SourceSync.SyncableIff`).
- A bundle path is trimmed before it is cleaned, so that cleaning can expose new outer white
  space. `BundlePath.CleanAgainIffTrimmed` and `BundleRoundTrip.WriteThenVerify` say exactly
  which paths, and which writes, that spoils.
- Image formats are ordered by how closely the header names them before their weights count.
  `AcceptImageProofs.HeavierFirstIff` says when the answer is still in the order of the weights,
  and `AcceptImageProofs.LighterCanComeFirst` gives weights for which it is not.
- A removal is never processed incrementally: "REMOVE" contains "MOVE", which the
  classification takes for a rename, so every batch with a removal is left to the full rescan
  (`SourceChanges.NothingIsDelete`, `SourceIncrement.RemovalNeedsFullRescan`). This is also what
  keeps an asset that is removed and created again in one batch.
- The processing of a change set, taken by itself, drops an asset that the set deletes, even
  when the asset is there again: `SourceIncrement.RecreatedAssetIsLost` gives such a set.
  `SourceRescan.SourceRescanRun.ProcessChangeSet` says exactly what any change set leads to, and
  that this is the whole source if and only if no deleted asset is there.
- Cleaning a cleaned request path again can change it. `RequestPath.CleanTwice` says exactly
  when it does not, and `RequestPath.ExposedSpaceIsTrimmed` gives a path for which it does.

## Model

| member | source | states |
|---|---|---|
| `RequestPath.FastRouteAgrees` | internal/requestpath/cleaner.go:96-147 | for every prepared path, the fast route accepts exactly the paths with a canonical value, and then gives the value and the entry-fallback flag of the path.Clean route |
| `RequestPath.CleanIsSlowClean` | internal/requestpath/cleaner.go:17-43 | for every raw path the result is that of the path.Clean route, whichever route answered |
| `RequestPath.CleanShape` | internal/requestpath/cleaner.go:17-43 | for every raw path the result is empty or has only segments that are neither empty nor "." nor "..", so no leading slash |
| `RequestPath.CleanTwice` | internal/requestpath/cleaner.go:17-43 | cleaning a cleaned value again keeps it if and only if it has no outer white space and nothing left to decode |
| `RequestPath.ExposedSpaceIsTrimmed` | internal/requestpath/cleaner.go:17-43 | "/ a" cleans to " a", and that to "a" |
| `RequestPath.UnescapeUndoesEscape` | internal/requestpath/cleaner.go:88-94 | decoding undoes percent-encoding, whichever characters were encoded |
| `RequestPath.CleanUndoesEscape` | internal/requestpath/cleaner.go:17-43 | asking for the encoded form of a clean path gives the path and its entry-fallback flag |
| `RequestPath.HasExtensionIff` | internal/requestpath/cleaner.go:17-43 | a path has an extension exactly when its last segment has a dot other than one that starts the path |
| `RequestPath.FallbackIff` | internal/requestpath/cleaner.go:17-43 | the entry may stand in exactly for the root, for a path that ends in a slash and for one without extension |
| `Paths.CleanIdempotent` | internal/requestpath/cleaner.go:17-43 | path.Clean, on which both routes rest, is idempotent |
| `Paths.CleanRootedShrinks` | internal/requestpath/cleaner.go:17-43 | path.Clean makes a rooted path no longer and adds no character |
| `Paths.CleanDropsEmptyAndDot` | internal/requestpath/cleaner.go:17-43 | path.Clean does not repeat slashes and drops "." |
| `Paths.CleanTakesBack` | internal/requestpath/cleaner.go:17-43 | path.Clean takes a name back with the ".." after it |
| `Paths.CleanStaysBelowRoot` | internal/requestpath/cleaner.go:17-43 | path.Clean drops ".." at the root |
| `Paths.CleanKeepsEscape` | internal/spackbundle/path.go:38-41 | path.Clean keeps ".." at the start of a relative path, so that paths that leave the bundle are seen to |
| `Accept.ParseAcceptQuality` | pkg/normalize.go:163-182 | the loop over the parameters finds the last readable weight, else 1 |
| `Accept.ParseAcceptEntry` | pkg/normalize.go:146-161 | the trimmed, lower-cased name and its weight; nothing for an empty name |
| `Accept.ForEachAcceptEntry` | pkg/normalize.go:130-144 | the loop yields the entries of the comma-separated parts, in order |
| `Accept.WeightIff` | pkg/normalize.go:163-182 | a parameter is a weight exactly when it is "q" or "Q", an equals sign and a value, white space aside |
| `Accept.ClampIff` | pkg/normalize.go:184-196 | an unreadable weight counts as 1, a readable one as the nearest number between 0 and 1 |
| `Accept.LastWeightIff` | pkg/normalize.go:163-182 | of several weights the last one counts, of none 1 |
| `Accept.EntryIff` | pkg/normalize.go:146-161 | an entry has the text before the first semicolon, trimmed and in lower case, and the weight of the parameters after it |
| `AcceptEncoding.CollectMeaning` | internal/resolver/accept_encoding.go:103-127 | collecting keeps for each supported name the largest weight any entry gives it, and the last wildcard's weight |
| `AcceptEncoding.NewEncodingSupport` | internal/resolver/accept_encoding.go:88-101 | the mask has a bit exactly for each known supported coding, the rest of the names are the extras |
| `AcceptEncoding.EncodingPreferences.SetKnown` | internal/resolver/accept_encoding.go:129-150 | one bit and one field of the record change as the token map does |
| `AcceptEncoding.EncodingPreferences.Apply` | internal/resolver/accept_encoding.go:112-127 | applying an entry to the bitmask record is applying it to the token map |
| `AcceptEncoding.EncodingPreferences.Quality` | internal/resolver/accept_encoding.go:238-261 | the record answers every coding as the token map does: its own weight if it has one, else the wildcard's, and only when positive |
| `AcceptEncoding.CollectEncodingPreferences` | internal/resolver/accept_encoding.go:103-110 | the bitmask record after a header refines the token map after it |
| `AcceptEncoding.BuildEncodingCandidates` | internal/resolver/accept_encoding.go:210-236 | the sorted candidates of the record are those of the token map |
| `AcceptEncoding.ParseAcceptEncoding` | internal/resolver/accept_encoding.go:60-76 | parsing a header is negotiating over its entries, with the default codings when none are configured |
| `AcceptEncodingProofs.NegotiateMeaning` | internal/resolver/accept_encoding.go:210-265 | the negotiated list has exactly the supported names of positive weight, heavier first, the supported order among equals |
| `AcceptEncodingProofs.NegotiatedIsUnique` | internal/resolver/accept_encoding.go:263-265 | membership and order leave one possible list, so the sorting algorithm does not matter |
| `AcceptEncodingProofs.HeaderNegotiation` | internal/resolver/accept_encoding.go:60-76 | for every header and distinct support list the answer holds exactly the supported codings whose weight by the header's fields is positive, in that order; none for a blank header, and the default codings stand in for an empty list |
| `AcceptImage.NewImageFormatSupport` | internal/resolver/accept_image.go:65-79 | the mask has a bit exactly for each supported format; without configured formats all are supported |
| `AcceptImage.WithSourceFormat` | internal/resolver/accept_image.go:81-97 | the source's format joins the list at the end unless it is there |
| `AcceptImage.ImagePreferences.SetExplicit` | internal/resolver/accept_image.go:140-178 | one bit and one field of the record change as the map of weights does |
| `AcceptImage.ImagePreferences.Apply` | internal/resolver/accept_image.go:108-123 | applying an entry to the bitmask record is applying it to the map of weights, under whichever media type it names the format |
| `AcceptImage.ImagePreferences.Quality` | internal/resolver/accept_image.go:180-235 | the record answers every format as the weights do: its own, else the image wildcard's, else the full wildcard's, and only when positive |
| `AcceptImage.BuildImageCandidates` | internal/resolver/accept_image.go:180-208 | the sorted candidates of the record are those of the weights |
| `AcceptImage.ParseAcceptImageFormats` | internal/resolver/accept_image.go:53-63 | parsing a header is negotiating over its entries |
| `Media.FormatsAreNormalized` | internal/media/image.go:103-108 | normalizing a list of different known formats keeps it |
| `Media.ImageFormatIff` | internal/media/image.go:92-97 | a media type has an image format exactly when it is "image/" and the format's name |
| `Media.FormatOfAcceptTokenIff` | internal/media/image.go:75-77 | an Accept entry names a format exactly by its media type, and jpeg also as "image/jpg" |
| `Media.NormalizeImageFormatIff` | internal/media/image.go:79-90 | a format's normal form is its lower-case name, and jpeg for jpg |
| `AcceptImageProofs.CollectMeaning` | internal/resolver/accept_image.go:99-123 | collecting keeps the largest weight of each format over all its media types, and the last weight of either wildcard |
| `AcceptImageProofs.OfferedIsWeight` | internal/resolver/accept_image.go:224-235 | a format's weight and specificity are those of its own entries, else of the image wildcard, else of the full one |
| `AcceptImageProofs.HeaderNegotiation` | internal/resolver/accept_image.go:53-63 | for every header the answer holds exactly the supported formats, and the source's, of positive weight, closest named first, then heavier, then the source's own, then in list order; none for a blank header |
| `AcceptImageProofs.NegotiatedIsUnique` | internal/resolver/accept_image.go:217-222 | membership and order leave one possible list |
| `AcceptImageProofs.HeavierFirstIff` | internal/resolver/accept_image.go:217-222 | the answer is in the order of the weights if and only if no closer named format has a smaller weight |
| `AcceptImageProofs.LighterCanComeFirst` | internal/resolver/accept_image.go:217-222 | for "image/webp;q=0.1,image/*" and a png source, webp comes before the ten times heavier png |
| `AcceptImageProofs.ResolverNegotiates` | internal/resolver/helpers.go:166-178 | the formats the resolver tries for an image are the negotiated ones, the image's own first among equals |
| `PreparedEncoding.AcceptEncodingContainsToken` | internal/server/prepared_select.go:186-198 | the loop finds a token exactly when some comma-separated part is that token, letter case and outer white space aside |
| `PreparedEncoding.SelectSimpleEncodingResponse` | internal/server/prepared_select.go:168-184 | the shortcut picks the first default coding that the header lists and the route has |
| `PreparedEncoding.SimpleNegotiation` | internal/server/prepared_select.go:144-184 | for every header without ";" and "*", the codings the shortcut tries are those full parsing prefers, in the same order |
| `PreparedEncoding.EntryParserIsPlain` | pkg/normalize.go:146-182 | the real entry parser gives a part without parameters the weight 1, which is all the shortcut needs of it |
| `PreparedEncoding.SelectEncodingResponse` | internal/server/prepared_select.go:144-166 | either way, the response is the first preferred coding's that exists, and none for a range request |
| `CatalogRecords.RecordIsProjection` | internal/catalog/records.go:38-51 | every record is derived from the variant it carries |
| `CatalogRecords.UpsertedIsWellKeyed` | internal/catalog/variant_index.go:40-46 | after an upsert no two records claim a key, artifact path, encoding or image slot in common |
| `CatalogRecords.ImageSidecarsEvictEachOther` | internal/catalog/records.go:53-61 | of two encoding sidecars of one image asset the later upsert evicts the earlier |
| `CatalogMeaning.UpsertedVariants` | internal/catalog/variant_index.go:40-46 | in terms of the variants' own fields, an upsert keeps exactly the variants that share no identifier, artifact, coding or image size with the new one, and adds it under its identifier |
| `CatalogMeaning.DefaultIdentifiersTell` | internal/catalog/helpers.go:70-72 | two variants of one asset get one default identifier exactly when they agree in coding, format and positive width |
| `VariantIndex.FreshSortIsUnique` | internal/catalog/query_helpers.go:15-19 | a sorted view of a record set is one list only |
| `VariantIndex.FreshSortFields` | internal/catalog/query_helpers.go:15-19 | a sorted view holds exactly the records of its asset, format or stage, in strictly ascending lexicographic order of their keys |
| `VariantIndex.Index.Insert` | internal/catalog/variant_index.go:139-156 | a record that clashes with none enters all six indexes, each of which stays the projection of the key map, and all caches stay fresh |
| `VariantIndex.Index.Delete` | internal/catalog/variant_index.go:158-184 | a record leaves all six indexes, each of which stays the projection of the key map, and all caches stay fresh |
| `VariantIndex.Index.CollectReplacements` | internal/catalog/variant_index.go:114-137 | exactly the records that clash with the new one are collected |
| `VariantIndex.Index.Upsert` | internal/catalog/variant_index.go:40-46 | exactly the records that do not clash remain, plus the new one |
| `VariantIndex.Index.DeleteByArtifactPath` | internal/catalog/variant_index.go:58-65 | exactly the record with that artifact path goes, and the answer says whether there was one |
| `VariantIndex.Index.DeleteByAssetPath` | internal/catalog/variant_index.go:48-56 | exactly the asset's records go and are returned in key order |
| `VariantIndex.Index.ListByAssetPath` | internal/catalog/variant_index.go:75-80 | the list is a fresh sort of the asset's records, cached or not |
| `VariantIndex.Index.ListByImageFormat` | internal/catalog/variant_index.go:82-94 | the list is a fresh sort of the asset's records of that image format, cached or not |
| `VariantIndex.Index.ListByStage` | internal/catalog/variant_index.go:96-101 | the list is a fresh sort of the stage's records, cached or not |
| `VariantIndex.Index.All` | internal/catalog/variant_index.go:103-108 | the list is a fresh sort of all records, cached or not |
| `VariantIndex.Index.InvalidateRecordCache` | internal/catalog/variant_index.go:250-266 | no cached list that shows the record survives |
| `Catalog.ReachableIsConsistent` | internal/catalog/commands.go:16-163 | after any sequence of commands every variant's asset is present and no two variants share a slot |
| `Catalog.DeletedAssetLeavesNothing` | internal/catalog/commands.go:142-149 | deleting an asset leaves neither it nor any variant of it, after any history |
| `Catalog.IndexedCatalog.UpsertVariant` | internal/catalog/commands.go:30-45 | refuses a variant whose asset is missing and changes nothing then; else evicts the clashing records and adds this one |
| `Catalog.IndexedCatalog.DeleteAsset` | internal/catalog/commands.go:142-149 | the asset and exactly its variants go |
| `Catalog.IndexedCatalog.DeleteVariantByArtifactPath` | internal/catalog/commands.go:158-163 | exactly the variant with that artifact path goes, and the answer says whether the catalog changed |
| `Catalog.IndexedCatalog.ReplaceCatalog` | internal/catalog/commands.go:47-71 | either the catalog is the fold of the upserts from the empty one, or it is unchanged and the first error is returned |
| `Catalog.IndexedCatalog.SortedAssets` | internal/catalog/query_helpers.go:21-36 | the list is a fresh sort of the assets, cached or not |
| `Catalog.FreshAssetSortOrder` | internal/catalog/query_helpers.go:9-13 | the sorted assets come in strictly ascending lexicographic order of their paths |
| `Catalog.IndexedCatalog.Snapshot` | internal/catalog/queries.go:172-183 | every asset in path order, each with a fresh sort of its variants |
| `CacheReaders.CachesAreFreshSorts` | internal/catalog/variant_index.go:186-266 | with any number of readers filling caches under the read lock and writers under the write lock, every cached list of variants, and every list about to be returned, is a fresh sort at every moment, and so is the cached list of assets but while a writer is about to drop it |
| `CacheReaders.ReadersSeeFreshAssets` | internal/catalog/query_helpers.go:21-42 | whenever a reader holds the lock, the cached list of assets is a fresh sort |
| `CacheReaders.MissAlone` | internal/catalog/variant_index.go:186-248 | a reader that misses sorts, fills the cache and answers what it sorted |
| `CacheReaders.AddAlone` | internal/catalog/variant_index.go:250-266 | a writer that adds a record drops exactly the cached views that show it |
| `ImagePicker.ClosestIsUnique` | internal/resolver/variant_selection.go:36-68 | smallest at least as wide, else widest below, is one variant when widths differ |
| `ImagePicker.ScanPicksClosest` | internal/resolver/variant_selection.go:36-50 | what the linear scan keeps at the end is that variant |
| `ImagePicker.SearchFindsAllIffIncreasing` | internal/server/prepared_model.go:139-148 | the binary search finds every width at its own place if and only if the list is increasing |
| `ImagePicker.PickerIsClosestIffIncreasing` | internal/server/prepared_model.go:111-148 | for distinct positive widths, the picker is right on every request if and only if its list is increasing |
| `ImagePicker.PickerIsLinearScan` | internal/server/prepared_model.go:98-148 | for every list of one format with distinct non-negative widths and every positive width, sorting, dropping repeats and searching picks what the linear scan picks |
| `ImagePicker.MixedFormatsMiss` | internal/server/prepared_compile.go:264-275 | with two formats in one list the search can miss the closest variant |
| `Resolver.MatchesHaveDistinctWidths` | internal/resolver/variant_selection.go:70-78 | the catalog's image slots give the candidates of one format different widths |
| `ResolverMeaning.UsableIffUpToDate` | internal/resolver/helpers.go:130-138 | a variant is usable exactly when its artifact path is not blank and, if both source hashes are known, they are the same |
| `ResolverMeaning.ChoiceAnswersRequest` | internal/resolver/resolver_variant.go:12-35 | on the catalog's records alone: the answer is the up-to-date image of the first format tried that fits the width, if there is one; else, and not for ranges, exactly the up-to-date variant of the first negotiated coding that has one |
| `ResolverMeaning.AnswerIsUpToDate` | internal/resolver/helpers.go:130-138 | only up-to-date variants of the asset are ever served |
| `ResolverMeaning.FindAssetIff` | internal/resolver/resolver.go:242-277 | the asset is the one under the first path tried that has one, and the fallback target exactly when none has and the fallback applies |
| `ResolverPickers.UsabilityCache.IsUsable` | internal/resolver/helpers.go:107-128 | the cached answer is the computed one, whenever variants of the asset that share a cache key are all usable or all not |
| `ResolverPickers.IDsTellUsability` | internal/resolver/helpers.go:107-128 | the variants of an asset whose path is not blank have different cache keys, so the premise of the cached answer holds |
| `ResolverPickers.AssetResolver.PickVariant` | internal/resolver/variant_picker.go:9-25 | the first preferred coding with a usable variant, found through the encoding index |
| `ResolverPickers.AssetResolver.FindClosestWidthImageVariant` | internal/resolver/variant_selection.go:36-50 | the loop picks the closest usable match |
| `ResolverPickers.AssetResolver.PickImageVariant` | internal/resolver/variant_picker.go:27-52 | the first format that has a choice, and its choice |
| `ResolverPickers.AssetResolver.Resolve` | internal/resolver/resolver.go:99-146 | asset, variant and fallback flag are those of the reference semantics over the catalog's state; the variant is up to date and is the one the records call for |
| `PreparedRoutes.PreparedRoute.AddVariant` | internal/server/prepared_model.go:78-96 | a variant is filed under its encoding, or its image format and width, beside those added before |
| `PreparedRoutes.PreparedRoute.Finalize` | internal/server/prepared_model.go:98-109 | every format's list is sorted and gets its picker |
| `PreparedRoutes.FinalizedIsRoute` | internal/server/prepared_model.go:78-137 | the encodings and widths of a built route are exactly the choices the catalog offers the resolver |
| `PreparedRoutes.CompileRoute` | internal/server/prepared_compile.go:77-106 | the compiled route of an asset offers exactly its usable variants |
| `PreparedSnapshot.PickImageFormat` | internal/server/prepared_select.go:124-142 | the picker or the width table chooses the variant the resolver chooses for that format |
| `PreparedSnapshot.SelectImageResponse` | internal/server/prepared_select.go:94-122 | the image choice is the resolver's for every request |
| `PreparedSnapshot.SelectResponse` | internal/server/prepared_select.go:77-92 | image first, then encoding: the resolver's variant for every request |
| `PreparedSnapshot.AliasMeaning` | internal/server/prepared_compile.go:277-283 | a path has the alias key exactly when it is key, slash, entry |
| `PreparedSnapshot.Compile` | internal/server/prepared_compile.go:47-93 | the table has an entry for exactly the asset paths and aliases, an asset's own path winning, each leading to its asset's route |
| `PreparedAgreement.RoutesAgreeIff` | internal/server/prepared_select.go:50-75 | for every catalog, configuration with a clean entry and cleaned path, table lookup and resolver find the same asset and fallback flag if and only if no alias-only key stands where the resolver looks for an asset and the fallback target is not an empty path with an asset |
| `PreparedAgreement.DottedDirectoryDiverges` | internal/server/prepared_select.go:64-75 | the request path "/v1.0", a directory with a dot in its name, is served through an alias by the table and not found by the resolver |
| `PreparedAgreement.FindRoute` | internal/server/prepared_select.go:50-75 | the lookup in the table is the lookup over assets and aliases |
| `PreparedAgreement.Resolve` | internal/server/prepared_select.go:42-92 | for every catalog of purely encoding or purely image variants and every request, the snapshot serves the resolver's asset, variant and fallback flag exactly when the request does not diverge; in any case the variant is up to date and is the one the records call for |
| `BodyBudget.PreparedBodyBudget.Reserve` | internal/server/prepared_body_budget.go:17-27 | grants exactly when the cost still fits, without overflow |
| `BodyBudget.PreparedBodyBudget.Adjust` | internal/server/prepared_body_budget.go:39-58 | swaps the reservation for the actual cost exactly when that fits, else gives the reservation back; without a reservation refuses and changes nothing |
| `BodyBudget.PreparedBodyBudget.CompileBody` | internal/server/prepared_compile.go:182-206 | a body is kept exactly when announced and actual size fit beside the held bodies, and the budget stays the sum of the held charges |
| `BodyBudget.BodiesFitTheBudget` | internal/server/prepared_body_budget.go:3-8 | the bytes of all prepared bodies together stay within the budget |
| `RebuildWorker.RunKeepsInv` | internal/server/prepared_service.go:235-294 | one owner of the running flag, one thread in the mutex, ordered versions and no forgotten request, in every state of every run |
| `RebuildWorker.AtMostOneWorker` | internal/server/prepared_service.go:261-294 | two threads never own the running flag together |
| `RebuildWorker.VersionsNeverGoBack` | internal/server/prepared_service.go:68-98 | published catalog versions never decrease along a run |
| `RebuildWorker.QuiescentIsCurrent` | internal/server/prepared_service.go:235-294 | in every quiescent unstopped state the snapshot is at least as new as every request made |
| `RebuildWorker.RequestIsAnswered` | internal/server/prepared_service.go:235-249 | whenever rebuildAsync is called in a run, the snapshot of every later quiescent unstopped state is at least as new as the catalog was at the call |
| `RebuildWorker.DirectRebuildPublishes` | internal/server/prepared_service.go:68-98 | a direct rebuild has published the catalog of its start, or a newer one, by the time its thread is idle |
| `RebuildWorker.RequestAlone` | internal/server/prepared_service.go:235-294 | at rest, a call on its own runs to the end: claim, rebuild, release, with the catalog published |
| `RebuildWorker.NeverStuck` | internal/server/prepared_service.go:235-294 | while a thread is not idle, it or the thread in the mutex can take a step |
| `PipelineQueue.RunKeepsInv` | internal/pipeline/service.go:54-85 | the pending set is the disjoint union of the keys of enqueuers in flight, queued requests and running workers, and the close handshake holds, in every state of every run |
| `PipelineQueue.NothingSentOnClosed` | internal/pipeline/service_workers.go:92-102 | no send ever meets a closed channel |
| `PipelineQueue.NoDuplicateWork` | internal/pipeline/service_workers.go:48-79 | no two queued or running requests share a key |
| `PipelineQueue.IdleForgetsEveryKey` | internal/pipeline/service.go:216-218 | with nobody in flight and nothing queued, no key is left behind |
| `PipelineQueue.EnqueuedUnlessRefused` | internal/pipeline/service.go:54-85 | in every run, a call of Enqueue that has returned has queued its request, or its key was pending, the flag was up, or the queue was full |
| `PipelineQueue.EnqueueAlone` | internal/pipeline/service.go:54-85 | a new key on its own finds its way to the end of a queue with room |
| `PipelineQueue.FullAlone` | internal/pipeline/service.go:70-85 | a new key that finds the queue full leaves no trace |
| `PipelineQueue.WorkAlone` | internal/pipeline/service_workers.go:48-79 | a worker takes the oldest request and then forgets its key |
| `PipelineQueue.CloseAlone` | internal/pipeline/service_workers.go:92-102 | closing raises the flag, cancels and closes the channel |
| `PipelineQueue.NeverStuck` | internal/pipeline/service.go:54-85 | while a thread is busy, it or one that holds the lock it waits for can take a step |
| `SourceWatch.NoChangeIsLost` | internal/source/localfs_watch.go:97-116 | every emitted change is in the channel, in the pending deque or in a sync begun after it, itself or by a full-rescan marker no older than it |
| `SourceWatch.LastDefaultIsUnreachable` | internal/source/localfs_watch.go:97-116 | the last default branch of the overflow step is never taken |
| `SourceWatch.PendingHasTimer` | internal/task/source_rescan_watch.go:58-82 | a non-empty deque has an armed or fired timer |
| `SourceWatch.RestMeansSynced` | internal/task/source_rescan_watch.go:35-82 | when channel, deque and timer are at rest, every emitted change is in a sync begun after it |
| `SourceWatch.NoOverflowNoMarker` | internal/source/localfs_watch.go:97-116 | in every run in which no change met a taken slot, every change is kept and synced as itself |
| `SourceWatch.EmitIntoEmptySlot` | internal/source/localfs_watch.go:97-116 | a change that finds the slot empty is put there as itself |
| `SourceWatch.EmitIntoTakenSlot` | internal/source/localfs_watch.go:97-116 | a change that finds the slot taken leaves a full-rescan marker in its place |
| `SourceWatch.ReceiveAlone` | internal/task/source_rescan_watch.go:35-82 | the consumer moves the slot to its deque and starts its timer anew |
| `SourceWatch.FlushAlone` | internal/task/source_rescan_watch.go:35-82 | when the timer fires, a sync is begun with everything pending |
| `SourceWatch.NeverStuck` | internal/task/source_rescan_watch.go:35-82 | whatever is not at rest can go on: producer, consumer and timer |
| `CollectErrors.JoinCollectedErrors` | internal/asyncx/parallel_collect_errors.go:241-257 | the loop with its two flags joins every error in order but later cancellations and later deadlines |
| `CollectErrors.NilErrorsDoNotMatter` | internal/asyncx/parallel_collect_errors.go:198-239 | the list by index, with nil errors in it, joins as the list without them |
| `CollectErrors.OneCauseEach` | internal/asyncx/parallel_collect_errors.go:198-225 | one cancellation is kept exactly when any came, and likewise one deadline |
| `CollectErrors.OtherErrorsAreKept` | internal/asyncx/parallel_collect_errors.go:198-209 | every other error is kept |
| `CollectErrors.RunListSerial` | internal/asyncx/parallel_collect_errors.go:164-191 | the serial loop joins the results of the items before the context was first done, then the context's error |
| `WorkerPool.RunKeepsInv` | internal/asyncx/parallel_collect_errors.go:73-162 | workers hold different handed-out items, and every item is untouched, held or has its result stored, in every state of every run |
| `WorkerPool.NoItemRunsTwice` | internal/asyncx/parallel_collect_errors.go:125-141 | no item runs twice, and no two workers run one item, cancelled or not |
| `WorkerPool.FinishedRunIsSettled` | internal/asyncx/parallel_collect_errors.go:104-162 | once all workers left, each item below the cut ran once with its own result or was skipped with the context's error, and the rest left nothing |
| `WorkerPool.ParallelIsSerial` | internal/asyncx/parallel_collect_errors.go:73-191 | without cancellation every item runs exactly once and the joined errors are the serial loop's, for every interleaving and pool size |
| `WorkerPool.CancelledRunKeepsOneCause` | internal/asyncx/parallel_collect_errors.go:198-257 | with cancellation at most one cancellation and one deadline are joined, and one of the context's own kind is |
| `WorkerPool.NeverStuck` | internal/asyncx/parallel_collect_errors.go:104-162 | until it is finished, the pool can always take a step of its own |
| `SidecarMatching.ReverseString` | internal/sourcecatalog/sidecar.go:129-138 | the in-place swap reverses the string |
| `SidecarMatching.MatchSuffixIsLongest` | internal/sourcecatalog/sidecar.go:62-86 | the longest prefix in the trie of reversed suffixes is the longest matching suffix, and there is one whenever a suffix matches |
| `SidecarMatching.MatchIsSplit` | internal/sourcecatalog/scanner.go:85-105 | a recognised path is its asset's path followed by a matcher's suffix |
| `SidecarMatching.SuffixedIsMatched` | internal/sourcecatalog/scanner.go:85-105 | an asset's path followed by a matcher's suffix is recognised as that asset's sidecar |
| `SourceScanner.NewScannerIsSound` | internal/sourcecatalog/scanner.go:63-105 | a scanner with unambiguous plain suffixes has every property the rescan proofs use |
| `SourceScanner.DefaultMatchersArePlain` | internal/contentcoding/strategy.go:75-170 | the suffixes of the built-in codings are such suffixes |
| `SourceScan.RecognizedIsMatched` | internal/sourcecatalog/sidecar.go:88-127 | where every sidecar-suffixed file has its base, recognition while scanning is the path match that events use |
| `SourceScan.BuildAssets` | internal/sourcecatalog/asset_builder.go:66-157 | exactly the files that are no sidecars get an asset, equal to the built one up to metadata, and built anew where path, size or time are not those of the catalog |
| `SourceScan.BuildSidecarVariants` | internal/sourcecatalog/sidecar_variants.go:31-129 | exactly the trusted sidecars get a variant, reused or built, equal to the built one up to metadata |
| `SourceScan.ScanWithCatalog` | internal/sourcecatalog/scanner.go:136-171 | the snapshot holds the source's assets and trusted sidecars, given that equal sizes and times mean equal bytes; a file whose size or time differs is built anew whatever the catalog says |
| `SourceScan.ReuseIffDescribes` | internal/sourcecatalog/asset_builder.go:144-157 | an asset is reused exactly when it has the file's path, full path, size and time, and a sidecar variant exactly when it has the file's full path, size, time and coding |
| `SourceSync.SidecarsClashOverImages` | internal/catalog/records.go:53-61 | two different sidecars only ever clash over an image slot |
| `SourceSync.UpsertSettles` | internal/catalog/variant_index.go:40-46 | upserting a sidecar as it should be settles it and unsettles no other, when no image has two |
| `SourceSync.SyncedHasOneSidecarPerImage` | internal/catalog/records.go:53-61 | in a source that some catalog is synced to, no image has two trusted sidecars |
| `SourceSync.SyncableIff` | internal/task/source_rescan.go:116-170 | a catalog synced to a source exists if and only if no image of the source has two trusted sidecars |
| `SourceSync.SyncedIsUnique` | internal/task/source_rescan.go:116-170 | two catalogs synced to one source hold the same assets and sidecars up to metadata |
| `SourceMeaning.SyncedAssets` | internal/sourcecatalog/asset_builder.go:66-157 | in a synced catalog the assets are the regular files that are no sidecars, each with its file's size, media type, hash and etag |
| `SourceMeaning.SyncedSidecars` | internal/sourcecatalog/sidecar_variants.go:31-129 | in a synced catalog the sidecar variants are the non-empty trusted sidecars beside their bases, each with its file's and its base's fields |
| `SourceMeaning.NormalFormIff` | internal/sourcecatalog/scanner.go:222-228 | the normal form of a source path is its trimmed clean form without a leading slash |
| `SourceChanges.SourceRescanChangeSet.RecordAssetDelete` | internal/task/source_rescan_change_set_processing.go:79-94 | the set records the deletion, under the asset or the sidecar, and forgets an earlier write of the asset |
| `SourceChanges.SourceRescanChangeSet.RecordAssetWrite` | internal/task/source_rescan_change_set_processing.go:96-121 | the set records the written file if it is there |
| `SourceChanges.SourceRescanChangeSet.NormalizeIncrementalTargets` | internal/task/source_rescan_change_set.go:45-61 | what is left to process are the written files that are there, without deleted assets and their sidecars |
| `SourceChanges.BuildIncrementalChangeSet` | internal/task/source_rescan_change_set_processing.go:10-77 | a full rescan is asked for exactly when some event is a marker, a rename or ambiguous; else the set holds exactly what the events say |
| `SourceChanges.NothingIsDelete` | internal/task/source_rescan_change_set_processing.go:40-56 | no operation is classified as a deletion, and every one that says "REMOVE" asks for a full rescan |
| `SourceChanges.ClassifyIff` | internal/task/source_rescan_change_set_processing.go:40-56 | an operation asks for a full rescan exactly when it says "MOVE" or "RENAME", and else for a look at the file exactly when it says "CREATE" or "WRITE" |
| `SourceIncrement.DueAfterDeletions` | internal/task/source_rescan_change_set.go:81-99 | once deletions are processed, every sidecar that is gone, or unwritten beside an unchanged asset, is as it should be |
| `SourceIncrement.DueAfterAsset` | internal/task/source_rescan_change_set.go:116-137 | processing an asset settles its unwritten sidecars too and unsettles no other asset's |
| `SourceIncrement.AllAssetsSettled` | internal/task/source_rescan.go:147-170 | covered by events, the assets are those of the source |
| `SourceIncrement.AllSidecarsSettled` | internal/task/source_rescan.go:147-170 | covered by events, the sidecars are those of the source |
| `SourceIncrement.SeenIsAllIff` | internal/task/source_rescan_change_set.go:45-61 | a catalog synced to the source without the deleted assets and their sidecars is synced to the source if and only if no deleted asset is there |
| `SourceIncrement.RecreatedAssetIsLost` | internal/task/source_rescan_change_set.go:45-49 | a change set that deletes and writes one asset covers its changes, and leads to a catalog without the asset |
| `SourceIncrement.EventsDeleteNothing` | internal/task/source_rescan_change_set_processing.go:58-77 | whatever the events, their change set deletes nothing |
| `SourceIncrement.RemovalNeedsFullRescan` | internal/task/source_rescan_change_set_processing.go:40-77 | a batch that removes any path is left to the full rescan |
| `SourceIncrement.ReportedIsCovered` | internal/task/source_rescan_change_set_processing.go:40-77 | events that report every created, written, removed and renamed path by its operation cover the changes or ask for a full rescan |
| `SourceRescan.SourceRescanRun.RemoveSidecarVariants` | internal/task/source_rescan_sidecar.go:70-96 | the sidecar at that path goes and no other |
| `SourceRescan.SourceRescanRun.RebuildSourceSidecarsForAsset` | internal/task/source_rescan_change_set.go:139-190 | an asset without sidecars gets exactly its trusted ones |
| `SourceRescan.SourceRescanRun.UpsertAssetAndSidecars` | internal/task/source_rescan_change_set.go:116-137 | the asset is as it should be; if it was before, nothing changes, else all its sidecars are as they should be |
| `SourceRescan.SourceRescanRun.UpsertSidecarVariant` | internal/task/source_rescan_change_set.go:204-219 | the sidecar is as it should be: upserted when trusted, removed when not |
| `SourceRescan.SourceRescanRun.ProcessDeletedAssets` | internal/task/source_rescan_change_set.go:81-92 | the deleted assets go with their sidecars, and nothing else |
| `SourceRescan.SourceRescanRun.ProcessDeletedSourceSidecars` | internal/task/source_rescan_change_set.go:94-99 | the deleted sidecars go, and every other one stays as it should be |
| `SourceRescan.SourceRescanRun.ProcessChangeSet` | internal/task/source_rescan.go:156-165 | from a catalog synced to an earlier state, any change set that covers the changes leads to a catalog synced to the source without the assets it deletes, which is the whole source if and only if no deleted asset is there |
| `SourceRescan.SourceRescanRun.SyncIncrementally` | internal/task/source_rescan.go:147-170 | asks for a full sync, having changed nothing, exactly when some event does; else, from a catalog synced to an earlier state, events that cover the changes lead to a catalog synced to the state now |
| `SourceRescan.SourceRescanRun.ReconcileSourceSidecars` | internal/task/source_rescan_sidecar.go:12-49 | after reconciliation the sidecars are exactly the source's trusted ones |
| `SourceRescan.SourceRescanRun.SyncFull` | internal/task/source_rescan.go:130-145 | from any consistent catalog whose sidecar records have a sidecar's shape and whose unchanged sizes and times can be trusted, and for a source in which no image has two trusted sidecars, the full sync leads to the same synced catalog |
| `SourceRescan.SourceRescanRun.Sync` | internal/task/source_rescan.go:116-128 | the catalog ends up synced to the source: for a batch that asks for a full rescan whatever the events miss and whatever the catalog was synced to, else as the incremental sync does |
| `Cleanup.CleanupResult.RecordExpiredCleanupRemoval` | internal/pipeline/service_cleanup_result.go:3-9 | the counters still balance against the disk without that file |
| `Cleanup.CleanupResult.RecordSizeCleanupRemoval` | internal/pipeline/service_cleanup_result.go:11-17 | the counters still balance against the disk without that file |
| `Cleanup.CleanupService.RemoveExpiredCleanupFiles` | internal/pipeline/service_cleanup_support.go:99-116 | exactly the expired files that can be removed go |
| `CachePolicy.ExpiredIff` | internal/cachepolicy/artifact.go:72-75 | a file is expired exactly when the positive age of its namespace, else the default one, is exceeded |
| `CachePolicy.LimitIff` | internal/cachepolicy/artifact.go:65-70 | a namespace's limit is its own positive one, else the cache's |
| `Cleanup.LastUseIsLatest` | internal/pipeline/service_cleanup_support.go:216-219 | a file's last use is the later of its own time and its last hit |
| `Cleanup.NamespaceIsFirstSegment` | internal/pipeline/service_cleanup_support.go:207-214 | a file's namespace is the first segment of its path |
| `Cleanup.CleanupService.EvictCleanupFilesBySize` | internal/pipeline/service_cleanup_support.go:140-184 | when removals succeed: the limit holds, no survivor was used before an evicted file, the last eviction was needed, and the list returned is what survived; counters balance in any case |
| `Cleanup.NeverDry` | internal/pipeline/service_cleanup_support.go:163-170 | when removals succeed, an empty heap means nothing is left to count, so the queue never runs dry above a limit |
| `Cleanup.CleanupService.EnforceCleanupCacheLimitByNamespace` | internal/pipeline/service_cleanup_support.go:118-134 | when removals succeed, every namespace is evicted down to its own limit, in any order of namespaces |
| `Cleanup.LimitsHold` | internal/pipeline/service_cleanup_support.go:186-189 | evicting for the whole cache afterwards keeps every namespace within its limit |
| `Cleanup.CleanupService.CleanupArtifacts` | internal/pipeline/service_cleanup_support.go:68-97 | removed plus remaining bytes are the scanned bytes whatever fails; when removals succeed, no file is left whose own time and last hit both exceed the age that holds for its namespace, and the namespace and cache limits hold; when the limits hold without the expired files, exactly those that can be removed go |
| `BundlePath.CleanBundlePathForm` | internal/spackbundle/path.go:13-54 | an accepted path is clean, relative, portable, free of backslashes and zero bytes, and outside the metadata namespace |
| `BundlePathMeaning.CleanBundlePathIff` | internal/spackbundle/path.go:13-49 | a path is accepted exactly when it is relative, free of backslashes and zero bytes, outside the metadata namespace once clean, and made of portable segments |
| `BundlePathMeaning.PortableIff` | pkg/path_policy.go:45-56 | a segment is portable exactly when it is not empty, has no colon, ends in neither dot nor space, and does not name a device, with or without an extension and in any letter case |
| `BundlePathMeaning.FileNamesAreAccepted` | internal/spackbundle/path.go:13-49 | a plain name with a plain extension is accepted as it is, unless the name is a device |
| `BundlePath.CleanAgainIffTrimmed` | internal/spackbundle/path.go:13-23 | cleaning an accepted path again keeps it if and only if it has no outer white space |
| `BundlePath.ExposedSpaceIsTrimmedAgain` | internal/spackbundle/path.go:13-23 | "./ a" cleans to " a", which cleans to "a" |
| `BundlePath.TarEntryPathForm` | internal/spackbundle/tar_entry.go:98-110 | an entry's path is the index's, exactly when its name cleans to it, or has the normal form |
| `BundleIndex.BundleBudget.Add` | internal/spackbundle/limits.go:40-53 | admits a size exactly when the longer list of sizes keeps both limits |
| `BundleIndex.HexRoundTrip` | internal/spackbundle/tar_entry.go:82-88 | hexadecimal encoding decodes to the same bytes |
| `BundleIndex.BigEndianRoundTrip` | internal/spackbundle/index.go:62-81 | the size field reads back as the number written |
| `BundleIndex.FrameRoundTrip` | internal/spackbundle/index.go:45-99 | a framed index is within the limit and unframes to the same index, stamped with the format |
| `BundleIndex.AcceptedFrame` | internal/spackbundle/index.go:68-99 | only the magic, the payload's length and exactly that payload are accepted |
| `BundleIndex.ValidateIndex` | internal/spackbundle/tar_entry.go:44-88 | accepts exactly indexes within the limits whose paths are normal and different and whose digests have their length |
| `BundleIndex.IndexFileMap` | internal/spackbundle/tar_entry.go:90-96 | the map lists exactly the index's files by path |
| `BundleMeaning.ValidIndexFileIff` | internal/spackbundle/tar_entry.go:44-88 | a file of an index is valid exactly when its path is acceptable and clean, its size within the limit and its digest 64 hexadecimal digits |
| `BundleMeaning.HexEncodeDigits` | internal/spackbundle/tar_entry.go:82-88 | digests are written in lower case, the high digit of each byte first |
| `BundleMeaning.FormatConstants` | internal/spackbundle/limits.go:5-11 | the magic and the limits, spelled out |
| `BundleVerify.ReadBundleIndex` | internal/spackbundle/tar_entry.go:15-42 | succeeds exactly when the first entry is a whole regular index entry with a valid index |
| `BundleMeaning.WholeIff` | internal/spackbundle/tar_entry.go:15-42 | an entry is read whole exactly when it is a regular file of its stated size within the bound |
| `BundleMeaning.EntryPathIff` | internal/spackbundle/tar_entry.go:98-110 | an entry's name stands for the index, or, outside the metadata namespace, for the acceptable path it cleans to |
| `BundleVerify.VerifyBundleEntries` | internal/spackbundle/verify.go:44-85 | accepts exactly the entries that cover the index map; the budget never refuses such entries |
| `BundleVerify.MatchedFits` | internal/spackbundle/limits.go:40-53 | entries matched to a valid index keep the limits the index kept |
| `BundleVerify.CorrespondsIsOneToOne` | internal/spackbundle/verify.go:70-100 | covering the index map is corresponding one to one with its files, with equal size and digest |
| `BundleVerify.Verify` | internal/spackbundle/verify.go:26-42 | accepts exactly the streams that open with a valid index and whose other entries correspond one to one with its files |
| `BundleVerify.AcceptedStructure` | internal/spackbundle/verify.go:44-133 | in an accepted stream only the first entry stands for the index, there are as many other entries as files, and their number and bytes are within the limits |
| `BundleWrite.NormalizeFiles` | internal/spackbundle/write_input.go:51-87 | succeeds exactly on inputs whose paths clean to different paths and can be stated; the result is sorted by path |
| `BundleWrite.ValidateBundleFiles` | internal/spackbundle/limits.go:55-69 | accepts exactly files within count, single-size and total limits |
| `BundleWrite.WritePreparedBundleFile` | internal/spackbundle/write_payload.go:87-118 | writes exactly when the copied bytes have the stated size and the hashed digest |
| `BundleWrite.Write` | internal/spackbundle/write.go:56-97 | succeeds exactly on writable inputs, with the index first and the files in path order after it |
| `BundleMeaning.WritableIff` | internal/spackbundle/write.go:56-97 | in terms of the inputs' own fields: they can be written exactly when their paths are acceptable and clean to different paths, the three visits to each agree in size and digest, and files and index are within the limits |
| `BundleRead.Reader.ReadIndex` | internal/spackbundle/reader.go:56-80 | the cached index is the stream's |
| `BundleRead.Reader.ReadFile` | internal/spackbundle/reader.go:83-96 | the bytes are those a scan of the stream finds and the index vouches for, cached index or not |
| `BundleRead.ReadBundleEntry` | internal/spackbundle/reader.go:138-169 | the loop gives the first entry of the path, provided the names before it are acceptable |
| `BundleRead.AcceptedIndexIsRead` | internal/spackbundle/reader.go:56-80 | a reader of an accepted stream finds the verified index |
| `BundleRead.AcceptedFilesAreRead` | internal/spackbundle/reader.go:83-136 | in an accepted stream every file of the index reads as its entry's bytes, by any spelling of its path, and any other path does not exist |
| `BundleExtract.ExtractBundleEntries` | internal/spackbundle/extract.go:130-208 | succeeds exactly when the entries cover the index map and none lies below another |
| `BundleExtract.ExtractBundleStream` | internal/spackbundle/extract.go:107-156 | extraction into an empty root succeeds exactly on the streams Verify accepts in which no file lies below another |
| `BundleExtract.RoomIffApart` | internal/spackbundle/extract.go:177-208 | making the directories and creating the file succeed exactly when the path neither lies below nor above nor on an earlier one |
| `BundleExtract.ExtractedTree` | internal/spackbundle/extract.go:130-208 | the extracted tree has a file at exactly the index's paths and a directory at exactly the places above them |
| `BundleExtract.ExtractedContents` | internal/spackbundle/extract.go:194-208 | each file of the tree holds its entry's bytes |
| `BundleRoundTrip.WriteThenVerify` | internal/spackbundle/write.go:56-97 | for every writable input, the written stream is accepted if and only if no cleaned path has outer white space, and then with the written index |
| `BundleRoundTrip.WriteThenRead` | internal/spackbundle/reader.go:83-96 | reading a written file by any spelling of its path gives the bytes that were copied |
| `BundleRoundTrip.WriteThenExtract` | internal/spackbundle/extract.go:130-208 | extracting a written bundle gives every file its copied bytes at its place |
| `BundleRoundTrip.WriteThenExtractIsExact` | internal/spackbundle/extract.go:130-208 | it leaves exactly the written files, and succeeds exactly when no written path is a directory prefix of another |

## Left out

- HTTP serving, headers, middleware, events, metrics, logging and configuration: thin wrappers and I/O.
- Symbolic links, permissions, replaced roots and real I/O errors: files are maps, and a visit to a file may fail as a whole.
- White space and letter case outside ASCII, and paths on systems whose separator is not the slash.
- NaN as a quality value: weights are real numbers. Parsing the digits of a weight is a parameter.
- SHA-256, JSON, tar and zstd bytes: an uninterpreted digest of 32 bytes, an inverse pair, and a sequence of entries.
- Concrete sorting algorithms: lists are sorted by insertion; the sorted lists are unique, so the algorithm does not show. Ties of the cleanup's heap are left open.
- Completing a variant's metadata from the file system, and caching and compiling of bodies beyond their budget.
- Failed compilations and anything after stop in the rebuild protocol; the shutdown of the pipeline's workers beyond the channel handshake.
- Counters of the rescan report and invalidation of the body cache and artifact files. The report's total bytes count all scanned files in a full rescan but assets only in an incremental one.
- Explicit variants of bundle sources in scans: directory sources have none.
- PreparedRoutes.PreparedRoute.Finalize: the built route is then used as a value; no later change to it is modelled, as the source makes none.
- CatalogMeaning.UpsertedVariants: for asset paths without zero bytes, as a zero byte separates path and identifier in a record's key.
- CatalogMeaning.DefaultIdentifiersTell: for fields without bars, as bars separate them.
- ResolverPickers.UsabilityCache.IsUsable: for assets whose variants of one cache key are all usable or all not, because the cache is keyed by ID, else by artifact path; only an asset with a blank path can break this (ResolverPickers.IDsTellUsability).
- PreparedAgreement.Resolve: for catalogs whose variants are each purely encoding or purely image with a canonical format and for a clean entry, because other variants are filed differently by the two sides.
- SourceRescan.SourceRescanRun.SyncIncrementally: for sources whose paths, and events whose paths once normalised, are in normal form, for sources whose sidecar-suffixed files have a base that is no sidecar, and in which no image asset has two trusted sidecars; the source is taken not to change during the sync.
- Cleanup.CleanupService.EvictCleanupFilesBySize: the order of eviction and the limit are claimed when removals succeed; with failed removals only the balance of the counters is.
- Cleanup.CleanupService.CleanupArtifacts: paths are relative to the cache directory, and the catalog's forgetting of a removed artifact is not repeated here.
- BundleExtract.ExtractBundleStream: the check that a target lies inside the root never fails for a normal path and is not modelled; what a failed extraction leaves behind is not described.
- BundleWrite.Write: cancellation, the temporary file and its renaming are not modelled.
- WorkerPool.NeverStuck: for a pool with items; fairness, and so termination, is not claimed.
