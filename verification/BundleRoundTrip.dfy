/** What is written can be verified, read and extracted again. */
module BundleRoundTrip {
  import opened Basics
  import opened BundlePath
  import opened BundleIndex
  import opened BundleVerify
  import opened BundleWrite
  import opened BundleRead
  import opened BundleExtract
  import opened Sorting

  /** The files of a bundle, in the order they are written. */
  function FilesOf(sources: seq<Source>): seq<File>
    requires AllNormalizable(sources, CleanBundlePath)
  {
    SortBy(Normals(sources, CleanBundlePath), ByPath)
  }

  /** The index as it is read back: stamped with the format. */
  function StampedIndex(files: seq<File>, createdAt: int, library: Library): Index
    requires AllHashable(files)
  {
    BuildIndex(files, createdAt, library).(apiVersion := FORMAT_VERSION, kind := INDEX_KIND)
  }

  predicate Trimmable(path: string) {
    TrimSpace(path) == path
  }

  // ---- Sorting keeps the files and their distinct paths -----------------------------------------

  lemma {:induction false} SortKeepsFiles(files: seq<File>, file: File)
    ensures file in SortBy(files, ByPath) <==> file in files
  {
    if files != [] {
      SortKeepsFiles(files[1..], file);
      InsertElements(files[0], SortBy(files[1..], ByPath), ByPath);
      assert file in SortBy(files, ByPath) <==> file in multiset(SortBy(files, ByPath));
      assert file in files <==> file == files[0] || file in files[1..];
    }
  }

  lemma {:induction false} InsertKeepsDistinct(file: File, files: seq<File>)
    requires DistinctFiles(files) && file.path !in CleanPaths(files)
    ensures DistinctFiles(Insert(file, files, ByPath)) && CleanPaths(Insert(file, files, ByPath)) == CleanPaths(files) + {file.path}
  {
    if files == [] || ByPath(file, files[0]) {
      FirstFile(file, files);
    } else {
      FirstFile(files[0], files[1..]);
      assert files == [files[0]] + files[1..];
      InsertKeepsDistinct(file, files[1..]);
      FirstFile(files[0], Insert(file, files[1..], ByPath));
    }
  }

  lemma FirstFile(first: File, rest: seq<File>)
    ensures CleanPaths([first] + rest) == CleanPaths(rest) + {first.path}
    ensures DistinctFiles([first] + rest) <==> DistinctFiles(rest) && first.path !in CleanPaths(rest)
  {
    var all := [first] + rest;
    assert all[0] == first && all[1..] == rest;
    assert forall f :: f in all <==> f == first || f in rest;
    if DistinctFiles(rest) && first.path !in CleanPaths(rest) {
      forall i, j | 0 <= i < j < |all| ensures all[i].path != all[j].path {
        assert all[j] == rest[j - 1] && rest[j - 1] in rest;
        if i > 0 {
          assert all[i] == rest[i - 1];
        }
      }
    }
    if DistinctFiles(all) {
      forall i, j | 0 <= i < j < |rest| ensures rest[i].path != rest[j].path {
        assert all[i + 1] == rest[i] && all[j + 1] == rest[j];
      }
      forall f | f in rest ensures f.path != first.path {
        var k :| 0 <= k < |rest| && rest[k] == f;
        assert all[k + 1] == f;
      }
    }
  }

  lemma {:induction false} SortKeepsDistinct(files: seq<File>)
    requires DistinctFiles(files)
    ensures DistinctFiles(SortBy(files, ByPath)) && CleanPaths(SortBy(files, ByPath)) == CleanPaths(files)
  {
    if files != [] {
      assert files == [files[0]] + files[1..];
      FirstFile(files[0], files[1..]);
      SortKeepsDistinct(files[1..]);
      InsertKeepsDistinct(files[0], SortBy(files[1..], ByPath));
    }
  }

  // ---- The written stream against the verifier ---------------------------------------------

  /** Every path came out of the path rule. */
  predicate Cleaned(files: seq<File>) {
    forall i {:trigger IsCleaned(files[i])} :: 0 <= i < |files| ==> IsCleaned(files[i])
  }

  predicate IsCleaned(file: File) {
    CleanBundlePath(file.source.path) == Ok(file.path)
  }

  predicate AllTrimmable(files: seq<File>) {
    forall i :: 0 <= i < |files| ==> Trimmable(files[i].path)
  }

  lemma FilesAreCleaned(sources: seq<Source>)
    requires AllNormalizable(sources, CleanBundlePath)
    ensures Cleaned(FilesOf(sources))
    ensures forall i :: 0 <= i < |sources| ==> Normal(sources[i], CleanBundlePath) in FilesOf(sources)
    ensures forall f :: f in FilesOf(sources) ==> exists i :: 0 <= i < |sources| && f == Normal(sources[i], CleanBundlePath)
  {
    SortedNormals(sources, CleanBundlePath);
  }

  lemma SortedNormals(sources: seq<Source>, clean: Cleaning)
    requires AllNormalizable(sources, clean)
    ensures var files := SortBy(Normals(sources, clean), ByPath);
            && (forall i :: 0 <= i < |files| ==> clean(files[i].source.path) == Ok(files[i].path))
            && (forall i :: 0 <= i < |sources| ==> Normal(sources[i], clean) in files)
            && (forall f :: f in files ==> exists i :: 0 <= i < |sources| && f == Normal(sources[i], clean))
  {
    var normals := Normals(sources, clean);
    var files := SortBy(normals, ByPath);
    forall i | 0 <= i < |sources| ensures Normal(sources[i], clean) in files {
      assert normals[i] == Normal(sources[i], clean);
      SortKeepsFiles(normals, normals[i]);
    }
    forall f | f in files ensures exists i :: 0 <= i < |sources| && f == Normal(sources[i], clean) {
      SortKeepsFiles(normals, f);
      var i :| 0 <= i < |normals| && normals[i] == f;
    }
    forall k | 0 <= k < |files| ensures clean(files[k].source.path) == Ok(files[k].path) {
      assert files[k] in files;
      var i :| 0 <= i < |sources| && files[k] == Normal(sources[i], clean);
      assert Normalizable(sources[i], clean);
    }
  }

  /** The index that was written is valid exactly when no path has outer white space. */
  lemma WrittenIndexIsValid(files: seq<File>, createdAt: int, limits: Limits, library: Library)
    requires library.Sound() && Cleaned(files) && DistinctFiles(files) && AllHashable(files) && WithinLimits(files, limits)
    ensures ValidIndex(StampedIndex(files, createdAt, library), limits) <==> AllTrimmable(files)
  {
    var index := StampedIndex(files, createdAt, library);
    assert Sizes(index.files) == FileSizes(files);
    forall i | 0 <= i < |files| ensures ValidIndexFile(index.files[i], limits) <==> Trimmable(files[i].path) {
      assert IsCleaned(files[i]);
      WrittenFileIsValid(files[i], limits, library);
    }
    if AllTrimmable(files) {
      forall i, j | 0 <= i < j < |files| ensures index.files[i].path != index.files[j].path {
        assert files[i].path != files[j].path;
      }
    }
    if ValidIndex(index, limits) {
      forall i | 0 <= i < |files| ensures Trimmable(files[i].path) {
        assert ValidIndexFile(index.files[i], limits);
      }
    }
  }

  lemma WrittenFileIsValid(file: File, limits: Limits, library: Library)
    requires library.Sound() && IsCleaned(file) && Hashable(file) && file.size <= limits.fileBytes
    ensures ValidIndexFile(IndexFileOf(file, library), limits) <==> Trimmable(file.path)
  {
    CleanAgainIffTrimmed(file.source.path);
    HexRoundTrip(library.digest(file.source.hashed.value));
  }

  lemma CleanedIsItsOwn(file: File)
    requires IsCleaned(file) && Trimmable(file.path)
    ensures CleanTarEntryPath(file.path) == Ok(file.path)
  {
    CleanBundlePathForm(file.source.path);
    FormIsFixed(file.path);
  }

  lemma WrittenPathsAreTheirOwn(files: seq<File>)
    requires Cleaned(files) && AllTrimmable(files)
    ensures forall i :: 0 <= i < |files| ==> CleanTarEntryPath(files[i].path) == Ok(files[i].path)
  {
    forall i | 0 <= i < |files| ensures CleanTarEntryPath(files[i].path) == Ok(files[i].path) {
      assert IsCleaned(files[i]);
      CleanedIsItsOwn(files[i]);
    }
  }

  lemma PayloadsCorrespond(files: seq<File>, createdAt: int, rules: Rules)
    requires DistinctFiles(files) && AllCopyable(files, rules.library)
    requires forall i :: 0 <= i < |files| ==> rules.naming(files[i].path) == Ok(files[i].path)
    ensures OneToOne(PayloadEntries(files, rules.library), StampedIndex(files, createdAt, rules.library).files, rules)
  {
    var entries, indexed := PayloadEntries(files, rules.library), StampedIndex(files, createdAt, rules.library).files;
    forall k | 0 <= k < |files| ensures Carries(entries[k], indexed[k], rules) {
    }
    forall k | 0 <= k < |entries| ensures HasFile(entries[k], indexed, rules) {
      assert Carries(entries[k], indexed[k], rules);
    }
    forall i | 0 <= i < |indexed| ensures HasEntry(indexed[i], entries, rules) {
      assert Carries(entries[i], indexed[i], rules);
    }
    forall j, k | 0 <= j < k < |entries| ensures rules.naming(entries[j].name) != rules.naming(entries[k].name) {
      assert files[j].path != files[k].path;
    }
  }

  lemma WrittenOpens(files: seq<File>, createdAt: int, limits: Limits, library: Library)
    requires library.Sound() && WritableFiles(files, createdAt, limits, library)
    ensures var stream := StreamOf(files, createdAt, limits, library);
            && stream[1..] == PayloadEntries(files, library)
            && CleanTarEntryPath(stream[0].name) == Ok(INDEX_PATH)
            && Whole(stream[0], limits.indexBytes)
            && UnmarshalIndex(stream[0].content, limits, library) == Ok(StampedIndex(files, createdAt, library))
  {
    IndexPathIsItself();
    FrameRoundTrip(BuildIndex(files, createdAt, library), limits, library);
  }

  lemma WrittenFilesAreAccepted(files: seq<File>, createdAt: int, limits: Limits, library: Library)
    requires library.Sound() && WritableFiles(files, createdAt, limits, library) && Cleaned(files) && DistinctFiles(files)
    ensures var stream, index := StreamOf(files, createdAt, limits, library), StampedIndex(files, createdAt, library);
            && (Accepts(stream, index, limits, library) <==> AllTrimmable(files))
            && forall other :: Accepts(stream, other, limits, library) ==> other == index
  {
    WrittenOpens(files, createdAt, limits, library);
    WrittenIndexIsValid(files, createdAt, limits, library);
    if AllTrimmable(files) {
      WrittenPathsAreTheirOwn(files);
      PayloadsCorrespond(files, createdAt, RulesOf(library));
    }
  }

  // ---- The round trips ------------------------------------------------------------------------

  lemma WritableFacts(sources: seq<Source>, createdAt: int, limits: Limits, library: Library)
    requires Writable(sources, createdAt, limits, library)
    ensures Cleaned(FilesOf(sources)) && DistinctFiles(FilesOf(sources))
    ensures AllTrimmable(FilesOf(sources)) <==>
              forall i :: 0 <= i < |sources| ==> Trimmable(CleanBundlePath(sources[i].path).value)
  {
    var files := FilesOf(sources);
    FilesAreCleaned(sources);
    SortKeepsDistinct(Normals(sources, CleanBundlePath));
    if AllTrimmable(files) {
      forall i | 0 <= i < |sources| ensures Trimmable(CleanBundlePath(sources[i].path).value) {
        var f := Normal(sources[i], CleanBundlePath);
        assert f in files;
        var k :| 0 <= k < |files| && files[k] == f;
      }
    }
    if forall i :: 0 <= i < |sources| ==> Trimmable(CleanBundlePath(sources[i].path).value) {
      forall k | 0 <= k < |files| ensures Trimmable(files[k].path) {
        assert files[k] in files;
      }
    }
  }

  /** Whatever is written verifies exactly when no cleaned path has outer white space; the
      verified index lists the written files. */
  lemma WriteThenVerify(sources: seq<Source>, createdAt: int, limits: Limits, library: Library)
    requires library.Sound() && Writable(sources, createdAt, limits, library)
    ensures var stream := StreamOf(FilesOf(sources), createdAt, limits, library);
            (exists index :: Accepts(stream, index, limits, library)) <==>
            (forall i :: 0 <= i < |sources| ==> Trimmable(CleanBundlePath(sources[i].path).value))
    ensures var stream := StreamOf(FilesOf(sources), createdAt, limits, library);
            forall index :: Accepts(stream, index, limits, library) ==> index == StampedIndex(FilesOf(sources), createdAt, library)
  {
    WritableFacts(sources, createdAt, limits, library);
    WrittenFilesAreAccepted(FilesOf(sources), createdAt, limits, library);
  }

  /** Reading a written file, by any spelling of its path, gives the bytes that were copied. */
  lemma WriteThenRead(sources: seq<Source>, createdAt: int, limits: Limits, library: Library, i: nat, raw: string)
    requires library.Sound() && Writable(sources, createdAt, limits, library) && i < |sources|
    requires forall j :: 0 <= j < |sources| ==> Trimmable(CleanBundlePath(sources[j].path).value)
    requires CleanBundlePath(raw) == CleanBundlePath(sources[i].path)
    ensures sources[i].copied.Some?
    ensures FileBody(StreamOf(FilesOf(sources), createdAt, limits, library), raw, limits, library) == Ok(sources[i].copied.value)
  {
    var files, f := FilesOf(sources), Normal(sources[i], CleanBundlePath);
    WritableFacts(sources, createdAt, limits, library);
    FilesAreCleaned(sources);
    var n :| 0 <= n < |files| && files[n] == f;
    WrittenBody(files, createdAt, limits, library, n);
  }

  lemma WrittenBody(files: seq<File>, createdAt: int, limits: Limits, library: Library, n: nat)
    requires library.Sound() && WritableFiles(files, createdAt, limits, library) && Cleaned(files) && DistinctFiles(files)
    requires AllTrimmable(files) && n < |files|
    ensures BodyAt(StreamOf(files, createdAt, limits, library), files[n].path, limits, RulesOf(library)) == Ok(files[n].source.copied.value)
  {
    WrittenIndexIsValid(files, createdAt, limits, library);
    IndexPathIsNoFile(StampedIndex(files, createdAt, library).files, limits);
    assert StampedIndex(files, createdAt, library).files[n].path == files[n].path;
    WrittenPathsAreTheirOwn(files);
    IndexPathIsItself();
    BodyByRules(files, createdAt, limits, RulesOf(library), n);
  }

  /** Whatever way names are read, as long as the index's and the files' stand for themselves. */
  lemma BodyByRules(files: seq<File>, createdAt: int, limits: Limits, rules: Rules, n: nat)
    requires rules.library.Sound() && WritableFiles(files, createdAt, limits, rules.library) && DistinctFiles(files) && n < |files|
    requires ValidIndex(StampedIndex(files, createdAt, rules.library), limits)
    requires rules.naming(INDEX_PATH) == Ok(INDEX_PATH) && files[n].path != INDEX_PATH
    requires forall i :: 0 <= i < |files| ==> rules.naming(files[i].path) == Ok(files[i].path)
    ensures BodyAt(StreamOf(files, createdAt, limits, rules.library), files[n].path, limits, rules) == Ok(files[n].source.copied.value)
  {
    var stream, index := StreamOf(files, createdAt, limits, rules.library), StampedIndex(files, createdAt, rules.library);
    WrittenOpens(files, createdAt, limits, rules.library);
    PayloadsCorrespond(files, createdAt, rules);
    PayloadCarries(files[n], rules);
    assert stream[n + 1] == PayloadEntry(files[n], rules.library);
    BodyOfEntry(stream, index, limits, rules, n + 1, n, files[n].path, files[n].source.copied.value);
  }

  lemma PayloadCarries(file: File, rules: Rules)
    requires Copyable(file, rules.library) && rules.naming(file.path) == Ok(file.path)
    ensures Carries(PayloadEntry(file, rules.library), IndexFileOf(file, rules.library), rules)
  {
  }

  /** Extracting a written bundle gives every file its copied bytes at its place. */
  lemma WriteThenExtract(sources: seq<Source>, createdAt: int, limits: Limits, library: Library, i: nat)
    requires library.Sound() && Writable(sources, createdAt, limits, library) && i < |sources|
    requires forall j :: 0 <= j < |sources| ==> Trimmable(CleanBundlePath(sources[j].path).value)
    ensures sources[i].copied.Some?
    ensures var tree := TreeOf(StreamOf(FilesOf(sources), createdAt, limits, library)[1..], RulesOf(library));
            var place := PlaceOf(CleanBundlePath(sources[i].path).value);
            place in tree.files && tree.files[place] == sources[i].copied.value
  {
    var files, f := FilesOf(sources), Normal(sources[i], CleanBundlePath);
    WritableFacts(sources, createdAt, limits, library);
    WrittenFilesAreAccepted(files, createdAt, limits, library);
    FilesAreCleaned(sources);
    var n :| 0 <= n < |files| && files[n] == f;
    WrittenPlace(files, createdAt, limits, library, n);
  }

  lemma WrittenPlace(files: seq<File>, createdAt: int, limits: Limits, library: Library, n: nat)
    requires library.Sound() && WritableFiles(files, createdAt, limits, library) && Cleaned(files) && DistinctFiles(files)
    requires AllTrimmable(files) && n < |files|
    ensures var tree, place := TreeOf(StreamOf(files, createdAt, limits, library)[1..], RulesOf(library)), PlaceOf(files[n].path);
            place in tree.files && tree.files[place] == files[n].source.copied.value
  {
    var stream, index := StreamOf(files, createdAt, limits, library), StampedIndex(files, createdAt, library);
    WrittenFilesAreAccepted(files, createdAt, limits, library);
    ExtractedContents(stream[1..], index.files, RulesOf(library), n);
    WrittenPathsAreTheirOwn(files);
    assert stream[n + 1] == PayloadEntry(files[n], library);
  }

  /** The places the inputs are written to. */
  function SourcePlaces(sources: seq<Source>): set<Place>
    requires AllNormalizable(sources, CleanBundlePath)
  {
    set i | 0 <= i < |sources| :: PlaceOf(CleanBundlePath(sources[i].path).value)
  }

  function IndexPlaces(files: seq<IndexFile>): set<Place> {
    set i | 0 <= i < |files| :: PlaceOf(files[i].path)
  }

  /** Extraction leaves exactly the written files, and succeeds exactly when none of their
      paths is a directory prefix of another. */
  lemma WriteThenExtractIsExact(sources: seq<Source>, createdAt: int, limits: Limits, library: Library)
    requires library.Sound() && Writable(sources, createdAt, limits, library)
    requires forall j :: 0 <= j < |sources| ==> Trimmable(CleanBundlePath(sources[j].path).value)
    ensures TreeOf(StreamOf(FilesOf(sources), createdAt, limits, library)[1..], RulesOf(library)).files.Keys == SourcePlaces(sources)
    ensures NoFileBelow(StampedIndex(FilesOf(sources), createdAt, library).files) <==>
            forall p, q :: p in SourcePlaces(sources) && q in SourcePlaces(sources) ==> !Below(p, q)
  {
    var files := FilesOf(sources);
    var index, stream := StampedIndex(files, createdAt, library), StreamOf(files, createdAt, limits, library);
    WritableFacts(sources, createdAt, limits, library);
    WrittenFilesAreAccepted(files, createdAt, limits, library);
    PlacesAgree(sources, createdAt, library);
    forall place ensures place in TreeOf(stream[1..], RulesOf(library)).files <==> place in IndexPlaces(index.files) {
      ExtractedTree(stream, index, limits, library, place);
    }
    NoPlaceBelow(index.files);
  }

  lemma NoPlaceBelow(files: seq<IndexFile>)
    ensures NoFileBelow(files) <==> forall p, q :: p in IndexPlaces(files) && q in IndexPlaces(files) ==> !Below(p, q)
  {
    forall i | 0 <= i < |files| ensures PlaceOf(files[i].path) in IndexPlaces(files) {
    }
  }

  lemma PlacesAgree(sources: seq<Source>, createdAt: int, library: Library)
    requires AllNormalizable(sources, CleanBundlePath) && AllHashable(FilesOf(sources))
    ensures IndexPlaces(StampedIndex(FilesOf(sources), createdAt, library).files) == SourcePlaces(sources)
  {
    var files := FilesOf(sources);
    var indexed := StampedIndex(files, createdAt, library).files;
    forall p | p in IndexPlaces(indexed) ensures p in SourcePlaces(sources) {
      var k :| 0 <= k < |indexed| && PlaceOf(indexed[k].path) == p;
      var i := SourceOf(sources, k);
    }
    forall p | p in SourcePlaces(sources) ensures p in IndexPlaces(indexed) {
      var i :| 0 <= i < |sources| && PlaceOf(CleanBundlePath(sources[i].path).value) == p;
      var k := FileFrom(sources, i);
      assert indexed[k].path == files[k].path;
    }
  }

  lemma SourceOf(sources: seq<Source>, k: nat) returns (i: nat)
    requires AllNormalizable(sources, CleanBundlePath) && k < |FilesOf(sources)|
    ensures i < |sources| && FilesOf(sources)[k].path == CleanBundlePath(sources[i].path).value
  {
    FilesAreCleaned(sources);
    assert FilesOf(sources)[k] in FilesOf(sources);
    i :| 0 <= i < |sources| && FilesOf(sources)[k] == Normal(sources[i], CleanBundlePath);
  }

  lemma FileFrom(sources: seq<Source>, i: nat) returns (k: nat)
    requires AllNormalizable(sources, CleanBundlePath) && i < |sources|
    ensures k < |FilesOf(sources)| && FilesOf(sources)[k].path == CleanBundlePath(sources[i].path).value
  {
    FilesAreCleaned(sources);
    k :| 0 <= k < |FilesOf(sources)| && FilesOf(sources)[k] == Normal(sources[i], CleanBundlePath);
  }
}
