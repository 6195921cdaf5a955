/** Writing a bundle (internal/spackbundle/write.go, write_input.go, write_payload.go):
    normalised inputs, a pass that hashes them, a pass that copies them. */
module BundleWrite {
  import opened Basics
  import opened BundlePath
  import opened BundleIndex
  import opened BundleVerify
  import opened Sorting

  /** A file to embed, and what the three visits to it find: its size when it is stated,
      its bytes when it is hashed and its bytes when it is copied, or None when a visit fails. */
  datatype Source = Source(
    path: string,
    metadata: Metadata,
    stated: Option<nat>,
    hashed: Option<seq<byte>>,
    copied: Option<seq<byte>>)

  /** A normalised input. */
  datatype File = File(path: string, size: nat, source: Source)

  datatype Written = Written(stream: seq<Entry>, files: nat, bytes: int)

  predicate ByPath(a: File, b: File) {
    StringLeq(a.path, b.path)
  }

  /** A rule that cleans paths: CleanBundlePath wherever inputs are written. */
  type Cleaning = string -> Result<string, PathError>

  // ---- What writing produces --------------------------------------------------------------

  predicate Normalizable(source: Source, clean: Cleaning) {
    clean(source.path).Ok? && source.stated.Some?
  }

  predicate AllNormalizable(sources: seq<Source>, clean: Cleaning) {
    forall i :: 0 <= i < |sources| ==> Normalizable(sources[i], clean)
  }

  function Normal(source: Source, clean: Cleaning): File
    requires Normalizable(source, clean)
  {
    File(clean(source.path).value, source.stated.value, source)
  }

  function Normals(sources: seq<Source>, clean: Cleaning): (files: seq<File>)
    requires AllNormalizable(sources, clean)
    ensures |files| == |sources|
  {
    seq(|sources|, i requires 0 <= i < |sources| => Normal(sources[i], clean))
  }

  predicate DistinctFiles(files: seq<File>) {
    forall i, j :: 0 <= i < j < |files| ==> files[i].path != files[j].path
  }

  /** The hash pass saw as many bytes as were stated. */
  predicate Hashable(file: File) {
    file.source.hashed.Some? && |file.source.hashed.value| == file.size
  }

  /** The copy pass saw bytes of the same length and digest. */
  predicate Copyable(file: File, library: Library) {
    && Hashable(file)
    && file.source.copied.Some? && |file.source.copied.value| == file.size
    && library.Sha(file.source.copied.value) == library.Sha(file.source.hashed.value)
  }

  function IndexFileOf(file: File, library: Library): IndexFile
    requires Hashable(file)
  {
    IndexFile(file.path, file.size, library.Sha(file.source.hashed.value), file.source.metadata)
  }

  function FileSizes(files: seq<File>): (sizes: seq<int>)
    ensures |sizes| == |files|
  {
    seq(|files|, i requires 0 <= i < |files| => files[i].size)
  }

  predicate WithinLimits(files: seq<File>, limits: Limits) {
    && |files| <= limits.files
    && (forall i :: 0 <= i < |files| ==> files[i].size <= limits.fileBytes)
    && Fits(FileSizes(files), limits)
  }

  predicate AllHashable(files: seq<File>) {
    forall i :: 0 <= i < |files| ==> Hashable(files[i])
  }

  predicate AllCopyable(files: seq<File>, library: Library) {
    forall i :: 0 <= i < |files| ==> Copyable(files[i], library)
  }

  /** buildIndex. */
  function BuildIndex(files: seq<File>, createdAt: int, library: Library): Index
    requires AllHashable(files)
  {
    Index("", "", createdAt, seq(|files|, i requires 0 <= i < |files| => IndexFileOf(files[i], library)))
  }

  function PayloadEntry(file: File, library: Library): Entry
    requires Copyable(file, library)
  {
    Entry(file.path, true, file.size, file.source.copied.value)
  }

  function PayloadEntries(files: seq<File>, library: Library): (entries: seq<Entry>)
    requires AllCopyable(files, library)
    ensures |entries| == |files|
  {
    seq(|files|, i requires 0 <= i < |files| => PayloadEntry(files[i], library))
  }

  /** The inputs that can be written. */
  predicate Writable(sources: seq<Source>, createdAt: int, limits: Limits, library: Library) {
    && AllNormalizable(sources, CleanBundlePath)
    && DistinctFiles(Normals(sources, CleanBundlePath))
    && WritableFiles(SortBy(Normals(sources, CleanBundlePath), ByPath), createdAt, limits, library)
  }

  predicate WritableFiles(files: seq<File>, createdAt: int, limits: Limits, library: Library) {
    && WithinLimits(files, limits)
    && AllCopyable(files, library)
    && MarshalIndex(BuildIndex(files, createdAt, library), limits, library).Ok?
  }

  /** The written stream: the index, then the files in path order. */
  function StreamOf(files: seq<File>, createdAt: int, limits: Limits, library: Library): seq<Entry>
    requires WritableFiles(files, createdAt, limits, library)
  {
    var body := MarshalIndex(BuildIndex(files, createdAt, library), limits, library).value;
    [Entry(INDEX_PATH, true, |body|, body)] + PayloadEntries(files, library)
  }

  // ---- The writer -----------------------------------------------------------------------

  function CleanPaths(files: seq<File>): set<string> {
    set f | f in files :: f.path
  }

  method NormalizeFile(source: Source, seen: set<string>) returns (result: Result<File, BundleError>)
    ensures result.Ok? <==> Normalizable(source, CleanBundlePath) && CleanBundlePath(source.path).value !in seen
    ensures result.Ok? ==> result.value == Normal(source, CleanBundlePath)
  {
    var path := CleanBundlePath(source.path);
    if path.Err? {
      return Err(BadPath(path.error));
    }
    if path.value in seen {
      return Err(Duplicated);
    }
    if source.stated == None {
      return Err(Unreadable);
    }
    result := Ok(File(path.value, source.stated.value, source));
  }

  lemma NextNormal(sources: seq<Source>, i: nat, clean: Cleaning)
    requires i < |sources| && AllNormalizable(sources[..i], clean) && Normalizable(sources[i], clean)
    ensures AllNormalizable(sources[..i + 1], clean)
    ensures Normals(sources[..i + 1], clean) == Normals(sources[..i], clean) + [Normal(sources[i], clean)]
    ensures CleanPaths(Normals(sources[..i + 1], clean)) == CleanPaths(Normals(sources[..i], clean)) + {Normal(sources[i], clean).path}
    ensures DistinctFiles(Normals(sources[..i + 1], clean)) <==>
              DistinctFiles(Normals(sources[..i], clean)) && Normal(sources[i], clean).path !in CleanPaths(Normals(sources[..i], clean))
  {
    assert Normals(sources[..i + 1], clean) == Normals(sources[..i], clean) + [Normal(sources[i], clean)];
    OneMoreFile(Normals(sources[..i], clean), Normal(sources[i], clean));
  }

  lemma OneMoreFile(front: seq<File>, last: File)
    ensures CleanPaths(front + [last]) == CleanPaths(front) + {last.path}
    ensures DistinctFiles(front + [last]) <==> DistinctFiles(front) && last.path !in CleanPaths(front)
  {
    var next := front + [last];
    assert forall f :: f in next <==> f in front || f == last;
    assert forall k :: 0 <= k < |front| ==> next[k] == front[k] && front[k] in front;
    assert next[|front|] == last;
  }

  /** A prefix that cannot be normalised spoils the whole list. */
  lemma PrefixNormal(sources: seq<Source>, k: nat, clean: Cleaning)
    requires k <= |sources| && AllNormalizable(sources, clean)
    ensures AllNormalizable(sources[..k], clean) && (DistinctFiles(Normals(sources, clean)) ==> DistinctFiles(Normals(sources[..k], clean)))
  {
    assert forall i :: 0 <= i < k ==> Normals(sources[..k], clean)[i] == Normals(sources, clean)[i];
  }

  /** normalizeFiles: succeeds exactly on inputs whose paths clean to different paths. */
  method NormalizeFiles(sources: seq<Source>) returns (result: Result<seq<File>, BundleError>)
    ensures result.Ok? <==> AllNormalizable(sources, CleanBundlePath) && DistinctFiles(Normals(sources, CleanBundlePath))
    ensures result.Ok? ==> result.value == SortBy(Normals(sources, CleanBundlePath), ByPath)
  {
    var normalized: seq<File> := [];
    var seen: set<string> := {};
    for i := 0 to |sources|
      invariant AllNormalizable(sources[..i], CleanBundlePath) && normalized == Normals(sources[..i], CleanBundlePath)
      invariant DistinctFiles(normalized) && seen == CleanPaths(normalized)
    {
      var file := NormalizeFile(sources[i], seen);
      if AllNormalizable(sources, CleanBundlePath) {
        PrefixNormal(sources, i + 1, CleanBundlePath);
      }
      if Normalizable(sources[i], CleanBundlePath) {
        NextNormal(sources, i, CleanBundlePath);
      }
      if file.Err? {
        return Err(file.error);
      }
      normalized := normalized + [file.value];
      seen := seen + {file.value.path};
    }
    assert sources[..|sources|] == sources;
    result := Ok(SortBy(normalized, ByPath));
  }

  lemma FileSizesStep(files: seq<File>, i: nat)
    requires i < |files|
    ensures FileSizes(files[..i + 1]) == FileSizes(files[..i]) + [files[i].size]
    ensures FileSizes(files)[..i + 1] == FileSizes(files[..i + 1])
  {
    assert files[..i + 1] == files[..i] + [files[i]];
  }

  /** validateBundleFiles. */
  method ValidateBundleFiles(files: seq<File>, limits: Limits) returns (error: Option<BundleError>)
    ensures error == None <==> WithinLimits(files, limits)
  {
    if |files| > limits.files {
      return Some(TooManyFiles);
    }
    var budget := new BundleBudget(limits);
    for i := 0 to |files|
      invariant forall k :: 0 <= k < i ==> files[k].size <= limits.fileBytes
      invariant budget.limits == limits && budget.Holds(FileSizes(files[..i]))
    {
      if files[i].size > limits.fileBytes {
        return Some(FileTooLarge);
      }
      FileSizesStep(files, i);
      error := budget.Add(files[i].size, FileSizes(files[..i]));
      if error.Some? {
        if Fits(FileSizes(files), limits) {
          FitsShorter(FileSizes(files), i + 1, limits);
        }
        return;
      }
    }
    assert files[..|files|] == files;
    error := None;
  }

  /** prepareBundleFilePayloads: the digests of the hash pass, by index. */
  method PrepareBundleFilePayloads(files: seq<File>, library: Library) returns (result: Result<seq<string>, BundleError>)
    ensures result.Ok? <==> AllHashable(files)
    ensures result.Ok? ==> |result.value| == |files|
    ensures result.Ok? ==> forall i :: 0 <= i < |files| ==> result.value[i] == library.Sha(files[i].source.hashed.value)
  {
    var shas: seq<string> := [];
    for i := 0 to |files|
      invariant |shas| == i
      invariant forall k :: 0 <= k < i ==> Hashable(files[k]) && shas[k] == library.Sha(files[k].source.hashed.value)
    {
      var hashed := files[i].source.hashed;
      if hashed == None {
        return Err(Unreadable);
      }
      if |hashed.value| != files[i].size {
        return Err(SizeMismatch);
      }
      shas := shas + [library.Sha(hashed.value)];
    }
    result := Ok(shas);
  }

  /** writePreparedBundleFile. */
  method WritePreparedBundleFile(file: File, sha: string, library: Library) returns (result: Result<Entry, BundleError>)
    requires Hashable(file) && sha == library.Sha(file.source.hashed.value)
    ensures result.Ok? <==> Copyable(file, library)
    ensures result.Ok? ==> result.value == PayloadEntry(file, library)
  {
    if file.source.copied == None {
      return Err(Unreadable);
    }
    var body := file.source.copied.value;
    if |body| != file.size {
      return Err(SizeMismatch);
    }
    if library.Sha(body) != sha {
      return Err(HashMismatch);
    }
    result := Ok(Entry(file.path, true, file.size, body));
  }

  method WritePreparedBundleFiles(files: seq<File>, shas: seq<string>, library: Library) returns (result: Result<seq<Entry>, BundleError>)
    requires AllHashable(files) && |shas| == |files|
    requires forall i :: 0 <= i < |files| ==> shas[i] == library.Sha(files[i].source.hashed.value)
    ensures result.Ok? <==> AllCopyable(files, library)
    ensures result.Ok? ==> result.value == PayloadEntries(files, library)
  {
    var entries: seq<Entry> := [];
    for i := 0 to |files|
      invariant |entries| == i
      invariant forall k :: 0 <= k < i ==> Copyable(files[k], library) && entries[k] == PayloadEntry(files[k], library)
    {
      var entry := WritePreparedBundleFile(files[i], shas[i], library);
      if entry.Err? {
        return Err(entry.error);
      }
      entries := entries + [entry.value];
    }
    assert entries == PayloadEntries(files, library);
    result := Ok(entries);
  }

  /** buildIndex over the prepared payloads. */
  method BuildPreparedIndex(files: seq<File>, shas: seq<string>, createdAt: int, library: Library) returns (index: Index)
    requires AllHashable(files) && |shas| == |files|
    requires forall i :: 0 <= i < |files| ==> shas[i] == library.Sha(files[i].source.hashed.value)
    ensures index == BuildIndex(files, createdAt, library)
  {
    index := Index("", "", createdAt, seq(|files|, i requires 0 <= i < |files| =>
      IndexFile(files[i].path, files[i].size, shas[i], files[i].source.metadata)));
    assert index.files == BuildIndex(files, createdAt, library).files;
  }

  /** Write: succeeds exactly on writable inputs. */
  method Write(sources: seq<Source>, createdAt: int, limits: Limits, library: Library) returns (result: Result<Written, BundleError>)
    ensures result.Ok? <==> Writable(sources, createdAt, limits, library)
    ensures result.Ok? ==>
              var files := SortBy(Normals(sources, CleanBundlePath), ByPath);
              && result.value.stream == StreamOf(files, createdAt, limits, library)
              && result.value.files == |sources|
              && result.value.bytes == Sum(EntrySizes(result.value.stream[1..]))
  {
    if AllNormalizable(sources, CleanBundlePath) {
      SortKeepsLength(Normals(sources, CleanBundlePath));
    }
    if |sources| > limits.files {
      return Err(TooManyFiles);
    }
    var normalized := NormalizeFiles(sources);
    if normalized.Err? {
      return Err(normalized.error);
    }
    var files := normalized.value;
    var error := ValidateBundleFiles(files, limits);
    if error.Some? {
      return Err(error.value);
    }
    var shas := PrepareBundleFilePayloads(files, library);
    if shas.Err? {
      return Err(shas.error);
    }
    var index := BuildPreparedIndex(files, shas.value, createdAt, library);
    var body := MarshalIndex(index, limits, library);
    if body.Err? {
      return Err(body.error);
    }
    var entries := WritePreparedBundleFiles(files, shas.value, library);
    if entries.Err? {
      return Err(entries.error);
    }
    var stream := [Entry(INDEX_PATH, true, |body.value|, body.value)] + entries.value;
    assert stream[1..] == entries.value;
    EntrySizesAreFileSizes(files, library);
    result := Ok(Written(stream, |files|, Sum(FileSizes(files))));
  }

  lemma EntrySizesAreFileSizes(files: seq<File>, library: Library)
    requires AllCopyable(files, library)
    ensures EntrySizes(PayloadEntries(files, library)) == FileSizes(files)
  {
  }

  lemma {:induction false} SortKeepsLength(files: seq<File>)
    ensures |SortBy(files, ByPath)| == |files|
  {
    if files != [] {
      SortKeepsLength(files[1..]);
      InsertKeepsLength(files[0], SortBy(files[1..], ByPath));
    }
  }

  lemma {:induction false} InsertKeepsLength(file: File, files: seq<File>)
    ensures |Insert(file, files, ByPath)| == |files| + 1
  {
    if files != [] {
      InsertKeepsLength(file, files[1..]);
    }
  }
}
