/** Reading single files from a bundle (internal/spackbundle/reader.go). */
module BundleRead {
  import opened Basics
  import opened BundlePath
  import opened BundleIndex
  import opened BundleVerify

  function MaxBundleEntryBytes(path: string, limits: Limits): int {
    if path == INDEX_PATH then limits.indexBytes else limits.fileBytes
  }

  /** What scanning the stream for a path gives: the first entry with that path, provided
      the names before it are all acceptable. */
  function EntryBody(stream: seq<Entry>, path: string, limits: Limits, naming: string -> Result<string, PathError>): Result<seq<byte>, BundleError> {
    if stream == [] then Err(NotExist)
    else
      var first := naming(stream[0].name);
      if first.Err? then Err(BadPath(first.error))
      else if first.value == path then ReadTarEntryBody(stream[0], path, MaxBundleEntryBytes(path, limits))
      else EntryBody(stream[1..], path, limits, naming)
  }

  /** The index a reader finds, wherever in the stream its entry is. */
  function StreamIndex(stream: seq<Entry>, limits: Limits, rules: Rules): Result<Index, BundleError> {
    var body := EntryBody(stream, INDEX_PATH, limits, rules.naming);
    if body.Err? then Err(body.error)
    else
      var index := UnmarshalIndex(body.value, limits, rules.library);
      if index.Err? then index
      else if ValidIndex(index.value, limits) then index
      else Err(Unreadable)
  }

  /** The file of the index with this path. */
  function FindFile(files: seq<IndexFile>, path: string): Option<IndexFile> {
    if files == [] then None
    else if files[|files| - 1].path == path then Some(files[|files| - 1])
    else FindFile(files[..|files| - 1], path)
  }

  /** What reading a file of the bundle gives. */
  function FileBody(stream: seq<Entry>, raw: string, limits: Limits, library: Library): Result<seq<byte>, BundleError> {
    var path := CleanBundlePath(raw);
    if path.Err? then Err(BadPath(path.error)) else BodyAt(stream, path.value, limits, RulesOf(library))
  }

  function BodyAt(stream: seq<Entry>, path: string, limits: Limits, rules: Rules): Result<seq<byte>, BundleError> {
    var index := StreamIndex(stream, limits, rules);
    if index.Err? then Err(index.error)
    else
      var file := FindFile(index.value.files, path);
      if file == None then Err(NotExist)
      else
        var body := EntryBody(stream, path, limits, rules.naming);
        if body.Err? then body
        else if |body.value| != file.value.size then Err(SizeMismatch)
        else if rules.library.Sha(body.value) != file.value.sha256 then Err(HashMismatch)
        else body
  }

  /** readBundleEntry. */
  method ReadBundleEntry(stream: seq<Entry>, path: string, limits: Limits) returns (body: Result<seq<byte>, BundleError>)
    ensures body == EntryBody(stream, path, limits, CleanTarEntryPath)
  {
    var i := 0;
    while i < |stream|
      invariant i <= |stream|
      invariant EntryBody(stream, path, limits, CleanTarEntryPath) == EntryBody(stream[i..], path, limits, CleanTarEntryPath)
    {
      var name := CleanTarEntryPath(stream[i].name);
      if name.Err? {
        return Err(BadPath(name.error));
      }
      if name.value == path {
        return ReadTarEntryBody(stream[i], path, MaxBundleEntryBytes(path, limits));
      }
      assert stream[i..][1..] == stream[i + 1..];
      i := i + 1;
    }
    body := Err(NotExist);
  }

  lemma {:induction false} FindIsLookup(files: seq<IndexFile>, m: map<string, IndexFile>, path: string)
    requires MapsFiles(m, files) && DistinctPaths(files)
    ensures FindFile(files, path) == if path in m then Some(m[path]) else None
  {
    if path in m {
      var i := FileAt(m, files, path);
      FindAt(files, i);
    } else {
      FindNone(files, path);
    }
  }

  lemma {:induction false} FindAt(files: seq<IndexFile>, i: nat)
    requires i < |files| && DistinctPaths(files)
    ensures FindFile(files, files[i].path) == Some(files[i])
  {
    if i < |files| - 1 {
      FindAt(files[..|files| - 1], i);
    }
  }

  lemma {:induction false} FindNone(files: seq<IndexFile>, path: string)
    requires path !in PathsOf(files)
    ensures FindFile(files, path) == None
  {
    if files != [] {
      assert files[|files| - 1] in files;
      var front := files[..|files| - 1];
      assert forall f :: f in front ==> f in files;
      FindNone(front, path);
    }
  }

  class Reader {
    const stream: seq<Entry>
    const limits: Limits
    const library: Library
    var index: Option<Index>

    /** The cached index, once loaded, is the stream's. */
    ghost predicate Valid()
      reads this
    {
      index.Some? ==> StreamIndex(stream, limits, RulesOf(library)) == Ok(index.value)
    }

    constructor (stream: seq<Entry>, limits: Limits, library: Library)
      ensures Valid() && this.stream == stream && this.limits == limits && this.library == library
    {
      this.stream, this.limits, this.library, this.index := stream, limits, library, None;
    }

    method ReadIndex() returns (result: Result<Index, BundleError>)
      requires Valid()
      modifies this
      ensures Valid()
      ensures result.Ok? <==> StreamIndex(stream, limits, RulesOf(library)).Ok?
      ensures result.Ok? ==> result == StreamIndex(stream, limits, RulesOf(library)) && index == Some(result.value)
      ensures result.Err? ==> index == old(index)
    {
      if index.Some? {
        return Ok(index.value);
      }
      var body := ReadBundleEntry(stream, INDEX_PATH, limits);
      if body.Err? {
        return Err(body.error);
      }
      result := UnmarshalIndex(body.value, limits, library);
      if result.Err? {
        return;
      }
      var error := ValidateIndex(result.value, limits);
      if error.Some? {
        return Err(error.value);
      }
      index := Some(result.value);
    }

    method LookupIndexFile(path: string) returns (file: Result<IndexFile, BundleError>)
      requires Valid()
      modifies this
      ensures Valid()
      ensures file.Ok? <==> StreamIndex(stream, limits, RulesOf(library)).Ok? && FindFile(StreamIndex(stream, limits, RulesOf(library)).value.files, path).Some?
      ensures file.Ok? ==> FindFile(StreamIndex(stream, limits, RulesOf(library)).value.files, path) == Some(file.value)
    {
      var found := ReadIndex();
      if found.Err? {
        return Err(found.error);
      }
      var files := IndexFileMap(found.value.files);
      FindIsLookup(found.value.files, files, path);
      file := if path in files then Ok(files[path]) else Err(NotExist);
    }

    /** ReadFile: the same bytes whether or not the index was cached. */
    method ReadFile(raw: string) returns (result: Result<seq<byte>, BundleError>)
      requires Valid()
      modifies this
      ensures Valid()
      ensures result.Ok? <==> FileBody(stream, raw, limits, library).Ok?
      ensures result.Ok? ==> result == FileBody(stream, raw, limits, library)
    {
      var path := CleanBundlePath(raw);
      if path.Err? {
        return Err(BadPath(path.error));
      }
      var file := LookupIndexFile(path.value);
      if file.Err? {
        return Err(file.error);
      }
      result := ReadBundleEntry(stream, path.value, limits);
      if result.Err? {
        return;
      }
      if |result.value| != file.value.size {
        return Err(SizeMismatch);
      }
      if library.Sha(result.value) != file.value.sha256 {
        return Err(HashMismatch);
      }
    }
  }

  // ---- Reading accepted bundles ---------------------------------------------------------------

  /** The scan finds the first entry of a path. */
  lemma {:induction false} ScanFinds(stream: seq<Entry>, k: nat, path: string, limits: Limits, naming: string -> Result<string, PathError>)
    requires k < |stream| && naming(stream[k].name) == Ok(path)
    requires forall j :: 0 <= j < k ==> naming(stream[j].name).Ok? && naming(stream[j].name).value != path
    ensures EntryBody(stream, path, limits, naming) == ReadTarEntryBody(stream[k], path, MaxBundleEntryBytes(path, limits))
  {
    if k > 0 {
      ScanFinds(stream[1..], k - 1, path, limits, naming);
    }
  }

  /** A reader of an accepted bundle finds the verified index. */
  lemma AcceptedIndexIsRead(stream: seq<Entry>, index: Index, limits: Limits, rules: Rules)
    requires OpensWith(stream, index, limits, rules.library) && rules.naming(stream[0].name) == Ok(INDEX_PATH)
    ensures StreamIndex(stream, limits, rules) == Ok(index)
  {
    ScanFinds(stream, 0, INDEX_PATH, limits, rules.naming);
    ReadsWhole(stream[0], INDEX_PATH, limits.indexBytes);
  }

  lemma AcceptedEntryIsRead(stream: seq<Entry>, index: Index, limits: Limits, library: Library, k: nat, i: nat, rules: Rules)
    requires OpensWith(stream, index, limits, library) && rules.library == library
    requires rules.naming(stream[0].name) == Ok(INDEX_PATH)
    requires OneToOne(stream[1..], index.files, rules) && 1 <= k < |stream| && i < |index.files|
    requires Carries(stream[k], index.files[i], rules) && index.files[i].path != INDEX_PATH
    ensures EntryBody(stream, index.files[i].path, limits, rules.naming) == Ok(stream[k].content)
  {
    var entries, path := stream[1..], index.files[i].path;
    forall j | 0 <= j < k ensures rules.naming(stream[j].name).Ok? && rules.naming(stream[j].name).value != path {
      if j > 0 {
        assert entries[j - 1] == stream[j] && entries[k - 1] == stream[k];
        CarriedPath(entries, index.files, j - 1, rules);
      }
    }
    ScanFinds(stream, k, path, limits, rules.naming);
    ReadsWhole(stream[k], path, limits.fileBytes);
    assert ValidIndexFile(index.files[i], limits);
  }

  /** In an accepted bundle, a file of the index reads as the bytes of its entry, whatever
      way its path is spelled; any other path does not exist. */
  lemma AcceptedFilesAreRead(stream: seq<Entry>, index: Index, limits: Limits, library: Library, raw: string)
    requires Accepts(stream, index, limits, library) && CleanBundlePath(raw).Ok?
    ensures var path := CleanBundlePath(raw).value;
            if path in PathsOf(index.files)
            then exists k :: 1 <= k < |stream| && CleanTarEntryPath(stream[k].name) == Ok(path) && FileBody(stream, raw, limits, library) == Ok(stream[k].content)
            else FileBody(stream, raw, limits, library) == Err(NotExist)
  {
    var path := CleanBundlePath(raw).value;
    AcceptedIndexIsRead(stream, index, limits, RulesOf(library));
    if path in PathsOf(index.files) {
      var f :| f in index.files && f.path == path;
      var i :| 0 <= i < |index.files| && index.files[i] == f;
      var k := AcceptedBody(stream, index, limits, library, i);
    } else {
      FindNone(index.files, path);
    }
  }

  lemma AcceptedBody(stream: seq<Entry>, index: Index, limits: Limits, library: Library, i: nat) returns (k: nat)
    requires Accepts(stream, index, limits, library) && i < |index.files|
    ensures 1 <= k < |stream| && CleanTarEntryPath(stream[k].name) == Ok(index.files[i].path)
    ensures BodyAt(stream, index.files[i].path, limits, RulesOf(library)) == Ok(stream[k].content)
  {
    k := CarryingEntry(stream, index.files, i, RulesOf(library));
    IndexPathIsNoFile(index.files, limits);
    BodyOfEntry(stream, index, limits, RulesOf(library), k, i, index.files[i].path, stream[k].content);
  }

  lemma CarryingEntry(stream: seq<Entry>, files: seq<IndexFile>, i: nat, rules: Rules) returns (k: nat)
    requires stream != [] && OneToOne(stream[1..], files, rules) && i < |files|
    ensures 1 <= k < |stream| && Carries(stream[k], files[i], rules)
  {
    var entries := stream[1..];
    assert HasEntry(files[i], entries, rules);
    var n :| 0 <= n < |entries| && Carries(entries[n], files[i], rules);
    k := n + 1;
    assert entries[n] == stream[k];
  }

  /** A file reads as the bytes of the entry that carries it. */
  lemma BodyOfEntry(stream: seq<Entry>, index: Index, limits: Limits, rules: Rules, k: nat, i: nat, path: string, body: seq<byte>)
    requires OpensWith(stream, index, limits, rules.library) && rules.naming(stream[0].name) == Ok(INDEX_PATH)
    requires OneToOne(stream[1..], index.files, rules) && 1 <= k < |stream| && i < |index.files|
    requires Carries(stream[k], index.files[i], rules) && index.files[i].path == path != INDEX_PATH && stream[k].content == body
    ensures BodyAt(stream, path, limits, rules) == Ok(body)
  {
    AcceptedEntryIsRead(stream, index, limits, rules.library, k, i, rules);
    AcceptedIndexIsRead(stream, index, limits, rules);
    FindAt(index.files, i);
  }
}
