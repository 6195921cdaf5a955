/** What a bundle needs to be written and verified, in terms of the inputs' own fields
    (internal/spackbundle/write.go, write_input.go, write_payload.go, tar_entry.go). */
module BundleMeaning {
  import opened Basics
  import opened Sorting
  import opened BundlePath
  import opened BundlePathMeaning
  import opened BundleIndex
  import opened BundleVerify
  import opened BundleWrite
  import Paths

  // ---- Digests ----------------------------------------------------------------------------

  predicate IsHexDigit(c: char) {
    '0' <= c <= '9' || 'a' <= c <= 'f' || 'A' <= c <= 'F'
  }

  lemma {:induction false} HexDecodeIff(s: string)
    ensures HexDecode(s).Some? <==> |s| % 2 == 0 && forall i :: 0 <= i < |s| ==> IsHexDigit(s[i])
    ensures HexDecode(s).Some? ==> 2 * |HexDecode(s).value| == |s|
    decreases |s|
  {
    if |s| >= 2 {
      HexDecodeIff(s[2..]);
      assert forall i :: 2 <= i < |s| ==> s[i] == s[2..][i - 2];
      assert HexByte(s[0], s[1]).Some? <==> IsHexDigit(s[0]) && IsHexDigit(s[1]);
      if forall i :: 0 <= i < |s| ==> IsHexDigit(s[i]) {
        assert forall i :: 0 <= i < |s[2..]| ==> s[2..][i] == s[i + 2];
      }
    }
  }

  /** A digest is 64 hexadecimal digits. */
  lemma DigestIff(sha: string)
    ensures IsSha(sha) <==> |sha| == 64 && forall i :: 0 <= i < |sha| ==> IsHexDigit(sha[i])
  {
    HexDecodeIff(sha);
  }

  // ---- Indexes ------------------------------------------------------------------------------

  /** The fields of a file that an index may list. */
  predicate Listable(file: IndexFile, limits: Limits) {
    && AcceptablePath(file.path) && Paths.Clean(TrimSpace(file.path)) == file.path
    && 0 <= file.size <= limits.fileBytes
    && |file.sha256| == 64 && forall i :: 0 <= i < 64 ==> IsHexDigit(file.sha256[i])
  }

  /** A file of an index is valid exactly when its path is acceptable and clean, its size
      within the limit and its digest one. */
  lemma ValidIndexFileIff(file: IndexFile, limits: Limits)
    ensures ValidIndexFile(file, limits) <==> Listable(file, limits)
  {
    CleanBundlePathIff(file.path);
    DigestIff(file.sha256);
  }

  // ---- Inputs -------------------------------------------------------------------------------

  predicate DifferentPlaces(sources: seq<Source>) {
    forall i, j :: 0 <= i < j < |sources| ==> Paths.Clean(TrimSpace(sources[i].path)) != Paths.Clean(TrimSpace(sources[j].path))
  }

  function StatedBytes(sources: seq<Source>): int {
    if sources == [] then 0
    else (if sources[0].stated.Some? then sources[0].stated.value else 0) + StatedBytes(sources[1..])
  }

  lemma {:induction false} SumFront(size: int, sizes: seq<int>)
    ensures Sum([size] + sizes) == size + Sum(sizes)
    decreases |sizes|
  {
    var all := [size] + sizes;
    if sizes != [] {
      SumFront(size, sizes[..|sizes| - 1]);
      assert all[..|all| - 1] == [size] + sizes[..|sizes| - 1];
    } else {
      assert all[..0] == [];
      assert all == [size];
    }
  }

  lemma {:induction false} InsertSum(file: File, files: seq<File>)
    ensures Sum(FileSizes(Insert(file, files, ByPath))) == file.size + Sum(FileSizes(files))
  {
    if files == [] || ByPath(file, files[0]) {
      assert FileSizes([file] + files) == [file.size] + FileSizes(files);
      SumFront(file.size, FileSizes(files));
    } else {
      var rest := Insert(file, files[1..], ByPath);
      InsertSum(file, files[1..]);
      assert FileSizes([files[0]] + rest) == [files[0].size] + FileSizes(rest);
      SumFront(files[0].size, FileSizes(rest));
      assert FileSizes(files) == [files[0].size] + FileSizes(files[1..]);
      SumFront(files[0].size, FileSizes(files[1..]));
    }
  }

  lemma {:induction false} SortSum(files: seq<File>)
    ensures Sum(FileSizes(SortBy(files, ByPath))) == Sum(FileSizes(files))
  {
    if files != [] {
      SortSum(files[1..]);
      InsertSum(files[0], SortBy(files[1..], ByPath));
      assert FileSizes(files) == [files[0].size] + FileSizes(files[1..]);
      SumFront(files[0].size, FileSizes(files[1..]));
    }
  }

  lemma {:induction false} NormalSum(sources: seq<Source>, clean: Cleaning)
    requires AllNormalizable(sources, clean)
    ensures Sum(FileSizes(Normals(sources, clean))) == StatedBytes(sources)
  {
    if sources != [] {
      var rest := sources[1..];
      assert forall i :: 0 <= i < |rest| ==> rest[i] == sources[i + 1];
      NormalSum(rest, clean);
      assert FileSizes(Normals(sources, clean)) == [sources[0].stated.value] + FileSizes(Normals(rest, clean));
      SumFront(sources[0].stated.value, FileSizes(Normals(rest, clean)));
    }
  }

  lemma {:induction false} InsertMembers(file: File, files: seq<File>)
    ensures forall f :: f in Insert(file, files, ByPath) <==> f == file || f in files
  {
    if files != [] && !ByPath(file, files[0]) {
      InsertMembers(file, files[1..]);
    }
  }

  lemma {:induction false} SortMembers(files: seq<File>)
    ensures forall f :: f in SortBy(files, ByPath) <==> f in files
  {
    if files != [] {
      SortMembers(files[1..]);
      InsertMembers(files[0], SortBy(files[1..], ByPath));
    }
  }

  lemma PathsIff(sources: seq<Source>, clean: Cleaning)
    requires forall raw :: clean(raw).Ok? <==> AcceptablePath(raw)
    requires forall raw :: clean(raw).Ok? ==> clean(raw).value == Paths.Clean(TrimSpace(raw))
    ensures AllNormalizable(sources, clean) <==>
              forall i :: 0 <= i < |sources| ==> AcceptablePath(sources[i].path) && sources[i].stated.Some?
    ensures AllNormalizable(sources, clean) ==> (DistinctFiles(Normals(sources, clean)) <==> DifferentPlaces(sources))
  {
    if forall i :: 0 <= i < |sources| ==> AcceptablePath(sources[i].path) && sources[i].stated.Some? {
      forall i | 0 <= i < |sources| ensures Normalizable(sources[i], clean) {
      }
    }
    if AllNormalizable(sources, clean) {
      forall i | 0 <= i < |sources| ensures AcceptablePath(sources[i].path) && sources[i].stated.Some?
        && Normals(sources, clean)[i].path == Paths.Clean(TrimSpace(sources[i].path))
      {
        assert Normalizable(sources[i], clean);
      }
    }
  }

  /** What the files of normalised inputs say about the inputs. */
  lemma SortedFilesIff(sources: seq<Source>, limits: Limits, library: Library, clean: Cleaning)
    requires AllNormalizable(sources, clean)
    ensures var files := SortBy(Normals(sources, clean), ByPath);
            && (AllCopyable(files, library) && (forall i :: 0 <= i < |files| ==> files[i].size <= limits.fileBytes) <==>
                  forall i :: 0 <= i < |sources| ==> Embeds(sources[i], limits, library))
            && |files| == |sources| && Sum(FileSizes(files)) == StatedBytes(sources)
  {
    var normals := Normals(sources, clean);
    var files := SortBy(normals, ByPath);
    SortMembers(normals);
    SortKeepsLength(normals);
    SortSum(normals);
    NormalSum(sources, clean);
    if AllCopyable(files, library) && forall i :: 0 <= i < |files| ==> files[i].size <= limits.fileBytes {
      forall i | 0 <= i < |sources| ensures Embeds(sources[i], limits, library) {
        assert normals[i] in files;
        var k :| 0 <= k < |files| && files[k] == normals[i];
        assert Copyable(files[k], library);
      }
    }
    if forall i :: 0 <= i < |sources| ==> Embeds(sources[i], limits, library) {
      forall k | 0 <= k < |files| ensures Copyable(files[k], library) && files[k].size <= limits.fileBytes {
        assert files[k] in normals;
        var i :| 0 <= i < |sources| && normals[i] == files[k];
        assert Embeds(sources[i], limits, library);
      }
    }
  }

  /** The three visits to the input agree. */
  predicate Embeds(source: Source, limits: Limits, library: Library) {
    && source.stated.Some? && source.stated.value <= limits.fileBytes
    && source.hashed.Some? && |source.hashed.value| == source.stated.value
    && source.copied.Some? && |source.copied.value| == source.stated.value
    && library.Sha(source.copied.value) == library.Sha(source.hashed.value)
  }

  /** The index over these files, encoded and framed, is within its limit. */
  predicate IndexFits(files: seq<File>, createdAt: int, limits: Limits, library: Library)
    requires AllHashable(files)
  {
    var listed := seq(|files|, i requires 0 <= i < |files| =>
      IndexFile(files[i].path, files[i].size, library.Sha(files[i].source.hashed.value), files[i].source.metadata));
    var payload := library.encode(Index("spack.io/aot/v2alpha1", "BundleIndex", createdAt, listed));
    payload.Some? && |payload.value| + 13 <= limits.indexBytes && |payload.value| < 0x1_0000_0000
  }

  lemma IndexFitsIff(files: seq<File>, createdAt: int, limits: Limits, library: Library)
    requires AllHashable(files)
    ensures MarshalIndex(BuildIndex(files, createdAt, library), limits, library).Ok? <==> IndexFits(files, createdAt, limits, library)
  {
    var listed := seq(|files|, i requires 0 <= i < |files| =>
      IndexFile(files[i].path, files[i].size, library.Sha(files[i].source.hashed.value), files[i].source.metadata));
    assert BuildIndex(files, createdAt, library).files == listed;
  }

  ghost predicate CanBeWritten(sources: seq<Source>, createdAt: int, limits: Limits, library: Library) {
    && (forall i :: 0 <= i < |sources| ==> AcceptablePath(sources[i].path) && Embeds(sources[i], limits, library))
    && DifferentPlaces(sources)
    && |sources| <= limits.files && (sources == [] || StatedBytes(sources) <= limits.expandedBytes)
    && (Hashed(sources) ==> IndexFits(SortBy(Normals(sources, CleanBundlePath), ByPath), createdAt, limits, library))
  }

  /** The inputs can be normalised and hashed, so that there is an index. */
  ghost predicate Hashed(sources: seq<Source>) {
    AllNormalizable(sources, CleanBundlePath) && AllHashable(SortBy(Normals(sources, CleanBundlePath), ByPath))
  }

  /** Write succeeds exactly on inputs whose paths are acceptable and different, whose visits
      agree, and whose files and index are within the limits. */
  lemma WritableIff(sources: seq<Source>, createdAt: int, limits: Limits, library: Library)
    ensures Writable(sources, createdAt, limits, library) <==> CanBeWritten(sources, createdAt, limits, library)
  {
    forall raw
      ensures CleanBundlePath(raw).Ok? <==> AcceptablePath(raw)
      ensures CleanBundlePath(raw).Ok? ==> CleanBundlePath(raw).value == Paths.Clean(TrimSpace(raw))
    {
      CleanBundlePathIff(raw);
    }
    PathsIff(sources, CleanBundlePath);
    if AllNormalizable(sources, CleanBundlePath) {
      WritableFilesIff(sources, createdAt, limits, library, CleanBundlePath);
    }
  }

  lemma WithinLimitsIff(files: seq<File>, limits: Limits)
    ensures WithinLimits(files, limits) <==>
              && |files| <= limits.files && (forall i :: 0 <= i < |files| ==> files[i].size <= limits.fileBytes)
              && (files == [] || Sum(FileSizes(files)) <= limits.expandedBytes)
  {
  }

  lemma CopyableIsHashable(files: seq<File>, library: Library)
    ensures AllCopyable(files, library) ==> AllHashable(files)
  {
  }

  lemma WritableFilesIff(sources: seq<Source>, createdAt: int, limits: Limits, library: Library, clean: Cleaning)
    requires AllNormalizable(sources, clean)
    ensures var files := SortBy(Normals(sources, clean), ByPath);
            WritableFiles(files, createdAt, limits, library) <==>
              && (forall i :: 0 <= i < |sources| ==> Embeds(sources[i], limits, library))
              && |sources| <= limits.files && (sources == [] || StatedBytes(sources) <= limits.expandedBytes)
              && (AllHashable(files) ==> IndexFits(files, createdAt, limits, library))
  {
    var files := SortBy(Normals(sources, clean), ByPath);
    SortedFilesIff(sources, limits, library, clean);
    WithinLimitsIff(files, limits);
    CopyableIsHashable(files, library);
    if AllHashable(files) {
      IndexFitsIff(files, createdAt, limits, library);
    }
  }

  // ---- Entries ------------------------------------------------------------------------------

  /** An entry is read whole exactly when it is a regular file of its stated size, within the bound. */
  lemma WholeIff(entry: Entry, maxBytes: int)
    ensures Whole(entry, maxBytes) <==> entry.regular && entry.size == |entry.content| && |entry.content| <= maxBytes
  {
  }

  /** An entry's name stands for the index, or, outside the metadata namespace, for a file's path. */
  lemma EntryPathIff(name: string, path: string)
    ensures CleanTarEntryPath(name) == Ok(path) <==>
              var clean := Paths.Clean(name);
              || (clean == ".spack/index.bin" && path == clean)
              || (clean != ".spack" && !(".spack/" <= clean) && AcceptablePath(clean) && path == Paths.Clean(TrimSpace(clean)))
  {
    Paths.CleanIdempotent(name);
    CleanBundlePathIff(Paths.Clean(name));
    assert ".spack/" <= INDEX_PATH;
  }

  // ---- Constants and digits --------------------------------------------------------------------

  /** The magic spells SPACKIDX and ends with a zero byte; the limits are 768 MiB for the index,
      a million files, 64 GiB for all and 2 GiB for one. */
  lemma FormatConstants()
    ensures |INDEX_MAGIC| == 9 && INDEX_MAGIC[8] == 0
    ensures forall i :: 0 <= i < 8 ==> INDEX_MAGIC[i] as int == "SPACKIDX"[i] as int
    ensures PRODUCTION_LIMITS == Limits(805_306_368, 1_000_000, 68_719_476_736, 2_147_483_648)
  {
  }

  /** Digests are written in lower case, the high digit of each byte first. */
  lemma {:induction false} HexEncodeDigits(bytes: seq<byte>, i: nat)
    requires i < |bytes|
    ensures |HexEncode(bytes)| == 2 * |bytes|
    ensures HexEncode(bytes)[2 * i] == "0123456789abcdef"[bytes[i] as int / 16]
    ensures HexEncode(bytes)[2 * i + 1] == "0123456789abcdef"[bytes[i] as int % 16]
    decreases |bytes|
  {
    HexDigitIs(bytes[0] as int / 16);
    HexDigitIs(bytes[0] as int % 16);
    var rest := bytes[1..];
    HexEncodeLength(rest);
    if i > 0 {
      HexEncodeDigits(rest, i - 1);
      assert HexEncode(bytes)[2 * i] == HexEncode(rest)[2 * (i - 1)];
      assert HexEncode(bytes)[2 * i + 1] == HexEncode(rest)[2 * (i - 1) + 1];
    }
  }

  lemma {:induction false} HexEncodeLength(bytes: seq<byte>)
    ensures |HexEncode(bytes)| == 2 * |bytes|
    decreases |bytes|
  {
    if bytes != [] {
      HexEncodeLength(bytes[1..]);
    }
  }

  lemma HexDigitIs(n: nat)
    requires n < 16
    ensures HexDigit(n) == "0123456789abcdef"[n]
  {
  }
}
