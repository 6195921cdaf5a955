/** The bundle index and the limits it must keep (internal/spackbundle/index.go, limits.go,
    validateIndex in tar_entry.go). */
module BundleIndex {
  import opened Basics
  import opened BundlePath

  newtype byte = x: int | 0 <= x < 256

  datatype BundleError =
    | BadPath(cause: PathError)
    | MagicMismatch
    | Truncated
    | IndexTooLarge
    | SizeMismatch
    | NotEncodable
    | NotDecodable
    | UnsupportedVersion
    | UnsupportedKind
    | TooManyFiles
    | TooManyBytes
    | FileTooLarge
    | NegativeSize
    | NotNormalized
    | InvalidHash
    | HashMismatch
    | Duplicated
    | Undeclared
    | Missing
    | NotRegular
    | IndexNotFirst
    | NoIndex
    | NotExist
    | Unreadable

  // ---- Limits ---------------------------------------------------------------------------

  datatype Limits = Limits(indexBytes: int, files: int, expandedBytes: int, fileBytes: int)

  const PRODUCTION_LIMITS := Limits(768 * 0x10_0000, 1_000_000, 64 * 0x4000_0000, 2 * 0x4000_0000)

  function Sum(sizes: seq<int>): int {
    if sizes == [] then 0 else Sum(sizes[..|sizes| - 1]) + sizes[|sizes| - 1]
  }

  /** Sizes a budget admits one after the other. */
  predicate Fits(sizes: seq<int>, limits: Limits) {
    sizes == [] ||
    (|sizes| <= limits.files && NoneNegative(sizes) && Sum(sizes) <= limits.expandedBytes)
  }

  predicate NoneNegative(sizes: seq<int>) {
    forall i :: 0 <= i < |sizes| ==> sizes[i] >= 0
  }

  lemma FitsOneMore(sizes: seq<int>, size: int, limits: Limits)
    ensures Sum(sizes + [size]) == Sum(sizes) + size
    ensures Fits(sizes + [size], limits) <==>
            size >= 0 && |sizes| < limits.files && Sum(sizes) + size <= limits.expandedBytes && NoneNegative(sizes)
  {
    var all := sizes + [size];
    assert all[..|sizes|] == sizes && all[|sizes|] == size;
    assert forall i :: 0 <= i < |sizes| ==> all[i] == sizes[i];
  }

  lemma {:induction false} SumIsPositive(sizes: seq<int>)
    requires NoneNegative(sizes)
    ensures 0 <= Sum(sizes)
  {
    if sizes != [] {
      SumIsPositive(sizes[..|sizes| - 1]);
    }
  }

  /** A budget that refuses a size refuses every longer list too. */
  lemma {:induction false} FitsShorter(sizes: seq<int>, k: nat, limits: Limits)
    requires Fits(sizes, limits) && k <= |sizes|
    ensures Fits(sizes[..k], limits)
    decreases |sizes|
  {
    if k < |sizes| {
      var front, last := sizes[..|sizes| - 1], sizes[|sizes| - 1];
      assert sizes == front + [last];
      FitsOneMore(front, last, limits);
      SumIsPositive(front);
      FitsShorter(front, k, limits);
      assert front[..k] == sizes[..k];
    } else {
      assert sizes[..k] == sizes;
    }
  }

  class BundleBudget {
    const limits: Limits
    var files: int
    var expandedBytes: int

    constructor (limits: Limits)
      ensures this.limits == limits && Holds([])
    {
      this.limits, files, expandedBytes := limits, 0, 0;
    }

    /** The budget has admitted these sizes. */
    ghost predicate Holds(sizes: seq<int>)
      reads this
    {
      files == |sizes| && expandedBytes == Sum(sizes) && Fits(sizes, limits)
    }

    /** Admits a size exactly when the longer list still fits. */
    method Add(size: int, ghost sizes: seq<int>) returns (error: Option<BundleError>)
      requires Holds(sizes)
      modifies this
      ensures error == None <==> Fits(sizes + [size], limits)
      ensures error == None ==> Holds(sizes + [size])
    {
      FitsOneMore(sizes, size, limits);
      if size < 0 {
        return Some(NegativeSize);
      }
      if files >= limits.files {
        return Some(TooManyFiles);
      }
      if size > limits.expandedBytes - expandedBytes {
        return Some(TooManyBytes);
      }
      files := files + 1;
      expandedBytes := expandedBytes + size;
      error := None;
    }
  }

  // ---- Hexadecimal digests ------------------------------------------------------------------

  function HexDigit(n: nat): char
    requires n < 16
  {
    if n < 10 then '0' + n as char else 'a' + (n - 10) as char
  }

  function HexValue(c: char): Option<nat> {
    if '0' <= c <= '9' then Some((c - '0') as nat)
    else if 'a' <= c <= 'f' then Some((c - 'a') as nat + 10)
    else if 'A' <= c <= 'F' then Some((c - 'A') as nat + 10)
    else None
  }

  function HexEncode(bytes: seq<byte>): string {
    if bytes == [] then ""
    else [HexDigit(bytes[0] as nat / 16), HexDigit(bytes[0] as nat % 16)] + HexEncode(bytes[1..])
  }

  function HexByte(high: char, low: char): Option<byte> {
    match (HexValue(high), HexValue(low))
    case (Some(h), Some(l)) => if h < 16 && l < 16 then Some((h * 16 + l) as byte) else None
    case _ => None
  }

  function HexDecode(s: string): Option<seq<byte>>
    decreases |s|
  {
    if s == "" then Some([])
    else if |s| == 1 then None
    else
      match (HexByte(s[0], s[1]), HexDecode(s[2..]))
      case (Some(b), Some(rest)) => Some([b] + rest)
      case _ => None
  }

  lemma HexByteRoundTrip(b: byte)
    ensures HexByte(HexDigit(b as nat / 16), HexDigit(b as nat % 16)) == Some(b)
  {
    HexDigitRoundTrip(b as nat / 16);
    HexDigitRoundTrip(b as nat % 16);
  }

  lemma HexDigitRoundTrip(n: nat)
    requires n < 16
    ensures HexValue(HexDigit(n)) == Some(n)
  {
  }

  lemma {:induction false} HexRoundTrip(bytes: seq<byte>)
    ensures HexDecode(HexEncode(bytes)) == Some(bytes)
  {
    if bytes != [] {
      HexRoundTrip(bytes[1..]);
      HexByteRoundTrip(bytes[0]);
      var s := HexEncode(bytes);
      assert s[0] == HexDigit(bytes[0] as nat / 16) && s[1] == HexDigit(bytes[0] as nat % 16);
      assert s[2..] == HexEncode(bytes[1..]);
      assert [bytes[0]] + bytes[1..] == bytes;
    }
  }

  // ---- The frame ------------------------------------------------------------------------------

  datatype Metadata = Metadata(
    kind: string,
    mediaType: string,
    sourceHash: string,
    etag: string,
    assetPath: string,
    encoding: string,
    format: string,
    width: int)

  datatype IndexFile = IndexFile(path: string, size: int, sha256: string, metadata: Metadata)

  datatype Index = Index(apiVersion: string, kind: string, createdAt: int, files: seq<IndexFile>)

  const FORMAT_VERSION := "spack.io/aot/v2alpha1"
  const INDEX_KIND := "BundleIndex"

  /** The magic in front of the index: "SPACKIDX" and a zero byte. */
  const INDEX_MAGIC: seq<byte> := [83, 80, 65, 67, 75, 73, 68, 88, 0]

  const DIGEST_BYTES := 32

  /** JSON encoding and the digest, as the standard library provides them. */
  datatype Library = Library(
    encode: Index -> Option<seq<byte>>,
    decode: seq<byte> -> Option<Index>,
    digest: seq<byte> -> seq<byte>)
  {
    /** Decoding undoes encoding, and digests have their length. */
    ghost predicate Sound() {
      && (forall index :: encode(index).Some? ==> decode(encode(index).value) == Some(index))
      && (forall bytes :: |digest(bytes)| == DIGEST_BYTES)
    }

    function Sha(body: seq<byte>): string {
      HexEncode(digest(body))
    }
  }

  function Power256(k: nat): nat {
    if k == 0 then 1 else 256 * Power256(k - 1)
  }

  /** The low k bytes of a number, highest first. */
  function BigEndian(n: nat, k: nat): (b: seq<byte>)
    ensures |b| == k
  {
    if k == 0 then [] else BigEndian(n / 256, k - 1) + [(n % 256) as byte]
  }

  function FromBigEndian(b: seq<byte>): nat {
    if b == [] then 0 else FromBigEndian(b[..|b| - 1]) * 256 + b[|b| - 1] as nat
  }

  lemma {:induction false} BigEndianRoundTrip(n: nat, k: nat)
    requires n < Power256(k)
    ensures FromBigEndian(BigEndian(n, k)) == n
  {
    if k > 0 {
      BigEndianRoundTrip(n / 256, k - 1);
      assert BigEndian(n, k)[..k - 1] == BigEndian(n / 256, k - 1);
    }
  }

  lemma {:induction false} FromBigEndianRoundTrip(b: seq<byte>)
    ensures FromBigEndian(b) < Power256(|b|) && BigEndian(FromBigEndian(b), |b|) == b
  {
    if b != [] {
      FromBigEndianRoundTrip(b[..|b| - 1]);
      assert b == b[..|b| - 1] + [b[|b| - 1]];
    }
  }

  /** The size field of the frame. */
  lemma SizeField(b: seq<byte>, size: nat)
    requires |b| == 4 && FromBigEndian(b) == size
    ensures size < 0x1_0000_0000 && b == BigEndian(size, 4)
  {
    FourBytes();
    FromBigEndianRoundTrip(b);
  }

  lemma FourBytes()
    ensures Power256(4) == 0x1_0000_0000
  {
    assert Power256(0) == 1 && Power256(1) == 0x100 && Power256(2) == 0x1_0000 && Power256(3) == 0x100_0000;
  }

  /** The length of the magic and of the size field. */
  const OVERHEAD := 13

  function MarshalIndex(index: Index, limits: Limits, library: Library): Result<seq<byte>, BundleError> {
    var stamped := index.(apiVersion := FORMAT_VERSION, kind := INDEX_KIND);
    var payload := library.encode(stamped);
    if payload == None then Err(NotEncodable)
    else if limits.indexBytes < OVERHEAD || |payload.value| > limits.indexBytes - OVERHEAD then Err(IndexTooLarge)
    else if |payload.value| >= 0x1_0000_0000 then Err(IndexTooLarge)
    else Ok(INDEX_MAGIC + BigEndian(|payload.value|, 4) + payload.value)
  }

  function UnmarshalIndex(body: seq<byte>, limits: Limits, library: Library): Result<Index, BundleError> {
    if !(INDEX_MAGIC <= body) then Err(MagicMismatch)
    else if |body| < OVERHEAD then Err(Truncated)
    else if |body| > limits.indexBytes then Err(IndexTooLarge)
    else
      var size := FromBigEndian(body[9..13]);
      var payload := body[OVERHEAD..];
      if size > limits.indexBytes - 9 - 4 then Err(IndexTooLarge)
      else if |payload| != size then Err(SizeMismatch)
      else
        var index := library.decode(payload);
        if index == None then Err(NotDecodable)
        else if index.value.apiVersion != FORMAT_VERSION then Err(UnsupportedVersion)
        else if index.value.kind != INDEX_KIND then Err(UnsupportedKind)
        else Ok(index.value)
  }

  /** Framing an index and unframing it gives the index back, stamped, within the limit. */
  lemma FrameRoundTrip(index: Index, limits: Limits, library: Library)
    requires library.Sound() && MarshalIndex(index, limits, library).Ok?
    ensures var body := MarshalIndex(index, limits, library).value;
            && OVERHEAD <= |body| <= limits.indexBytes
            && UnmarshalIndex(body, limits, library) == Ok(index.(apiVersion := FORMAT_VERSION, kind := INDEX_KIND))
  {
    var stamped := index.(apiVersion := FORMAT_VERSION, kind := INDEX_KIND);
    var payload := library.encode(stamped).value;
    var body := INDEX_MAGIC + BigEndian(|payload|, 4) + payload;
    FourBytes();
    BigEndianRoundTrip(|payload|, 4);
    assert body[9..13] == BigEndian(|payload|, 4);
    assert body[OVERHEAD..] == payload;
    assert library.decode(payload) == Some(stamped);
  }

  lemma ThreeParts(body: seq<byte>, magic: seq<byte>)
    requires magic <= body && |magic| == 9 && |body| >= OVERHEAD
    ensures body == magic + body[9..13] + body[OVERHEAD..]
  {
    assert body[..9] == magic;
  }

  /** Only whole frames are accepted: the magic, the payload's length, the payload. */
  lemma AcceptedFrame(body: seq<byte>, limits: Limits, library: Library)
    requires UnmarshalIndex(body, limits, library).Ok?
    ensures |body| <= limits.indexBytes && OVERHEAD <= |body| && |body| - OVERHEAD < 0x1_0000_0000
    ensures body == INDEX_MAGIC + BigEndian(|body| - OVERHEAD, 4) + body[OVERHEAD..]
    ensures library.decode(body[OVERHEAD..]) == Some(UnmarshalIndex(body, limits, library).value)
  {
    var field, size := body[9..13], |body| - OVERHEAD;
    SizeField(field, size);
    ThreeParts(body, INDEX_MAGIC);
  }

  // ---- Valid indexes ----------------------------------------------------------------------------

  predicate IsSha(sha: string) {
    HexDecode(sha).Some? && |HexDecode(sha).value| == DIGEST_BYTES
  }

  predicate ValidIndexFile(file: IndexFile, limits: Limits) {
    CleanBundlePath(file.path) == Ok(file.path) && 0 <= file.size <= limits.fileBytes && IsSha(file.sha256)
  }

  predicate DistinctPaths(files: seq<IndexFile>) {
    forall i, j :: 0 <= i < j < |files| ==> files[i].path != files[j].path
  }

  function Sizes(files: seq<IndexFile>): (sizes: seq<int>)
    ensures |sizes| == |files|
  {
    seq(|files|, i requires 0 <= i < |files| => files[i].size)
  }

  predicate ValidFiles(files: seq<IndexFile>, limits: Limits) {
    && (forall i {:trigger ValidIndexFile(files[i], limits)} :: 0 <= i < |files| ==> ValidIndexFile(files[i], limits))
    && DistinctPaths(files)
    && Fits(Sizes(files), limits)
  }

  predicate ValidIndex(index: Index, limits: Limits) {
    |index.files| <= limits.files && ValidFiles(index.files, limits)
  }

  function PathsOf(files: seq<IndexFile>): set<string> {
    set f | f in files :: f.path
  }

  method ValidateIndexFile(file: IndexFile, seen: set<string>, limits: Limits) returns (error: Option<BundleError>)
    ensures error == None <==> ValidIndexFile(file, limits) && file.path !in seen
  {
    var cleaned := CleanBundlePath(file.path);
    if cleaned.Err? {
      return Some(BadPath(cleaned.error));
    }
    if cleaned.value != file.path {
      return Some(NotNormalized);
    }
    if file.size < 0 || file.size > limits.fileBytes {
      return Some(FileTooLarge);
    }
    if !IsSha(file.sha256) {
      return Some(InvalidHash);
    }
    if file.path in seen {
      return Some(Duplicated);
    }
    error := None;
  }

  lemma NextFile(files: seq<IndexFile>, i: nat)
    requires i < |files|
    ensures files[..i + 1] == files[..i] + [files[i]]
    ensures Sizes(files[..i + 1]) == Sizes(files[..i]) + [files[i].size]
    ensures PathsOf(files[..i + 1]) == PathsOf(files[..i]) + {files[i].path}
    ensures DistinctPaths(files[..i + 1]) <==> DistinctPaths(files[..i]) && files[i].path !in PathsOf(files[..i])
  {
    var front := files[..i];
    assert files[..i + 1] == front + [files[i]];
    assert forall f :: f in files[..i + 1] <==> f in front || f == files[i];
    if DistinctPaths(files[..i + 1]) {
      assert forall k :: 0 <= k < i ==> files[..i + 1][k] == front[k];
    }
    if files[i].path !in PathsOf(front) {
      assert forall k :: 0 <= k < i ==> front[k] in front;
    }
  }

  method ValidateIndex(index: Index, limits: Limits) returns (error: Option<BundleError>)
    ensures error == None <==> ValidIndex(index, limits)
  {
    var files := index.files;
    if |files| > limits.files {
      return Some(TooManyFiles);
    }
    var seen: set<string> := {};
    var budget := new BundleBudget(limits);
    for i := 0 to |files|
      invariant seen == PathsOf(files[..i]) && ValidFiles(files[..i], limits)
      invariant budget.limits == limits && budget.Holds(Sizes(files[..i]))
    {
      NextFile(files, i);
      NextIsValid(files, i, limits);
      PrefixIsValid(files, i + 1, limits);
      error := ValidateIndexFile(files[i], seen, limits);
      if error.Some? {
        return;
      }
      seen := seen + {files[i].path};
      error := budget.Add(files[i].size, Sizes(files[..i]));
      if error.Some? {
        return;
      }
    }
    assert files[..|files|] == files;
    error := None;
  }

  lemma NextIsValid(files: seq<IndexFile>, i: nat, limits: Limits)
    requires i < |files| && ValidFiles(files[..i], limits)
    ensures ValidFiles(files[..i + 1], limits) <==>
              && ValidIndexFile(files[i], limits) && files[i].path !in PathsOf(files[..i])
              && Fits(Sizes(files[..i]) + [files[i].size], limits)
  {
    NextFile(files, i);
    var next := files[..i + 1];
    assert forall k :: 0 <= k < i ==> next[k] == files[..i][k];
    assert next[i] == files[i];
  }

  lemma PrefixIsValid(files: seq<IndexFile>, k: nat, limits: Limits)
    requires k <= |files|
    ensures ValidFiles(files, limits) ==> ValidFiles(files[..k], limits)
  {
    PrefixDistinct(files, k);
    SizesPrefix(files, k);
    if Fits(Sizes(files), limits) {
      FitsShorter(Sizes(files), k, limits);
    }
  }

  lemma PrefixDistinct(files: seq<IndexFile>, k: nat)
    requires k <= |files|
    ensures DistinctPaths(files) ==> DistinctPaths(files[..k])
  {
  }

  lemma SizesPrefix(files: seq<IndexFile>, k: nat)
    requires k <= |files|
    ensures Sizes(files)[..k] == Sizes(files[..k])
  {
  }

  // ---- The index as a map ---------------------------------------------------------------------

  /** The map lists exactly these files, each under its path. */
  ghost predicate MapsFiles(m: map<string, IndexFile>, files: seq<IndexFile>) {
    m.Keys == PathsOf(files) && forall i :: 0 <= i < |files| ==> files[i].path in m && m[files[i].path] == files[i]
  }

  method IndexFileMap(files: seq<IndexFile>) returns (m: map<string, IndexFile>)
    requires DistinctPaths(files)
    ensures MapsFiles(m, files)
  {
    m := map[];
    for i := 0 to |files|
      invariant MapsFiles(m, files[..i])
    {
      NextFile(files, i);
      PrefixDistinct(files, i + 1);
      MapOneMore(m, files, i);
      m := m[files[i].path := files[i]];
    }
    assert files[..|files|] == files;
  }

  lemma MapOneMore(m: map<string, IndexFile>, files: seq<IndexFile>, i: nat)
    requires i < |files| && MapsFiles(m, files[..i]) && files[i].path !in PathsOf(files[..i])
    ensures MapsFiles(m[files[i].path := files[i]], files[..i + 1])
  {
    NextFile(files, i);
    var front := files[..i];
    forall k | 0 <= k < i ensures files[..i + 1][k] == front[k] && front[k].path != files[i].path {
      assert front[k] in front;
    }
  }
}
