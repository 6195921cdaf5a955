/** Catalog entities and variant records (internal/catalog/model.go, records.go). */
module CatalogRecords {
  import opened Basics
  import opened Sorting
  import Media

  datatype Asset = Asset(
    path: string, fullPath: string, size: int, mediaType: string,
    sourceHash: string, etag: string, metadata: map<string, string>)

  datatype Variant = Variant(
    id: string, assetPath: string, artifactPath: string, size: int, mediaType: string,
    sourceHash: string, etag: string, encoding: string, format: string, width: int,
    metadata: map<string, string>)

  datatype VariantRecord = VariantRecord(
    assetPath: string, id: string, artifactPath: string, encoding: string,
    imageFormat: string, stage: string, width: int, variant: Variant)

  function Digits(n: nat): string {
    if n < 10 then [('0' as int + n) as char] else Digits(n / 10) + Digits(n % 10)
  }

  function DefaultVariantID(v: Variant): string {
    var encoding, format := TrimSpace(v.encoding), TrimSpace(v.format);
    TrimSpace(v.assetPath)
    + (if encoding != "" then "|encoding=" + encoding else "")
    + (if format != "" then "|format=" + format else "")
    + (if v.width > 0 then "|width=" + Digits(v.width) else "")
  }

  /** The image slot falls back to the media type, so an encoding sidecar of an
      image takes one too. */
  function ImageFormatKey(v: Variant): string {
    if v.format != "" then v.format else Media.ImageFormat(v.mediaType)
  }

  function StageKey(v: Variant): string {
    if "stage" in v.metadata then TrimSpace(v.metadata["stage"]) else ""
  }

  function NewVariantRecord(v: Variant): VariantRecord {
    var id := if v.id == "" then DefaultVariantID(v) else v.id;
    VariantRecord(v.assetPath, id, v.artifactPath, v.encoding, ImageFormatKey(v), StageKey(v), v.width, v.(id := id))
  }

  /** The record is derived from the variant it carries. */
  predicate IsProjection(r: VariantRecord) {
    r == NewVariantRecord(r.variant)
  }

  lemma RecordIsProjection(v: Variant)
    ensures IsProjection(NewVariantRecord(v))
  {
  }

  function Key(r: VariantRecord): string {
    r.assetPath + [0 as char] + r.id
  }

  datatype ImageSlot = ImageSlot(assetPath: string, format: string, width: int)

  function ImageSlotOf(r: VariantRecord): ImageSlot {
    ImageSlot(r.assetPath, r.imageFormat, r.width)
  }

  // ---- The record set and its slots ------------------------------------------

  /** The variants of a catalog, by key: the state every index is derived from. */
  type VariantTable = map<string, VariantRecord>

  ghost predicate Live(t: VariantTable, r: VariantRecord) {
    Key(r) in t && t[Key(r)] == r
  }

  predicate SharesArtifact(a: VariantRecord, b: VariantRecord) {
    b.artifactPath != "" && a.artifactPath == b.artifactPath
  }

  predicate SharesEncoding(a: VariantRecord, b: VariantRecord) {
    b.encoding != "" && a.assetPath == b.assetPath && a.encoding == b.encoding
  }

  predicate SharesImage(a: VariantRecord, b: VariantRecord) {
    b.imageFormat != "" && ImageSlotOf(a) == ImageSlotOf(b)
  }

  /** a and b claim a common slot: key, artifact path, encoding or image. */
  predicate Clashes(a: VariantRecord, b: VariantRecord) {
    Key(a) == Key(b) || SharesArtifact(a, b) || SharesEncoding(a, b) || SharesImage(a, b)
  }

  /** Every record sits under its key, and no two records claim a common slot. */
  ghost predicate WellKeyed(t: VariantTable) {
    && (forall k :: k in t ==> Key(t[k]) == k)
    && (forall j, k :: j in t && k in t && j != k ==> !Clashes(t[j], t[k]))
  }

  /** Upsert: the clashing records leave, the new one enters. */
  ghost function Upserted(t: VariantTable, r: VariantRecord): VariantTable {
    (map k | k in t && !Clashes(t[k], r) :: t[k])[Key(r) := r]
  }

  ghost function WithoutAsset(t: VariantTable, assetPath: string): VariantTable {
    map k | k in t && t[k].assetPath != assetPath :: t[k]
  }

  ghost function WithoutArtifact(t: VariantTable, artifactPath: string): VariantTable {
    map k | k in t && (artifactPath == "" || t[k].artifactPath != artifactPath) :: t[k]
  }

  lemma ClashesIsSymmetric(a: VariantRecord, b: VariantRecord)
    ensures Clashes(a, b) <==> Clashes(b, a)
  {
  }

  lemma UpsertedIsWellKeyed(t: VariantTable, r: VariantRecord)
    requires WellKeyed(t)
    ensures WellKeyed(Upserted(t, r))
  {
    var u := Upserted(t, r);
    forall j, k | j in u && k in u && j != k
      ensures !Clashes(u[j], u[k])
    {
      if k == Key(r) {
        assert j in t && u[j] == t[j];
      } else if j == Key(r) {
        ClashesIsSymmetric(u[j], u[k]);
      }
    }
  }

  /** Two sidecars of an image asset, each an encoding variant without format or width,
      claim one image slot, so the later upsert evicts the earlier record. */
  lemma ImageSidecarsEvictEachOther(t: VariantTable, a: Variant, b: Variant)
    requires a.assetPath == b.assetPath && a.id != "" && b.id != "" && a.id != b.id
    requires a.format == b.format == "" && a.width == b.width == 0
    requires a.mediaType == b.mediaType && Media.ImageFormat(a.mediaType) != ""
    ensures !Live(Upserted(Upserted(t, NewVariantRecord(a)), NewVariantRecord(b)), NewVariantRecord(a))
  {
    var p, q := NewVariantRecord(a), NewVariantRecord(b);
    assert SharesImage(p, q);
  }

  lemma KeySplits(a: string, b: string, c: string, d: string)
    requires a + [0 as char] + b == c + [0 as char] + d && 0 as char !in a && 0 as char !in c
    ensures a == c && b == d
  {
    var k := a + [0 as char] + b;
    FirstZero(a, b, k);
    FirstZero(c, d, k);
    assert a == k[..|a|] && c == k[..|c|];
    assert b == k[|a| + 1..] && d == k[|c| + 1..];
  }

  lemma FirstZero(a: string, b: string, k: string)
    requires k == a + [0 as char] + b && 0 as char !in a
    ensures k[|a|] == 0 as char && forall i :: 0 <= i < |a| ==> k[i] != 0 as char
  {
    assert forall i :: 0 <= i < |a| ==> k[i] == a[i] && a[i] in a;
  }
}
