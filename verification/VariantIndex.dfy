/** The variant index: six maps and four caches over one record set
    (internal/catalog/variant_index.go).

    The class invariant says that each map is exactly the projection of byKey, so
    the abstract value of the index is byKey alone. */
module VariantIndex {
  import opened Basics
  import opened Sorting
  import opened CatalogRecords

  // ---- Projections of a record set -------------------------------------------

  ghost predicate ProjectsArtifact(t: VariantTable, m: map<string, VariantRecord>) {
    && (forall a :: a in m ==> a != "" && Live(t, m[a]) && m[a].artifactPath == a)
    && (forall k :: k in t && t[k].artifactPath != "" ==> t[k].artifactPath in m && m[t[k].artifactPath] == t[k])
  }

  ghost predicate ProjectsEncoding(t: VariantTable, m: map<(string, string), VariantRecord>) {
    && (forall e :: e in m ==> e.1 != "" && Live(t, m[e]) && (m[e].assetPath, m[e].encoding) == e)
    && (forall k :: k in t && t[k].encoding != "" ==>
          (t[k].assetPath, t[k].encoding) in m && m[(t[k].assetPath, t[k].encoding)] == t[k])
  }

  ghost predicate ProjectsImage(t: VariantTable, m: map<ImageSlot, VariantRecord>) {
    && (forall s :: s in m ==> s.format != "" && Live(t, m[s]) && ImageSlotOf(m[s]) == s)
    && (forall k :: k in t && t[k].imageFormat != "" ==> ImageSlotOf(t[k]) in m && m[ImageSlotOf(t[k])] == t[k])
  }

  function Bucket(m: map<string, seq<VariantRecord>>, k: string): seq<VariantRecord> {
    if k in m then m[k] else []
  }

  ghost predicate ProjectsAssetPath(t: VariantTable, m: map<string, seq<VariantRecord>>) {
    && (forall p :: Distinct(Bucket(m, p)))
    && (forall p, r :: r in Bucket(m, p) <==> Live(t, r) && r.assetPath == p)
  }

  ghost predicate ProjectsStage(t: VariantTable, m: map<string, seq<VariantRecord>>) {
    && (forall s :: Distinct(Bucket(m, s)))
    && (forall s, r :: r in Bucket(m, s) <==> Live(t, r) && r.stage == s && s != "")
  }

  // ---- Sorted views ------------------------------------------------------------

  predicate KeyLeq(a: VariantRecord, b: VariantRecord) {
    StringLeq(Key(a), Key(b))
  }

  lemma KeyLeqIsTotal()
    ensures TotalPreorder(KeyLeq)
  {
    forall a, b ensures KeyLeq(a, b) || KeyLeq(b, a) {
      StringLeqTotal(Key(a), Key(b));
    }
    forall a, b, c | KeyLeq(a, b) && KeyLeq(b, c) ensures KeyLeq(a, c) {
      StringLeqTransitive(Key(a), Key(b), Key(c));
    }
  }

  /** Which records a sorted view holds. */
  datatype View = OfAsset(assetPath: string) | OfImage(assetPath: string, format: string) | OfStage(stage: string) | OfAll

  predicate Shows(v: View, r: VariantRecord) {
    match v
    case OfAsset(p) => r.assetPath == p
    case OfImage(p, f) => f != "" && r.assetPath == p && r.imageFormat == f
    case OfStage(s) => s != "" && r.stage == s
    case OfAll => true
  }

  /** The list a fresh sort of the view gives. */
  ghost predicate IsFreshSort(t: VariantTable, v: View, list: seq<VariantRecord>) {
    && SortedBy(list, KeyLeq)
    && Distinct(list)
    && (forall r :: r in list <==> Live(t, r) && Shows(v, r))
  }

  lemma FreshSortIsUnique(t: VariantTable, v: View, a: seq<VariantRecord>, b: seq<VariantRecord>)
    requires IsFreshSort(t, v, a) && IsFreshSort(t, v, b)
    ensures a == b
  {
    DistinctSameElements(a, b);
    forall i, j | 0 <= i < |a| && 0 <= j < |a| && KeyLeq(a[i], a[j]) && KeyLeq(a[j], a[i])
      ensures a[i] == a[j]
    {
      StringLeqTotal(Key(a[i]), Key(a[j]));
      assert a[i] in a && a[j] in a;
    }
    SortedIsUnique(a, b, KeyLeq);
  }

  lemma SortIsFresh(t: VariantTable, v: View, records: seq<VariantRecord>)
    requires Distinct(records)
    requires forall r :: r in records <==> Live(t, r) && Shows(v, r)
    ensures IsFreshSort(t, v, SortBy(records, KeyLeq))
  {
    KeyLeqIsTotal();
    SortIsSortedPermutation(records, KeyLeq);
    SameElements(SortBy(records, KeyLeq), records);
    DistinctPermutation(records, SortBy(records, KeyLeq));
  }

  /** A view that does not show a record is the same with and without it. */
  lemma FreshSortFrame(t: VariantTable, u: VariantTable, v: View, list: seq<VariantRecord>)
    requires IsFreshSort(t, v, list)
    requires forall r :: Shows(v, r) ==> (Live(t, r) <==> Live(u, r))
    ensures IsFreshSort(u, v, list)
  {
  }

  // ---- Removing and adding one record ---------------------------------------------

  function DropRecord(s: seq<VariantRecord>, r: VariantRecord): seq<VariantRecord> {
    if s == [] then []
    else (if Key(s[0]) == Key(r) then [] else [s[0]]) + DropRecord(s[1..], r)
  }

  lemma {:induction false} DropRecordMeaning(s: seq<VariantRecord>, r: VariantRecord)
    requires Distinct(s)
    ensures Distinct(DropRecord(s, r))
    ensures forall x :: x in DropRecord(s, r) <==> x in s && Key(x) != Key(r)
  {
    if s != [] {
      DropRecordMeaning(s[1..], r);
      assert s == [s[0]] + s[1..];
    }
  }

  lemma RemovedLive(t: VariantTable, r: VariantRecord)
    requires WellKeyed(t) && Live(t, r)
    ensures forall x :: Live(t - {Key(r)}, x) <==> Live(t, x) && x != r
    ensures WellKeyed(t - {Key(r)})
  {
  }

  lemma AddedLive(t: VariantTable, r: VariantRecord)
    requires Key(r) !in t
    ensures forall x :: Live(t[Key(r) := r], x) <==> Live(t, x) || x == r
  {
  }

  /** The records of a table whose view shows r are the only ones an update of r touches. */
  lemma UnshownLive(t: VariantTable, u: VariantTable, r: VariantRecord, v: View)
    requires forall x :: x != r ==> (Live(t, x) <==> Live(u, x))
    requires !Shows(v, r)
    ensures forall x :: Shows(v, x) ==> (Live(t, x) <==> Live(u, x))
  {
  }

  lemma BucketUpdate(m: map<string, seq<VariantRecord>>, k: string, list: seq<VariantRecord>)
    ensures forall p :: Bucket(m[k := list], p) == if p == k then list else Bucket(m, p)
  {
    forall p
      ensures Bucket(m[k := list], p) == if p == k then list else Bucket(m, p)
    {
      if p == k {
      } else {
        assert p in m[k := list] <==> p in m;
      }
    }
  }

  // ---- Each projection follows a removal -------------------------------------------

  lemma ArtifactWithout(t: VariantTable, m: map<string, VariantRecord>, r: VariantRecord)
    requires WellKeyed(t) && Live(t, r) && ProjectsArtifact(t, m)
    ensures ProjectsArtifact(t - {Key(r)}, if r.artifactPath != "" then m - {r.artifactPath} else m)
  {
    RemovedLive(t, r);
    assert forall k :: k in t && k != Key(r) ==> !Clashes(r, t[k]);
  }

  lemma EncodingWithout(t: VariantTable, m: map<(string, string), VariantRecord>, r: VariantRecord)
    requires WellKeyed(t) && Live(t, r) && ProjectsEncoding(t, m)
    ensures ProjectsEncoding(t - {Key(r)}, if r.encoding != "" then m - {(r.assetPath, r.encoding)} else m)
  {
    RemovedLive(t, r);
    assert forall k :: k in t && k != Key(r) ==> !Clashes(r, t[k]);
  }

  lemma ImageWithout(t: VariantTable, m: map<ImageSlot, VariantRecord>, r: VariantRecord)
    requires WellKeyed(t) && Live(t, r) && ProjectsImage(t, m)
    ensures ProjectsImage(t - {Key(r)}, if r.imageFormat != "" then m - {ImageSlotOf(r)} else m)
  {
    RemovedLive(t, r);
    assert forall k :: k in t && k != Key(r) ==> !Clashes(r, t[k]);
  }

  lemma AssetPathWithout(t: VariantTable, m: map<string, seq<VariantRecord>>, r: VariantRecord)
    requires WellKeyed(t) && Live(t, r) && ProjectsAssetPath(t, m)
    ensures ProjectsAssetPath(t - {Key(r)}, m[r.assetPath := DropRecord(Bucket(m, r.assetPath), r)])
  {
    RemovedLive(t, r);
    var list := DropRecord(Bucket(m, r.assetPath), r);
    DropRecordMeaning(Bucket(m, r.assetPath), r);
    BucketUpdate(m, r.assetPath, list);
    var n := m[r.assetPath := list];
    forall p
      ensures Distinct(Bucket(n, p))
    {
      assert Distinct(Bucket(m, p));
    }
    forall p, x
      ensures x in Bucket(n, p) <==> Live(t - {Key(r)}, x) && x.assetPath == p
    {
      assert x in Bucket(m, p) <==> Live(t, x) && x.assetPath == p;
    }
  }

  lemma StageWithout(t: VariantTable, m: map<string, seq<VariantRecord>>, r: VariantRecord)
    requires WellKeyed(t) && Live(t, r) && ProjectsStage(t, m)
    ensures ProjectsStage(t - {Key(r)}, if r.stage != "" then m[r.stage := DropRecord(Bucket(m, r.stage), r)] else m)
  {
    if r.stage != "" {
      RemovedLive(t, r);
      var list := DropRecord(Bucket(m, r.stage), r);
      DropRecordMeaning(Bucket(m, r.stage), r);
      BucketUpdate(m, r.stage, list);
      var n := m[r.stage := list];
      forall p
        ensures Distinct(Bucket(n, p))
      {
        assert Distinct(Bucket(m, p));
      }
      forall p, x
        ensures x in Bucket(n, p) <==> Live(t - {Key(r)}, x) && x.stage == p && p != ""
      {
        assert x in Bucket(m, p) <==> Live(t, x) && x.stage == p && p != "";
      }
    } else {
      RemovedLive(t, r);
    }
  }

  // ---- Each projection follows an arrival --------------------------------------------

  ghost predicate NoClash(t: VariantTable, r: VariantRecord) {
    forall k :: k in t ==> !Clashes(t[k], r)
  }

  lemma NoClashKeepsKeys(t: VariantTable, r: VariantRecord)
    requires WellKeyed(t) && NoClash(t, r)
    ensures Key(r) !in t && WellKeyed(t[Key(r) := r])
  {
    forall k | k in t ensures !Clashes(r, t[k]) {
      ClashesIsSymmetric(t[k], r);
    }
  }

  lemma ArtifactWith(t: VariantTable, m: map<string, VariantRecord>, r: VariantRecord)
    requires WellKeyed(t) && NoClash(t, r) && ProjectsArtifact(t, m)
    ensures ProjectsArtifact(t[Key(r) := r], if r.artifactPath != "" then m[r.artifactPath := r] else m)
  {
    NoClashKeepsKeys(t, r);
    AddedLive(t, r);
  }

  lemma EncodingWith(t: VariantTable, m: map<(string, string), VariantRecord>, r: VariantRecord)
    requires WellKeyed(t) && NoClash(t, r) && ProjectsEncoding(t, m)
    ensures ProjectsEncoding(t[Key(r) := r], if r.encoding != "" then m[(r.assetPath, r.encoding) := r] else m)
  {
    NoClashKeepsKeys(t, r);
    AddedLive(t, r);
  }

  lemma ImageWith(t: VariantTable, m: map<ImageSlot, VariantRecord>, r: VariantRecord)
    requires WellKeyed(t) && NoClash(t, r) && ProjectsImage(t, m)
    ensures ProjectsImage(t[Key(r) := r], if r.imageFormat != "" then m[ImageSlotOf(r) := r] else m)
  {
    NoClashKeepsKeys(t, r);
    AddedLive(t, r);
  }

  lemma AssetPathWith(t: VariantTable, m: map<string, seq<VariantRecord>>, r: VariantRecord)
    requires WellKeyed(t) && NoClash(t, r) && ProjectsAssetPath(t, m)
    ensures ProjectsAssetPath(t[Key(r) := r], m[r.assetPath := Bucket(m, r.assetPath) + [r]])
  {
    NoClashKeepsKeys(t, r);
    AddedLive(t, r);
    var list := Bucket(m, r.assetPath) + [r];
    assert r !in Bucket(m, r.assetPath);
    BucketUpdate(m, r.assetPath, list);
    var n := m[r.assetPath := list];
    forall p
      ensures Distinct(Bucket(n, p))
    {
      assert Distinct(Bucket(m, p));
    }
    forall p, x
      ensures x in Bucket(n, p) <==> Live(t[Key(r) := r], x) && x.assetPath == p
    {
      assert x in Bucket(m, p) <==> Live(t, x) && x.assetPath == p;
    }
  }

  lemma StageWith(t: VariantTable, m: map<string, seq<VariantRecord>>, r: VariantRecord)
    requires WellKeyed(t) && NoClash(t, r) && ProjectsStage(t, m)
    ensures ProjectsStage(t[Key(r) := r], if r.stage != "" then m[r.stage := Bucket(m, r.stage) + [r]] else m)
  {
    NoClashKeepsKeys(t, r);
    AddedLive(t, r);
    if r.stage != "" {
      var list := Bucket(m, r.stage) + [r];
      assert r !in Bucket(m, r.stage);
      BucketUpdate(m, r.stage, list);
      var n := m[r.stage := list];
      forall p
        ensures Distinct(Bucket(n, p))
      {
        assert Distinct(Bucket(m, p));
      }
      forall p, x
        ensures x in Bucket(n, p) <==> Live(t[Key(r) := r], x) && x.stage == p && p != ""
      {
        assert x in Bucket(m, p) <==> Live(t, x) && x.stage == p && p != "";
      }
    }
  }

  // ---- Who claims the slots of a new record -----------------------------------------

  ghost predicate Occupant<K>(m: map<K, VariantRecord>, slot: K, key: string) {
    slot in m && Key(m[slot]) == key
  }

  lemma ArtifactOccupant(t: VariantTable, m: map<string, VariantRecord>, r: VariantRecord)
    requires WellKeyed(t) && ProjectsArtifact(t, m)
    ensures forall k :: k in t ==>
              (SharesArtifact(t[k], r) <==> r.artifactPath != "" && Occupant(m, r.artifactPath, k))
  {
  }

  lemma EncodingOccupant(t: VariantTable, m: map<(string, string), VariantRecord>, r: VariantRecord)
    requires WellKeyed(t) && ProjectsEncoding(t, m)
    ensures forall k :: k in t ==>
              (SharesEncoding(t[k], r) <==> r.encoding != "" && Occupant(m, (r.assetPath, r.encoding), k))
  {
  }

  lemma ImageOccupant(t: VariantTable, m: map<ImageSlot, VariantRecord>, r: VariantRecord)
    requires WellKeyed(t) && ProjectsImage(t, m)
    ensures forall k :: k in t ==>
              (SharesImage(t[k], r) <==> r.imageFormat != "" && Occupant(m, ImageSlotOf(r), k))
  {
  }

  ghost predicate AreReplacements(t: VariantTable, r: VariantRecord, replacements: VariantTable) {
    && (forall k :: k in replacements <==> k in t && Clashes(t[k], r))
    && (forall k :: k in replacements ==> replacements[k] == t[k])
  }

  function AddReplacement(replacements: map<string, VariantRecord>, existing: Option<VariantRecord>)
    : (r: map<string, VariantRecord>)
    ensures |r| <= |replacements| + 1
    ensures forall k :: k in r <==> k in replacements || (existing.Some? && Key(existing.value) == k)
    ensures forall k :: k in r ==> r[k] == if existing.Some? && Key(existing.value) == k then existing.value else replacements[k]
  {
    if existing.Some? then
      assert replacements[Key(existing.value) := existing.value].Keys == replacements.Keys + {Key(existing.value)};
      replacements[Key(existing.value) := existing.value]
    else replacements
  }

  function Gathered(a: Option<VariantRecord>, b: Option<VariantRecord>, c: Option<VariantRecord>, d: Option<VariantRecord>)
    : map<string, VariantRecord>
  {
    AddReplacement(AddReplacement(AddReplacement(AddReplacement(map[], a), b), c), d)
  }

  ghost predicate NoneOrLive(t: VariantTable, r: Option<VariantRecord>) {
    r.Some? ==> Live(t, r.value)
  }

  ghost predicate Part(t: VariantTable, m: map<string, VariantRecord>) {
    forall k :: k in m ==> k in t && m[k] == t[k]
  }

  lemma AddReplacementKeepsPart(t: VariantTable, m: map<string, VariantRecord>, r: Option<VariantRecord>)
    requires Part(t, m) && NoneOrLive(t, r)
    ensures Part(t, AddReplacement(m, r))
  {
  }

  lemma GatheredIsPart(
    t: VariantTable,
    a: Option<VariantRecord>, b: Option<VariantRecord>, c: Option<VariantRecord>, d: Option<VariantRecord>)
    requires NoneOrLive(t, a) && NoneOrLive(t, b) && NoneOrLive(t, c) && NoneOrLive(t, d)
    ensures Part(t, Gathered(a, b, c, d))
  {
    var m := AddReplacement(map[], a);
    AddReplacementKeepsPart(t, map[], a);
    AddReplacementKeepsPart(t, m, b);
    AddReplacementKeepsPart(t, AddReplacement(m, b), c);
    AddReplacementKeepsPart(t, AddReplacement(AddReplacement(m, b), c), d);
  }

  lemma GatheredAreReplacements(
    t: VariantTable, r: VariantRecord,
    a: Option<VariantRecord>, b: Option<VariantRecord>, c: Option<VariantRecord>, d: Option<VariantRecord>)
    requires NoneOrLive(t, a) && NoneOrLive(t, b) && NoneOrLive(t, c) && NoneOrLive(t, d)
    requires forall k :: k in t ==> (Clashes(t[k], r) <==>
               (a.Some? && Key(a.value) == k) || (b.Some? && Key(b.value) == k)
               || (c.Some? && Key(c.value) == k) || (d.Some? && Key(d.value) == k))
    ensures AreReplacements(t, r, Gathered(a, b, c, d))
  {
    GatheredIsPart(t, a, b, c, d);
    var m := Gathered(a, b, c, d);
    forall k
      ensures k in m <==> k in t && Clashes(t[k], r)
    {
      assert k in m <==> (a.Some? && Key(a.value) == k) || (b.Some? && Key(b.value) == k)
                         || (c.Some? && Key(c.value) == k) || (d.Some? && Key(d.value) == k);
    }
  }

  lemma UpsertSplit(t: VariantTable, r: VariantRecord, replacements: VariantTable)
    requires AreReplacements(t, r, replacements)
    ensures NoClash(t - replacements.Keys, r)
    ensures (t - replacements.Keys)[Key(r) := r] == Upserted(t, r)
  {
  }

  lemma KeysMatch(t: VariantTable, r: VariantRecord, k: string)
    requires WellKeyed(t) && k in t && t[k] == r
    ensures Key(r) == k && Live(t, r)
  {
  }

  lemma MinusOneMore(t: VariantTable, all: set<string>, pending: set<string>, k: string)
    requires k in pending && pending <= all
    ensures t - (all - pending) - {k} == t - (all - (pending - {k}))
    ensures k in t ==> k in t - (all - pending) && (t - (all - pending))[k] == t[k]
  {
  }

  ghost function Undeleted(t: VariantTable, gone: seq<VariantRecord>): VariantTable {
    map k | k in t && t[k] !in gone :: t[k]
  }

  lemma OneMoreDeleted(t: VariantTable, records: seq<VariantRecord>, i: nat)
    requires WellKeyed(t) && i < |records| && Live(t, records[i]) && records[i] !in records[..i]
    ensures Live(Undeleted(t, records[..i]), records[i])
    ensures Undeleted(t, records[..i + 1]) == Undeleted(t, records[..i]) - {Key(records[i])}
  {
    assert records[..i + 1] == records[..i] + [records[i]];
  }

  class Index {
    var byKey: map<string, VariantRecord>
    var byAssetPath: map<string, seq<VariantRecord>>
    var byArtifact: map<string, VariantRecord>
    var byEncoding: map<(string, string), VariantRecord>
    var byImage: map<ImageSlot, VariantRecord>
    var byStage: map<string, seq<VariantRecord>>

    var sortedByAssetPath: map<string, seq<VariantRecord>>
    var sortedByImageFormat: map<(string, string), seq<VariantRecord>>
    var sortedByStage: map<string, seq<VariantRecord>>
    var sortedAllVariantRecords: Option<seq<VariantRecord>>

    ghost predicate Projected()
      reads this
    {
      && WellKeyed(byKey)
      && ProjectsAssetPath(byKey, byAssetPath)
      && ProjectsArtifact(byKey, byArtifact)
      && ProjectsEncoding(byKey, byEncoding)
      && ProjectsImage(byKey, byImage)
      && ProjectsStage(byKey, byStage)
    }

    ghost predicate CachesFresh()
      reads this
    {
      && (forall p :: p in sortedByAssetPath ==> IsFreshSort(byKey, OfAsset(p), sortedByAssetPath[p]))
      && (forall k :: k in sortedByImageFormat ==> IsFreshSort(byKey, OfImage(k.0, k.1), sortedByImageFormat[k]))
      && (forall s :: s in sortedByStage ==> IsFreshSort(byKey, OfStage(s), sortedByStage[s]))
      && (sortedAllVariantRecords.Some? ==> IsFreshSort(byKey, OfAll, sortedAllVariantRecords.value))
    }

    ghost predicate Valid()
      reads this
    {
      Projected() && CachesFresh()
    }

    constructor ()
      ensures Valid() && byKey == map[]
    {
      byKey, byAssetPath, byArtifact, byEncoding, byImage, byStage := map[], map[], map[], map[], map[], map[];
      sortedByAssetPath, sortedByImageFormat, sortedByStage := map[], map[], map[];
      sortedAllVariantRecords := None;
    }

    // ---- Writing ---------------------------------------------------------------

    /** After this no cached view shows the record, so the caches survive its removal
        or its arrival. */
    method InvalidateRecordCache(record: VariantRecord)
      modifies this`sortedByAssetPath, this`sortedByImageFormat, this`sortedByStage, this`sortedAllVariantRecords
      ensures old(CachesFresh()) ==> CachesFresh()
      ensures forall p :: p in sortedByAssetPath ==> !Shows(OfAsset(p), record)
      ensures forall k :: k in sortedByImageFormat ==> !Shows(OfImage(k.0, k.1), record)
      ensures forall s :: s in sortedByStage ==> !Shows(OfStage(s), record)
      ensures sortedAllVariantRecords == None
    {
      sortedByAssetPath := sortedByAssetPath - {record.assetPath};
      if record.imageFormat != "" {
        sortedByImageFormat := sortedByImageFormat - {(record.assetPath, record.imageFormat)};
      }
      if record.stage != "" {
        sortedByStage := sortedByStage - {record.stage};
      }
      sortedAllVariantRecords := None;
    }

    twostate lemma CachesSurvive(record: VariantRecord)
      requires old(CachesFresh())
      requires forall x :: x != record ==> (Live(old(byKey), x) <==> Live(byKey, x))
      requires sortedByAssetPath == old(sortedByAssetPath) && sortedByImageFormat == old(sortedByImageFormat)
      requires sortedByStage == old(sortedByStage) && sortedAllVariantRecords == old(sortedAllVariantRecords) == None
      requires forall p :: p in sortedByAssetPath ==> !Shows(OfAsset(p), record)
      requires forall k :: k in sortedByImageFormat ==> !Shows(OfImage(k.0, k.1), record)
      requires forall s :: s in sortedByStage ==> !Shows(OfStage(s), record)
      ensures CachesFresh()
    {
      var t, u := old(byKey), byKey;
      forall p | p in sortedByAssetPath
        ensures IsFreshSort(u, OfAsset(p), sortedByAssetPath[p])
      {
        UnshownLive(t, u, record, OfAsset(p));
        FreshSortFrame(t, u, OfAsset(p), sortedByAssetPath[p]);
      }
      forall k | k in sortedByImageFormat
        ensures IsFreshSort(u, OfImage(k.0, k.1), sortedByImageFormat[k])
      {
        UnshownLive(t, u, record, OfImage(k.0, k.1));
        FreshSortFrame(t, u, OfImage(k.0, k.1), sortedByImageFormat[k]);
      }
      forall s | s in sortedByStage
        ensures IsFreshSort(u, OfStage(s), sortedByStage[s])
      {
        UnshownLive(t, u, record, OfStage(s));
        FreshSortFrame(t, u, OfStage(s), sortedByStage[s]);
      }
    }

    method DeleteFromMaps(record: VariantRecord)
      requires Projected() && Live(byKey, record)
      modifies this`byKey, this`byAssetPath, this`byArtifact, this`byEncoding, this`byImage, this`byStage
      ensures Projected()
      ensures byKey == old(byKey) - {Key(record)}
    {
      ghost var t := byKey;
      RemovedLive(t, record);
      byKey := byKey - {Key(record)};
      AssetPathWithout(t, byAssetPath, record);
      byAssetPath := byAssetPath[record.assetPath := DropRecord(Bucket(byAssetPath, record.assetPath), record)];
      ArtifactWithout(t, byArtifact, record);
      byArtifact := if record.artifactPath != "" then byArtifact - {record.artifactPath} else byArtifact;
      EncodingWithout(t, byEncoding, record);
      byEncoding := if record.encoding != "" then byEncoding - {(record.assetPath, record.encoding)} else byEncoding;
      ImageWithout(t, byImage, record);
      byImage := if record.imageFormat != "" then byImage - {ImageSlotOf(record)} else byImage;
      StageWithout(t, byStage, record);
      byStage := if record.stage != "" then byStage[record.stage := DropRecord(Bucket(byStage, record.stage), record)] else byStage;
    }

    method Delete(record: VariantRecord)
      requires Valid() && Live(byKey, record)
      modifies this
      ensures Valid()
      ensures byKey == old(byKey) - {Key(record)}
    {
      InvalidateRecordCache(record);
      label Invalidated:
      RemovedLive(byKey, record);
      DeleteFromMaps(record);
      CachesSurvive@Invalidated(record);
    }

    method InsertIntoMaps(record: VariantRecord)
      requires Projected() && NoClash(byKey, record)
      modifies this`byKey, this`byAssetPath, this`byArtifact, this`byEncoding, this`byImage, this`byStage
      ensures Projected()
      ensures byKey == old(byKey)[Key(record) := record]
    {
      ghost var t := byKey;
      NoClashKeepsKeys(t, record);
      byKey := byKey[Key(record) := record];
      AssetPathWith(t, byAssetPath, record);
      byAssetPath := byAssetPath[record.assetPath := Bucket(byAssetPath, record.assetPath) + [record]];
      ArtifactWith(t, byArtifact, record);
      byArtifact := if record.artifactPath != "" then byArtifact[record.artifactPath := record] else byArtifact;
      EncodingWith(t, byEncoding, record);
      byEncoding := if record.encoding != "" then byEncoding[(record.assetPath, record.encoding) := record] else byEncoding;
      ImageWith(t, byImage, record);
      byImage := if record.imageFormat != "" then byImage[ImageSlotOf(record) := record] else byImage;
      StageWith(t, byStage, record);
      byStage := if record.stage != "" then byStage[record.stage := Bucket(byStage, record.stage) + [record]] else byStage;
    }

    method Insert(record: VariantRecord)
      requires Valid() && NoClash(byKey, record)
      modifies this
      ensures Valid()
      ensures byKey == old(byKey)[Key(record) := record]
    {
      InvalidateRecordCache(record);
      label Invalidated:
      NoClashKeepsKeys(byKey, record);
      AddedLive(byKey, record);
      InsertIntoMaps(record);
      CachesSurvive@Invalidated(record);
    }

    method Occupants(record: VariantRecord)
      returns (byPath: Option<VariantRecord>, byCoding: Option<VariantRecord>, bySlot: Option<VariantRecord>)
      requires Projected()
      ensures forall k :: k in byKey ==> (Clashes(byKey[k], record) <==>
                k == Key(record) || (byPath.Some? && Key(byPath.value) == k)
                || (byCoding.Some? && Key(byCoding.value) == k) || (bySlot.Some? && Key(bySlot.value) == k))
      ensures byPath.Some? ==> Live(byKey, byPath.value)
      ensures byCoding.Some? ==> Live(byKey, byCoding.value)
      ensures bySlot.Some? ==> Live(byKey, bySlot.value)
    {
      ArtifactOccupant(byKey, byArtifact, record);
      EncodingOccupant(byKey, byEncoding, record);
      ImageOccupant(byKey, byImage, record);
      byPath, byCoding, bySlot := None, None, None;
      if record.artifactPath != "" && record.artifactPath in byArtifact {
        byPath := Some(byArtifact[record.artifactPath]);
      }
      if record.encoding != "" && (record.assetPath, record.encoding) in byEncoding {
        byCoding := Some(byEncoding[(record.assetPath, record.encoding)]);
      }
      if record.imageFormat != "" && ImageSlotOf(record) in byImage {
        bySlot := Some(byImage[ImageSlotOf(record)]);
      }
    }

    /** The records the new one clashes with: at most one for each of its four slots. */
    method CollectReplacements(record: VariantRecord) returns (replacements: map<string, VariantRecord>)
      requires Projected()
      ensures AreReplacements(byKey, record, replacements)
      ensures |replacements| <= 4
    {
      var byPath, byCoding, bySlot := Occupants(record);
      var existing := if Key(record) in byKey then Some(byKey[Key(record)]) else None;
      GatheredAreReplacements(byKey, record, existing, byPath, byCoding, bySlot);
      replacements := AddReplacement(map[], existing);
      replacements := AddReplacement(replacements, byPath);
      replacements := AddReplacement(replacements, byCoding);
      replacements := AddReplacement(replacements, bySlot);
    }

    method DeleteAll(records: map<string, VariantRecord>)
      requires Valid()
      requires forall k :: k in records ==> k in byKey && byKey[k] == records[k]
      modifies this
      ensures Valid()
      ensures byKey == old(byKey) - records.Keys
    {
      var pending := records.Keys;
      while pending != {}
        invariant Valid() && pending <= records.Keys
        invariant byKey == old(byKey) - (records.Keys - pending)
        decreases pending
      {
        var k :| k in pending;
        KeysMatch(byKey, records[k], k);
        MinusOneMore(old(byKey), records.Keys, pending, k);
        Delete(records[k]);
        pending := pending - {k};
      }
    }

    method Upsert(record: VariantRecord)
      requires Valid()
      modifies this
      ensures Valid()
      ensures byKey == Upserted(old(byKey), record)
    {
      var replacements := CollectReplacements(record);
      UpsertSplit(byKey, record, replacements);
      DeleteAll(replacements);
      Insert(record);
    }

    method DeleteByArtifactPath(artifactPath: string) returns (found: bool)
      requires Valid()
      modifies this
      ensures Valid()
      ensures found <==> artifactPath != "" && exists k :: k in old(byKey) && old(byKey)[k].artifactPath == artifactPath
      ensures byKey == WithoutArtifact(old(byKey), artifactPath)
    {
      if artifactPath !in byArtifact {
        return false;
      }
      var record := byArtifact[artifactPath];
      ghost var t := byKey;
      assert forall k :: k in t && k != Key(record) ==> !Clashes(t[k], record);
      Delete(record);
      found := true;
    }

    // ---- Reading ---------------------------------------------------------------

    method FindEncoding(assetPath: string, encoding: string) returns (found: Option<VariantRecord>)
      requires Valid()
      ensures found.Some? ==> Live(byKey, found.value)
      ensures forall r :: Live(byKey, r) && encoding != "" ==>
                (found == Some(r) <==> r.assetPath == assetPath && r.encoding == encoding)
      ensures encoding == "" ==> found == None
    {
      var slot := (assetPath, encoding);
      found := if slot in byEncoding then Some(byEncoding[slot]) else None;
    }

    method FindImage(assetPath: string, format: string, width: int) returns (found: Option<VariantRecord>)
      requires Valid()
      ensures found.Some? ==> Live(byKey, found.value)
      ensures forall r :: Live(byKey, r) && format != "" ==>
                (found == Some(r) <==> ImageSlotOf(r) == ImageSlot(assetPath, format, width))
      ensures format == "" ==> found == None
    {
      var slot := ImageSlot(assetPath, format, width);
      found := if slot in byImage then Some(byImage[slot]) else None;
    }

    method ListByAssetPath(assetPath: string) returns (records: seq<VariantRecord>)
      requires Valid()
      modifies this`sortedByAssetPath
      ensures Valid()
      ensures IsFreshSort(byKey, OfAsset(assetPath), records)
    {
      if assetPath in sortedByAssetPath {
        return sortedByAssetPath[assetPath];
      }
      var bucket := Bucket(byAssetPath, assetPath);
      records := SortBy(bucket, KeyLeq);
      SortIsFresh(byKey, OfAsset(assetPath), bucket);
      sortedByAssetPath := sortedByAssetPath[assetPath := records];
    }

    method ImageRow(assetPath: string, format: string) returns (records: seq<VariantRecord>)
      requires Valid()
      ensures Distinct(records)
      ensures forall r :: r in records <==> Live(byKey, r) && Shows(OfImage(assetPath, format), r)
    {
      var row := set slot | slot in byImage && slot.assetPath == assetPath && slot.format == format;
      var pending := row;
      records := [];
      while pending != {}
        invariant pending <= row && Distinct(records)
        invariant forall r :: r in records <==> exists slot :: slot in row - pending && byImage[slot] == r
        decreases pending
      {
        var slot :| slot in pending;
        forall r | r in records
          ensures ImageSlotOf(r) != slot
        {
          var other :| other in row - pending && byImage[other] == r;
        }
        records := records + [byImage[slot]];
        pending := pending - {slot};
      }
      forall r
        ensures r in records <==> Live(byKey, r) && Shows(OfImage(assetPath, format), r)
      {
        if Live(byKey, r) && Shows(OfImage(assetPath, format), r) {
          assert ImageSlotOf(r) in row && byImage[ImageSlotOf(r)] == r;
        }
      }
    }

    method ListByImageFormat(assetPath: string, format: string) returns (records: seq<VariantRecord>)
      requires Valid()
      modifies this`sortedByImageFormat
      ensures Valid()
      ensures IsFreshSort(byKey, OfImage(assetPath, format), records)
    {
      if (assetPath, format) in sortedByImageFormat {
        return sortedByImageFormat[(assetPath, format)];
      }
      var row := ImageRow(assetPath, format);
      records := SortBy(row, KeyLeq);
      SortIsFresh(byKey, OfImage(assetPath, format), row);
      sortedByImageFormat := sortedByImageFormat[(assetPath, format) := records];
    }

    method ListByStage(stage: string) returns (records: seq<VariantRecord>)
      requires Valid()
      modifies this`sortedByStage
      ensures Valid()
      ensures IsFreshSort(byKey, OfStage(stage), records)
    {
      if stage in sortedByStage {
        return sortedByStage[stage];
      }
      var bucket := Bucket(byStage, stage);
      records := SortBy(bucket, KeyLeq);
      SortIsFresh(byKey, OfStage(stage), bucket);
      sortedByStage := sortedByStage[stage := records];
    }

    method Records() returns (records: seq<VariantRecord>)
      requires Valid()
      ensures Distinct(records)
      ensures forall r :: r in records <==> Live(byKey, r)
    {
      var pending := byKey.Keys;
      records := [];
      while pending != {}
        invariant pending <= byKey.Keys && Distinct(records)
        invariant forall r :: r in records <==> Live(byKey, r) && Key(r) !in pending
        decreases pending
      {
        var k :| k in pending;
        records := records + [byKey[k]];
        pending := pending - {k};
      }
    }

    method All() returns (records: seq<VariantRecord>)
      requires Valid()
      modifies this`sortedAllVariantRecords
      ensures Valid()
      ensures IsFreshSort(byKey, OfAll, records)
    {
      if sortedAllVariantRecords.Some? {
        return sortedAllVariantRecords.value;
      }
      var values := Records();
      records := SortBy(values, KeyLeq);
      SortIsFresh(byKey, OfAll, values);
      sortedAllVariantRecords := Some(records);
    }

    method DeleteRecords(records: seq<VariantRecord>)
      requires Valid() && Distinct(records)
      requires forall r :: r in records ==> Live(byKey, r)
      modifies this
      ensures Valid()
      ensures byKey == Undeleted(old(byKey), records)
    {
      ghost var t := byKey;
      for i := 0 to |records|
        invariant Valid()
        invariant byKey == Undeleted(t, records[..i])
      {
        assert records[i] in records && records[i] !in records[..i];
        OneMoreDeleted(t, records, i);
        Delete(records[i]);
      }
      assert records[..|records|] == records;
    }

    /** Removes every variant of an asset and returns them in key order. */
    method DeleteByAssetPath(assetPath: string) returns (removed: seq<VariantRecord>)
      requires Valid()
      modifies this
      ensures Valid()
      ensures IsFreshSort(old(byKey), OfAsset(assetPath), removed)
      ensures byKey == WithoutAsset(old(byKey), assetPath)
    {
      removed := ListByAssetPath(assetPath);
      ghost var t := byKey;
      DeleteRecords(removed);
      assert forall k :: k in t ==> Live(t, t[k]);
    }
  }

  // ---- What a sorted view is ---------------------------------------------------------------

  /** Its records come in strictly ascending order of their keys, and are exactly the records
      of the asset, of the asset's image format, of the stage, or all. */
  lemma FreshSortFields(t: VariantTable, v: View, list: seq<VariantRecord>)
    requires IsFreshSort(t, v, list)
    ensures forall i, j :: 0 <= i < j < |list| ==> Key(list[i]) != Key(list[j]) && LexicographicallyUpTo(Key(list[i]), Key(list[j]))
    ensures v.OfAsset? ==> forall r :: r in list <==> Live(t, r) && r.assetPath == v.assetPath
    ensures v.OfImage? ==> forall r :: r in list <==> Live(t, r) && r.assetPath == v.assetPath && r.imageFormat == v.format != ""
    ensures v.OfStage? ==> forall r :: r in list <==> Live(t, r) && r.stage == v.stage != ""
    ensures v.OfAll? ==> forall r :: r in list <==> Live(t, r)
  {
    forall i, j | 0 <= i < j < |list|
      ensures Key(list[i]) != Key(list[j]) && LexicographicallyUpTo(Key(list[i]), Key(list[j]))
    {
      assert KeyLeq(list[i], list[j]);
      StringLeqIff(Key(list[i]), Key(list[j]));
      assert list[i] in list && list[j] in list;
    }
  }
}
