/** Cleaning the artifact cache (internal/pipeline/service_cleanup_support.go and
    service_cleanup_result.go): drop what is too old, then evict the least recently used
    files of each namespace and at last of the whole cache. */
module Cleanup {
  import opened Basics
  import opened CachePolicy
  import opened SizedMaps

  /** A file as the walk over the cache directory finds it; paths are relative to it. */
  datatype FileInfo = FileInfo(size: nat, modTime: int)

  datatype CleanupFile = CleanupFile(path: string, namespace: string, size: nat, lastUsed: int)

  /** What asked for a removal. A path is asked for at most once in each phase. */
  datatype Phase = Expiry | NamespaceLimit | CacheLimit

  type Disk = map<string, FileInfo>

  // ---- Bytes on a disk ------------------------------------------------------------------

  function SizeOf(info: FileInfo): nat {
    info.size
  }

  ghost function Bytes(disk: Disk): nat {
    Sum(disk, SizeOf)
  }

  lemma BytesWithout(disk: Disk, p: string)
    requires p in disk
    ensures |disk - {p}| == |disk| - 1
    ensures Bytes(disk) == disk[p].size + Bytes(disk - {p})
  {
    SumWithout(disk, SizeOf, p);
  }

  lemma AmongWithout(disk: Disk, paths: set<string>, p: string)
    requires p in disk
    ensures Bytes(Among(disk - {p}, paths)) == Bytes(Among(disk, paths)) - if p in paths then disk[p].size else 0
  {
    if p in paths {
      BytesWithout(Among(disk, paths), p);
      assert Among(disk - {p}, paths) == Among(disk, paths) - {p};
    } else {
      assert Among(disk - {p}, paths) == Among(disk, paths);
    }
  }

  lemma RemainsWithout(disk: Disk, scan: Disk, p: string)
    requires Remains(disk, scan) && p in disk
    ensures Remains(disk - {p}, scan) && |disk - {p}| == |disk| - 1
    ensures Bytes(disk - {p}) == Bytes(disk) - disk[p].size
  {
    BytesWithout(disk, p);
  }

  lemma FewerBytes(later: Disk, earlier: Disk)
    requires Remains(later, earlier)
    ensures Bytes(later) <= Bytes(earlier)
  {
    SumOfLess(later, earlier, SizeOf);
  }

  // ---- Lists of files -------------------------------------------------------------------

  function Paths(files: seq<CleanupFile>): set<string> {
    set f | f in files :: f.path
  }

  /** The list names different files that lay on this disk with these sizes. */
  ghost predicate Lists(files: seq<CleanupFile>, disk: Disk) {
    && (forall i, j :: 0 <= i < j < |files| ==> files[i].path != files[j].path)
    && (forall f :: f in files ==> f.path in disk && disk[f.path].size == f.size)
  }

  function Total(files: seq<CleanupFile>): nat {
    if files == [] then 0 else Total(files[..|files| - 1]) + files[|files| - 1].size
  }

  lemma {:induction false} TotalIsBytes(files: seq<CleanupFile>, disk: Disk)
    requires Lists(files, disk)
    ensures Total(files) == Bytes(Among(disk, Paths(files)))
    decreases |files|
  {
    if files == [] {
      assert |Among(disk, {})| == 0;
      assert Paths(files) == {};
    } else {
      var front, last := files[..|files| - 1], files[|files| - 1];
      TotalIsBytes(front, disk);
      PathsStep(front, last);
      assert files == front + [last];
      NotAmong(files);
      AmongWith(disk, Paths(front), last.path);
    }
  }

  lemma PathsStep(front: seq<CleanupFile>, last: CleanupFile)
    ensures Paths(front + [last]) == Paths(front) + {last.path}
  {
    assert forall f :: f in front + [last] <==> f in front || f == last;
  }

  lemma NotAmong(files: seq<CleanupFile>)
    requires files != [] && forall i, j :: 0 <= i < j < |files| ==> files[i].path != files[j].path
    ensures files[|files| - 1].path !in Paths(files[..|files| - 1])
  {
  }

  lemma AmongWith(disk: Disk, paths: set<string>, p: string)
    requires p in disk && p !in paths
    ensures Bytes(Among(disk, paths + {p})) == Bytes(Among(disk, paths)) + disk[p].size
  {
    BytesWithout(Among(disk, paths + {p}), p);
    assert Among(disk, paths + {p}) - {p} == Among(disk, paths);
  }

  // ---- The result -----------------------------------------------------------------------

  class CleanupResult {
    var scanned: int
    var removed: int
    var removedBytes: int
    var totalBytes: int
    var removedTTL: int
    var removedSize: int
    var removedTTLBytes: int
    var removedSizeBytes: int

    constructor (scanned: int)
      ensures this.scanned == scanned
      ensures removed == removedBytes == totalBytes == removedTTL == removedSize == removedTTLBytes == removedSizeBytes == 0
    {
      this.scanned := scanned;
      removed, removedBytes, totalBytes, removedTTL, removedSize, removedTTLBytes, removedSizeBytes := 0, 0, 0, 0, 0, 0, 0;
    }

    /** The counters tell what went from the scanned disk: removed and remaining bytes add
        up to the scanned ones. */
    ghost predicate Balances(scan: Disk, disk: Disk)
      reads this
    {
      && Remains(disk, scan)
      && scanned == |scan|
      && removed == |scan| - |disk| == removedTTL + removedSize
      && totalBytes == Bytes(disk)
      && removedBytes + totalBytes == Bytes(scan)
      && removedBytes == removedTTLBytes + removedSizeBytes
    }

    method RecordExpiredCleanupRemoval(size: nat, ghost scan: Disk, ghost disk: Disk, ghost path: string)
      requires Balances(scan, disk) && path in disk && disk[path].size == size
      modifies this
      ensures Balances(scan, disk - {path})
      ensures removedTTL == old(removedTTL) + 1 && removedSize == old(removedSize)
    {
      RemainsWithout(disk, scan, path);
      removed := removed + 1;
      removedTTL := removedTTL + 1;
      removedBytes := removedBytes + size;
      removedTTLBytes := removedTTLBytes + size;
      totalBytes := totalBytes - size;
    }

    method RecordSizeCleanupRemoval(size: nat, ghost scan: Disk, ghost disk: Disk, ghost path: string)
      requires Balances(scan, disk) && path in disk && disk[path].size == size
      modifies this
      ensures Balances(scan, disk - {path})
      ensures removedTTL == old(removedTTL) && removedSize == old(removedSize) + 1
    {
      RemainsWithout(disk, scan, path);
      removed := removed + 1;
      removedSize := removedSize + 1;
      removedBytes := removedBytes + size;
      removedSizeBytes := removedSizeBytes + size;
      totalBytes := totalBytes - size;
    }
  }

  // ---- What eviction promises --------------------------------------------------------------

  /** What eviction left of files that were all there: the limit holds, the least recently
      used went first, and the last one that went was needed to meet the limit. */
  ghost predicate EvictedByAge(files: seq<CleanupFile>, limit: int, after: Disk) {
    && (limit <= 0 ==> forall f :: f in files ==> f.path in after)
    && (limit > 0 ==> Bytes(Among(after, Paths(files))) <= limit)
    && (forall f, g :: f in files && g in files && f.path !in after && g.path in after ==> f.lastUsed <= g.lastUsed)
    && ((forall f :: f in files ==> f.path in after) || exists last :: LastEvicted(files, limit, after, last))
  }

  /** The most recently used file that went; with it the limit was still exceeded. */
  ghost predicate LastEvicted(files: seq<CleanupFile>, limit: int, after: Disk, last: CleanupFile) {
    && last in files && last.path !in after
    && (forall f :: f in files && f.path !in after ==> f.lastUsed <= last.lastUsed)
    && Bytes(Among(after, Paths(files))) + last.size > limit
  }

  /** Only the listed files' own disk entries matter. */
  lemma EvictedByAgeIsLocal(files: seq<CleanupFile>, limit: int, a: Disk, b: Disk)
    requires EvictedByAge(files, limit, a) && forall f :: f in files ==> (f.path in a <==> f.path in b)
    requires Among(a, Paths(files)) == Among(b, Paths(files))
    ensures EvictedByAge(files, limit, b)
  {
    if f :| f in files && f.path !in a {
      var last :| LastEvicted(files, limit, a, last);
      assert LastEvicted(files, limit, b, last);
    }
  }

  /** Every removal a phase may ask for succeeds. */
  ghost predicate Succeeds(removes: (Phase, string) -> bool, phase: Phase) {
    forall p :: removes(phase, p)
  }

  /** The files whose paths were not removed, in their order. */
  function Kept(files: seq<CleanupFile>, removed: set<string>): (kept: seq<CleanupFile>)
    ensures forall f :: f in kept <==> f in files && f.path !in removed
  {
    if files == [] then []
    else
      var last := files[|files| - 1];
      Kept(files[..|files| - 1], removed) + if last.path !in removed then [last] else []
  }

  lemma {:induction false} KeptIsListed(files: seq<CleanupFile>, removed: set<string>, disk: Disk)
    requires Lists(files, disk)
    ensures Lists(Kept(files, removed), disk)
  {
    if files != [] {
      var front := files[..|files| - 1];
      KeptIsListed(front, removed, disk);
      assert forall f :: f in Kept(front, removed) ==> f in front;
    }
  }

  lemma KeptStep(files: seq<CleanupFile>, removed: set<string>)
    requires files != []
    ensures var front, last := files[..|files| - 1], files[|files| - 1];
            Kept(files, removed) == Kept(front, removed) + if last.path !in removed then [last] else []
  {
  }

  lemma {:induction false} KeepAll(files: seq<CleanupFile>)
    ensures Kept(files, {}) == files
  {
    if files != [] {
      KeepAll(files[..|files| - 1]);
      KeptStep(files, {});
      FrontAndLast(files);
    }
  }

  lemma FrontAndLast(files: seq<CleanupFile>)
    requires files != []
    ensures files == files[..|files| - 1] + [files[|files| - 1]]
  {
  }

  lemma StillListed(files: seq<CleanupFile>, scan: Disk, disk: Disk)
    requires Lists(files, scan) && Remains(disk, scan)
    requires forall f :: f in files ==> f.path in disk
    ensures Lists(files, disk)
  {
  }

  // ---- The eviction loop --------------------------------------------------------------------

  /** The files not in the heap were popped, oldest first. */
  ghost predicate PoppedByAge(files: seq<CleanupFile>, heap: set<CleanupFile>) {
    && (forall f :: f in heap ==> f in files)
    && (forall f, g :: f in files && f !in heap && g in heap ==> f.lastUsed <= g.lastUsed)
  }

  /** From before to disk exactly the removed paths went, all of them popped. */
  ghost predicate Went(files: seq<CleanupFile>, heap: set<CleanupFile>, removed: set<string>, before: Disk, disk: Disk) {
    && disk == before - removed
    && removed <= before.Keys
    && (forall p :: p in removed ==> exists f :: f in files && f !in heap && f.path == p)
  }

  /** When removals succeed, what was popped is what went, and the running total is what
      the listed files still take. */
  ghost predicate InStep(files: seq<CleanupFile>, heap: set<CleanupFile>, totalBytes: int, limit: int, last: Option<CleanupFile>, disk: Disk) {
    && totalBytes == Bytes(Among(disk, Paths(files)))
    && (forall f :: f in files ==> (f in heap <==> f.path in disk))
    && (last == None ==> forall f :: f in files ==> f in heap)
    && (last.Some? ==> last.value in files && last.value !in heap && totalBytes + last.value.size > limit
                       && forall f :: f in files && f !in heap ==> f.lastUsed <= last.value.lastUsed)
  }

  lemma WentMeaning(files: seq<CleanupFile>, heap: set<CleanupFile>, removed: set<string>, before: Disk, disk: Disk)
    requires Went(files, heap, removed, before, disk)
    ensures Remains(disk, before) && before.Keys - disk.Keys == removed <= Paths(files)
  {
  }

  lemma PopKeepsOrder(files: seq<CleanupFile>, heap: set<CleanupFile>, file: CleanupFile)
    requires PoppedByAge(files, heap) && file in heap && forall g :: g in heap ==> file.lastUsed <= g.lastUsed
    ensures PoppedByAge(files, heap - {file})
  {
  }

  lemma RemovalWent(files: seq<CleanupFile>, heap: set<CleanupFile>, removed: set<string>, before: Disk, disk: Disk, file: CleanupFile)
    requires Went(files, heap, removed, before, disk) && file in files && file.path in disk
    ensures Went(files, heap - {file}, removed + {file.path}, before, disk - {file.path})
  {
    assert disk - {file.path} == before - (removed + {file.path});
  }

  lemma RemovalInStep(files: seq<CleanupFile>, heap: set<CleanupFile>, totalBytes: int, limit: int, last: Option<CleanupFile>, disk: Disk, file: CleanupFile, scan: Disk)
    requires InStep(files, heap, totalBytes, limit, last, disk) && PoppedByAge(files, heap)
    requires file in heap && Lists(files, scan) && Remains(disk, scan) && totalBytes > limit
    ensures file.path in disk
    ensures InStep(files, heap - {file}, totalBytes - file.size, limit, Some(file), disk - {file.path})
  {
    AmongWithout(disk, Paths(files), file.path);
    assert forall f :: f in files && f.path == file.path ==> f == file;
  }

  lemma WithoutOneMore(hits: map<string, int>, removed: set<string>, p: string)
    ensures hits - removed - {p} == hits - (removed + {p})
  {
  }

  lemma RoundWent(files: seq<CleanupFile>, heap: set<CleanupFile>, removed: set<string>, before: Disk, disk: Disk, file: CleanupFile, ok: bool)
    requires Went(files, heap, removed, before, disk) && PoppedByAge(files, heap) && file in heap && (ok ==> file.path in disk)
    ensures Went(files, heap - {file}, if ok then removed + {file.path} else removed, before, if ok then disk - {file.path} else disk)
  {
    if ok {
      RemovalWent(files, heap, removed, before, disk, file);
    }
  }

  /** The heap never runs dry above the limit. */
  lemma NeverDry(files: seq<CleanupFile>, totalBytes: int, limit: int, last: Option<CleanupFile>, disk: Disk)
    requires InStep(files, {}, totalBytes, limit, last, disk)
    ensures totalBytes == 0
  {
    assert Among(disk, Paths(files)) == map[];
  }

  lemma InStepIsEvictedByAge(files: seq<CleanupFile>, heap: set<CleanupFile>, totalBytes: int, limit: int, last: Option<CleanupFile>, disk: Disk)
    requires InStep(files, heap, totalBytes, limit, last, disk) && PoppedByAge(files, heap)
    requires 0 < limit && totalBytes <= limit
    ensures EvictedByAge(files, limit, disk)
  {
    if last.Some? {
      assert LastEvicted(files, limit, disk, last.value);
    }
  }

  method SumBySize(files: seq<CleanupFile>) returns (total: nat)
    ensures total == Total(files)
  {
    total := 0;
    for i := 0 to |files|
      invariant total == Total(files[..i])
    {
      assert files[..i + 1][..i] == files[..i];
      total := total + files[i].size;
    }
    assert files[..|files|] == files;
  }

  method RejectRemoved(files: seq<CleanupFile>, removed: set<string>) returns (kept: seq<CleanupFile>)
    ensures kept == Kept(files, removed)
  {
    kept := [];
    for i := 0 to |files|
      invariant kept == Kept(files[..i], removed)
    {
      assert files[..i + 1][..i] == files[..i];
      if files[i].path !in removed {
        kept := kept + [files[i]];
      }
    }
    assert files[..|files|] == files;
  }

  class CleanupService {
    const cacheDir: string
    const policy: ArtifactPolicy
    const removes: (Phase, string) -> bool
    var disk: Disk
    var hits: map<string, int>

    constructor (cacheDir: string, policy: ArtifactPolicy, removes: (Phase, string) -> bool, disk: Disk, hits: map<string, int>)
      ensures this.cacheDir == cacheDir && this.policy == policy && this.removes == removes
      ensures this.disk == disk && this.hits == hits
    {
      this.cacheDir, this.policy, this.removes, this.disk, this.hits := cacheDir, policy, removes, disk, hits;
    }

    /** Removes one file and forgets its hits. A file that is already gone counts as a failed
        removal: the source asks os.IsNotExist, which does not look through the wrapped error
        its own removal helper returns. */
    method RemoveCleanupFile(path: string, phase: Phase) returns (ok: bool)
      modifies `disk, `hits
      ensures ok <==> path in old(disk) && removes(phase, path)
      ensures disk == if ok then old(disk) - {path} else old(disk)
      ensures hits == if ok then old(hits) - {path} else old(hits)
    {
      ok := path in disk && removes(phase, path);
      if ok {
        disk := disk - {path};
        hits := hits - {path};
      }
    }

    method PopOldest(heap: set<CleanupFile>, ghost files: seq<CleanupFile>) returns (file: CleanupFile)
      requires heap != {} && PoppedByAge(files, heap)
      ensures file in heap && PoppedByAge(files, heap - {file})
      ensures forall g :: g in heap ==> file.lastUsed <= g.lastUsed
    {
      OldestExists(heap);
      file :| file in heap && forall g :: g in heap ==> file.lastUsed <= g.lastUsed;
      PopKeepsOrder(files, heap, file);
    }

    /** One round of eviction: the least recently used file left in the heap. */
    method EvictOldest(ghost files: seq<CleanupFile>, heap: set<CleanupFile>, phase: Phase, result: CleanupResult, ghost scan: Disk)
      returns (file: CleanupFile, ok: bool)
      requires heap != {} && PoppedByAge(files, heap)
      requires result.Balances(scan, disk) && Lists(files, scan)
      modifies `disk, `hits, result
      ensures file in heap && PoppedByAge(files, heap - {file})
      ensures ok <==> file.path in old(disk) && removes(phase, file.path)
      ensures disk == if ok then old(disk) - {file.path} else old(disk)
      ensures hits == if ok then old(hits) - {file.path} else old(hits)
      ensures result.Balances(scan, disk) && result.removedTTL == old(result.removedTTL)
    {
      file := PopOldest(heap, files);
      ok := RemoveCleanupFile(file.path, phase);
      if ok {
        result.RecordSizeCleanupRemoval(file.size, scan, old(disk), file.path);
      }
    }

    /** The eviction loop. dry: the heap ran out above the limit. */
    method EvictDownTo(files: seq<CleanupFile>, total: int, limit: int, phase: Phase, result: CleanupResult, ghost scan: Disk, ghost sure: bool)
      returns (dry: bool, removed: set<string>)
      requires result.Balances(scan, disk) && Lists(files, scan) && 0 < limit < total
      requires sure ==> Succeeds(removes, phase) && Lists(files, disk) && total == Bytes(Among(disk, Paths(files)))
      modifies `disk, `hits, result
      ensures result.Balances(scan, disk) && result.removedTTL == old(result.removedTTL)
      ensures Remains(disk, old(disk)) && old(disk).Keys - disk.Keys == removed <= Paths(files)
      ensures hits == old(hits) - removed
      ensures sure ==> !dry && EvictedByAge(files, limit, disk)
    {
      var totalBytes := total;
      var heap := set f | f in files;
      ghost var last: Option<CleanupFile> := None;
      dry, removed := false, {};
      while totalBytes > limit && !dry
        invariant PoppedByAge(files, heap) && Went(files, heap, removed, old(disk), disk)
        invariant result.Balances(scan, disk) && result.removedTTL == old(result.removedTTL)
        invariant hits == old(hits) - removed
        invariant sure ==> !dry && InStep(files, heap, totalBytes, limit, last, disk)
        decreases !dry, heap
      {
        if heap == {} {
          if sure {
            NeverDry(files, totalBytes, limit, last, disk);
          }
          dry := true;
        } else {
          var size: nat;
          heap, removed, size, last := EvictOne(files, heap, removed, totalBytes, limit, phase, result, scan, sure, last, old(disk), old(hits));
          totalBytes := totalBytes - size;
        }
      }
      WentMeaning(files, heap, removed, old(disk), disk);
      if sure {
        InStepIsEvictedByAge(files, heap, totalBytes, limit, last, disk);
      }
    }

    method EvictOne(ghost files: seq<CleanupFile>, heap: set<CleanupFile>, removed: set<string>, ghost totalBytes: int, ghost limit: int,
                    phase: Phase, result: CleanupResult, ghost scan: Disk, ghost sure: bool, ghost last: Option<CleanupFile>,
                    ghost before: Disk, ghost hitsBefore: map<string, int>)
      returns (left: set<CleanupFile>, gone: set<string>, size: nat, ghost next: Option<CleanupFile>)
      requires heap != {} && PoppedByAge(files, heap) && Went(files, heap, removed, before, disk)
      requires result.Balances(scan, disk) && Lists(files, scan) && hits == hitsBefore - removed && totalBytes > limit
      requires sure ==> Succeeds(removes, phase) && InStep(files, heap, totalBytes, limit, last, disk)
      modifies `disk, `hits, result
      ensures left < heap && PoppedByAge(files, left)
      ensures Went(files, left, gone, before, disk)
      ensures result.Balances(scan, disk) && result.removedTTL == old(result.removedTTL) && hits == hitsBefore - gone
      ensures sure ==> InStep(files, left, totalBytes - size, limit, next, disk)
    {
      ghost var now := disk;
      var file, ok := EvictOldest(files, heap, phase, result, scan);
      left := heap - {file};
      gone := if ok then removed + {file.path} else removed;
      size := if ok then file.size else 0;
      next := if sure then Some(file) else last;
      RoundWent(files, heap, removed, before, now, file, ok);
      WithoutOneMore(hitsBefore, removed, file.path);
      if sure {
        RemovalInStep(files, heap, totalBytes, limit, last, now, file, scan);
      }
    }

    /** evictCleanupFilesBySize. What one phase of eviction does to listed files; when its
        removals succeed, EvictedByAge. */
    method EvictCleanupFilesBySize(files: seq<CleanupFile>, limit: int, phase: Phase, result: CleanupResult, ghost scan: Disk)
      returns (remaining: seq<CleanupFile>)
      requires result.Balances(scan, disk) && Lists(files, scan)
      modifies `disk, `hits, result
      ensures result.Balances(scan, disk) && result.removedTTL == old(result.removedTTL)
      ensures Remains(disk, old(disk)) && old(disk).Keys - disk.Keys <= Paths(files)
      ensures hits == old(hits) - (old(disk).Keys - disk.Keys)
      ensures Lists(remaining, scan) && forall f :: f in remaining ==> f in files
      ensures Succeeds(removes, phase) && Lists(files, old(disk)) ==>
                remaining == Kept(files, old(disk).Keys - disk.Keys) && EvictedByAge(files, limit, disk)
      ensures Lists(files, old(disk)) && (limit > 0 ==> Bytes(Among(old(disk), Paths(files))) <= limit) ==>
                disk == old(disk) && remaining == files
    {
      ghost var sure := Succeeds(removes, phase) && Lists(files, disk);
      var totalBytes := SumBySize(files);
      if Lists(files, disk) {
        TotalIsBytes(files, disk);
      }
      if limit <= 0 || files == [] || totalBytes <= limit {
        KeepAll(files);
        assert disk.Keys - disk.Keys == {};
        return files;
      }
      remaining := EvictAndKeep(files, totalBytes, limit, phase, result, scan, sure);
    }

    /** The loop, and the list of what is left. */
    method EvictAndKeep(files: seq<CleanupFile>, total: int, limit: int, phase: Phase, result: CleanupResult, ghost scan: Disk, ghost sure: bool)
      returns (remaining: seq<CleanupFile>)
      requires result.Balances(scan, disk) && Lists(files, scan) && 0 < limit < total
      requires sure ==> Succeeds(removes, phase) && Lists(files, disk) && total == Bytes(Among(disk, Paths(files)))
      modifies `disk, `hits, result
      ensures result.Balances(scan, disk) && result.removedTTL == old(result.removedTTL)
      ensures Remains(disk, old(disk)) && old(disk).Keys - disk.Keys <= Paths(files)
      ensures hits == old(hits) - (old(disk).Keys - disk.Keys)
      ensures Lists(remaining, scan) && forall f :: f in remaining ==> f in files
      ensures sure ==> remaining == Kept(files, old(disk).Keys - disk.Keys) && EvictedByAge(files, limit, disk)
    {
      var dry, removed := EvictDownTo(files, total, limit, phase, result, scan, sure);
      if dry || removed == {} {
        KeepAll(files);
        return files;
      }
      KeptIsListed(files, removed, scan);
      remaining := RejectRemoved(files, removed);
    }

    // ---- The phases ---------------------------------------------------------------------

    method RemoveIfExpired(file: CleanupFile, now: int, result: CleanupResult, ghost scan: Disk) returns (gone: bool)
      requires result.Balances(scan, disk) && file.path in disk && disk[file.path].size == file.size
      modifies `disk, `hits, result
      ensures gone <==> Goes(policy, removes, now)(file)
      ensures disk == if gone then old(disk) - {file.path} else old(disk)
      ensures hits == if gone then old(hits) - {file.path} else old(hits)
      ensures result.Balances(scan, disk) && result.removedSize == old(result.removedSize)
    {
      gone := policy.ShouldRemoveExpired(file.namespace, file.lastUsed, now);
      if gone {
        gone := RemoveCleanupFile(file.path, Expiry);
        if gone {
          result.RecordExpiredCleanupRemoval(file.size, scan, old(disk), file.path);
        }
      }
    }

    /** removeExpiredCleanupFiles: exactly the expired files go, as far as they can be removed. */
    method RemoveExpiredCleanupFiles(files: seq<CleanupFile>, now: int, result: CleanupResult, ghost scan: Disk)
      returns (remaining: seq<CleanupFile>)
      requires result.Balances(scan, disk) && Lists(files, disk)
      modifies `disk, `hits, result
      ensures result.Balances(scan, disk) && result.removedSize == old(result.removedSize)
      ensures disk == old(disk) - Chosen(files, Goes(policy, removes, now)) && hits == old(hits) - Chosen(files, Goes(policy, removes, now))
      ensures remaining == Kept(files, Chosen(files, Goes(policy, removes, now)))
    {
      remaining := [];
      ghost var goes := Goes(policy, removes, now);
      for i := 0 to |files|
        invariant result.Balances(scan, disk) && result.removedSize == old(result.removedSize)
        invariant disk == old(disk) - Chosen(files[..i], goes) && hits == old(hits) - Chosen(files[..i], goes)
        invariant remaining == Kept(files[..i], Chosen(files[..i], goes))
      {
        ChooseNext(files, i, goes, old(disk), old(hits));
        KeepNext(files, i, goes, old(disk));
        var gone := RemoveIfExpired(files[i], now, result, scan);
        if !gone {
          remaining := remaining + [files[i]];
        }
      }
      assert files[..|files|] == files;
    }

    /** enforceCleanupCacheLimitByNamespace, in any order of the namespaces. When removals
        succeed, each namespace's files are EvictedByAge down to its own limit. */
    method EnforceCleanupCacheLimitByNamespace(files: seq<CleanupFile>, result: CleanupResult, ghost scan: Disk)
      returns (remaining: seq<CleanupFile>)
      requires result.Balances(scan, disk) && Lists(files, scan)
      modifies `disk, `hits, result
      ensures result.Balances(scan, disk) && result.removedTTL == old(result.removedTTL)
      ensures Remains(disk, old(disk)) && hits == old(hits) - (old(disk).Keys - disk.Keys)
      ensures Lists(remaining, scan)
      ensures Succeeds(removes, NamespaceLimit) && Lists(files, old(disk)) ==>
                && (forall f :: f in remaining <==> f in files && f.path in disk)
                && (forall p :: p in old(disk) && p !in Paths(files) ==> p in disk)
                && (forall ns :: EvictedByAge(InNamespace(files, ns), policy.MaxCacheBytesForNamespace(ns), disk))
      ensures Lists(files, old(disk)) && (forall ns :: NamespaceWithinLimit(files, policy, old(disk), ns)) ==>
                disk == old(disk) && forall f :: f in remaining ==> f in files
    {
      ghost var sure := Succeeds(removes, NamespaceLimit) && Lists(files, disk);
      ghost var fits := Lists(files, disk) && forall ns :: NamespaceWithinLimit(files, policy, disk, ns);
      var groups := GroupByNamespace(files);
      var pending := groups.Keys;
      remaining := [];
      if sure {
        EnforceNone(files, pending, policy, disk);
      }
      while pending != {}
        invariant pending <= groups.Keys
        invariant result.Balances(scan, disk) && result.removedTTL == old(result.removedTTL)
        invariant Remains(disk, old(disk)) && hits == old(hits) - (old(disk).Keys - disk.Keys)
        invariant Lists(remaining, scan) && TakenFrom(remaining, files, pending)
        invariant sure ==> Enforced(files, pending, remaining, policy, old(disk), disk)
        invariant fits ==> disk == old(disk)
        decreases pending
      {
        var ns :| ns in pending;
        ghost var before := disk;
        var kept := EnforceNamespace(files, groups[ns], ns, result, scan, sure, fits, pending, remaining, old(disk), old(hits));
        JoinLists(files, pending, remaining, kept, ns, scan);
        remaining := remaining + kept;
        pending := pending - {ns};
      }
    }

    method EnforceNamespace(ghost files: seq<CleanupFile>, own: seq<CleanupFile>, ns: string, result: CleanupResult, ghost scan: Disk,
                            ghost sure: bool, ghost fits: bool, ghost pending: set<string>, ghost remaining: seq<CleanupFile>,
                            ghost start: Disk, ghost hitsBefore: map<string, int>)
      returns (kept: seq<CleanupFile>)
      requires result.Balances(scan, disk) && Lists(files, scan) && own == InNamespace(files, ns) && ns in pending
      requires Remains(disk, start) && hits == hitsBefore - (start.Keys - disk.Keys)
      requires TakenFrom(remaining, files, pending)
      requires sure ==> Succeeds(removes, NamespaceLimit) && Enforced(files, pending, remaining, policy, start, disk)
      requires fits ==> Lists(files, disk) && NamespaceWithinLimit(files, policy, disk, ns)
      modifies `disk, `hits, result
      ensures result.Balances(scan, disk) && result.removedTTL == old(result.removedTTL)
      ensures Remains(disk, start) && hits == hitsBefore - (start.Keys - disk.Keys)
      ensures Lists(kept, scan) && forall f :: f in kept ==> f in own
      ensures sure ==> Enforced(files, pending - {ns}, remaining + kept, policy, start, disk)
      ensures fits ==> disk == old(disk)
    {
      ghost var before := disk;
      InNamespaceIsListed(files, ns, scan);
      if fits {
        InNamespaceIsListed(files, ns, disk);
      }
      if sure {
        PendingIsListed(files, pending, remaining, policy, start, disk, ns, scan);
      }
      kept := EvictCleanupFilesBySize(own, policy.MaxCacheBytesForNamespace(ns), NamespaceLimit, result, scan);
      WithoutMore(hitsBefore, start, before, disk);
      if sure {
        EnforceNext(files, pending, remaining, policy, start, before, disk, ns, scan);
      }
    }

    // ---- The whole cleanup -----------------------------------------------------------------

    /** collectCleanupFiles and prepareCleanupResult: every file on the disk, once. */
    method ScanFiles(result: CleanupResult) returns (files: seq<CleanupFile>)
      requires result.scanned == |disk| && result.removed == result.removedBytes == result.totalBytes == result.removedTTL == 0
      requires result.removedSize == result.removedTTLBytes == result.removedSizeBytes == 0
      modifies result
      ensures Lists(files, disk) && Paths(files) == disk.Keys
      ensures forall f :: f in files ==> f == Prepared(f.path, disk[f.path], hits)
      ensures result.Balances(disk, disk)
    {
      files := [];
      var left := disk.Keys;
      while left != {}
        invariant left <= disk.Keys && Lists(files, disk) && Paths(files) == disk.Keys - left
        invariant forall f :: f in files ==> f == Prepared(f.path, disk[f.path], hits)
        invariant result.totalBytes == Total(files)
        invariant result.scanned == |disk| && result.removed == result.removedBytes == result.removedTTL == 0
        invariant result.removedSize == result.removedTTLBytes == result.removedSizeBytes == 0
        decreases left
      {
        var path :| path in left;
        var file := Prepared(path, disk[path], hits);
        PathsStep(files, file);
        ScanNext(files, file, disk);
        files := files + [file];
        result.totalBytes := result.totalBytes + file.size;
        left := left - {path};
      }
      TotalIsBytes(files, disk);
      assert Among(disk, disk.Keys) == disk;
    }

    /** enforceCleanupCacheLimit. */
    method EnforceCleanupCacheLimit(files: seq<CleanupFile>, result: CleanupResult, ghost scan: Disk)
      requires result.Balances(scan, disk) && Lists(files, scan)
      modifies `disk, `hits, result
      ensures result.Balances(scan, disk) && result.removedTTL == old(result.removedTTL)
      ensures Remains(disk, old(disk)) && hits == old(hits) - (old(disk).Keys - disk.Keys)
      ensures Succeeds(removes, NamespaceLimit) && Succeeds(removes, CacheLimit) && Lists(files, old(disk)) && old(disk).Keys == Paths(files) ==>
                WithinLimits(files, policy, disk)
      ensures Lists(files, old(disk)) && WithinLimits(files, policy, old(disk)) ==> disk == old(disk)
    {
      ghost var start, startHits := disk, hits;
      ghost var sure := Succeeds(removes, NamespaceLimit) && Succeeds(removes, CacheLimit) && Lists(files, disk) && disk.Keys == Paths(files);
      var remaining := EnforceCleanupCacheLimitByNamespace(files, result, scan);
      ghost var before := disk;
      if sure {
        StillListed(remaining, scan, disk);
      }
      if Lists(files, start) && WithinLimits(files, policy, start) {
        StillListed(remaining, scan, disk);
        AmongBytes(disk, Paths(remaining));
      }
      var last := EvictCleanupFilesBySize(remaining, policy.maxCacheBytes, CacheLimit, result, scan);
      WithoutMore(startHits, start, before, disk);
      if sure {
        LimitsHold(files, remaining, policy, start, before, disk);
      }
    }

    /** cleanupArtifacts. Whatever fails to be removed, the counters balance against the disk
        as scanned. When removals succeed, nothing expired is left and every limit holds. When
        the limits hold without the expired files that could be removed, exactly those go. */
    method CleanupArtifacts(now: int) returns (result: CleanupResult)
      modifies `disk, `hits
      ensures fresh(result)
      ensures IsBlank(cacheDir) ==> disk == old(disk) && hits == old(hits) && result.removed == result.scanned == 0
      ensures !IsBlank(cacheDir) ==> result.Balances(old(disk), disk)
      ensures Remains(disk, old(disk)) && hits == old(hits) - (old(disk).Keys - disk.Keys)
      ensures !IsBlank(cacheDir) && Succeeds(removes, Expiry) ==>
                forall p :: p in disk ==> p in old(disk) && !IsExpired(policy, p, old(disk)[p].modTime, old(hits), now)
      ensures !IsBlank(cacheDir) && Settled(policy, Unexpired(policy, removes, old(disk), old(hits), now)) ==>
                disk == Unexpired(policy, removes, old(disk), old(hits), now)
      ensures !IsBlank(cacheDir) && (forall phase :: Succeeds(removes, phase)) ==> Settled(policy, disk)
    {
      if IsBlank(cacheDir) {
        result := new CleanupResult(0);
        return;
      }
      ghost var start, startHits, goes := disk, hits, Goes(policy, removes, now);
      result := new CleanupResult(|disk|);
      var files := ScanFiles(result);
      var remaining := RemoveExpiredCleanupFiles(files, now, result, start);
      ghost var before := disk;
      AfterExpiry(files, goes, start);
      WithoutKeys(start, startHits, Chosen(files, goes));
      UnexpiredStay(files, start, startHits, policy, removes, now);
      if Settled(policy, before) {
        SettledIsWithinLimits(remaining, policy, before);
      }
      EnforceCleanupCacheLimit(remaining, result, start);
      WithoutMore(startHits, start, before, disk);
      LimitsByPath(remaining, policy, before, disk);
    }
  }

  /** The files of one namespace. */
  ghost function OfNamespace(disk: Disk, ns: string): Disk {
    map p | p in disk && Namespace(p) == ns :: disk[p]
  }

  /** The cache fits, and so does each namespace that has its own limit. */
  ghost predicate Settled(policy: ArtifactPolicy, disk: Disk) {
    && (policy.maxCacheBytes > 0 ==> Bytes(disk) <= policy.maxCacheBytes)
    && (forall ns :: ns in policy.namespaceMaxCacheBytes && policy.namespaceMaxCacheBytes[ns] > 0 ==>
          Bytes(OfNamespace(disk, ns)) <= policy.namespaceMaxCacheBytes[ns])
  }

  /** Neither the file's own time nor its last hit is within the age that holds for its
      namespace: the namespace's own positive age, else the default one. */
  predicate IsExpired(policy: ArtifactPolicy, path: string, modTime: int, hits: map<string, int>, now: int) {
    var own := if Namespace(path) in policy.namespaceMaxAge then policy.namespaceMaxAge[Namespace(path)] else 0;
    var age := if own > 0 then own else policy.defaultMaxAge;
    0 < age < MAX_DURATION && now - modTime > age && (path in hits ==> now - hits[path] > age)
  }

  /** The disk without the expired files that can be removed. */
  ghost function Unexpired(policy: ArtifactPolicy, removes: (Phase, string) -> bool, disk: Disk, hits: map<string, int>, now: int): Disk {
    map p | p in disk && !(IsExpired(policy, p, disk[p].modTime, hits, now) && removes(Expiry, p)) :: disk[p]
  }

  lemma ExpiredFile(policy: ArtifactPolicy, path: string, info: FileInfo, hits: map<string, int>, now: int)
    ensures var f := Prepared(path, info, hits);
            policy.ShouldRemoveExpired(f.namespace, f.lastUsed, now) <==> IsExpired(policy, path, info.modTime, hits, now)
  {
    ExpiredIff(policy, Namespace(path), EffectiveLastUsed(path, info.modTime, hits), now);
  }

  /** The namespace is the path's first segment. */
  lemma NamespaceIsFirstSegment(first: string, rest: string)
    requires '/' !in first
    ensures Namespace(first + ['/'] + rest) == TrimSpace(first) && Namespace(first) == TrimSpace(first)
  {
    IndexOfFirst(first, rest, '/');
    assert (first + ['/'] + rest)[..|first|] == first;
  }

  lemma NamespaceIsTrimmed(path: string)
    ensures TrimSpace(Namespace(path)) == Namespace(path)
  {
    TrimSpaceIsTrimmed(Cut(path, '/').before);
    TrimmedIsFixed(Namespace(path));
  }

  /** A file's last use is the later of its own time and its last hit. */
  lemma LastUseIsLatest(path: string, modTime: int, hits: map<string, int>)
    ensures var last := EffectiveLastUsed(path, modTime, hits);
            && last >= modTime && (path in hits ==> last >= hits[path])
            && (last == modTime || (path in hits && last == hits[path]))
  {
  }

  lemma AmongBytes(disk: Disk, paths: set<string>)
    ensures Bytes(Among(disk, paths)) <= Bytes(disk)
  {
    FewerBytes(Among(disk, paths), disk);
  }

  /** Both the cache's limit and every namespace's hold. */
  ghost predicate WithinLimits(files: seq<CleanupFile>, policy: ArtifactPolicy, disk: Disk) {
    && (policy.maxCacheBytes > 0 ==> Bytes(disk) <= policy.maxCacheBytes)
    && (forall ns :: NamespaceWithinLimit(files, policy, disk, ns))
  }

  ghost predicate NamespaceWithinLimit(files: seq<CleanupFile>, policy: ArtifactPolicy, disk: Disk, ns: string) {
    var limit := policy.MaxCacheBytesForNamespace(ns);
    limit > 0 ==> Bytes(Among(disk, Paths(InNamespace(files, ns)))) <= limit
  }

  /** Evicting for the whole cache afterwards keeps every namespace within its limit. */
  lemma LimitsHold(files: seq<CleanupFile>, remaining: seq<CleanupFile>, policy: ArtifactPolicy, start: Disk, before: Disk, disk: Disk)
    requires Paths(files) == start.Keys && Remains(before, start) && Remains(disk, before)
    requires forall f :: f in remaining <==> f in files && f.path in before
    requires forall ns :: EvictedByAge(InNamespace(files, ns), policy.MaxCacheBytesForNamespace(ns), before)
    requires EvictedByAge(remaining, policy.maxCacheBytes, disk)
    ensures WithinLimits(files, policy, disk)
  {
    forall p | p in disk ensures p in Paths(remaining) {
      assert p in Paths(files);
    }
    assert Among(disk, Paths(remaining)) == disk;
    forall ns ensures NamespaceWithinLimit(files, policy, disk, ns) {
      var paths := Paths(InNamespace(files, ns));
      assert EvictedByAge(InNamespace(files, ns), policy.MaxCacheBytesForNamespace(ns), before);
      FewerBytes(Among(disk, paths), Among(before, paths));
    }
  }

  lemma AfterExpiry(files: seq<CleanupFile>, goes: CleanupFile -> bool, start: Disk)
    requires Lists(files, start) && Paths(files) == start.Keys
    ensures var gone := Chosen(files, goes);
            && Lists(Kept(files, gone), start) && Lists(Kept(files, gone), start - gone)
            && Paths(Kept(files, gone)) == (start - gone).Keys && gone <= start.Keys
  {
    var gone := Chosen(files, goes);
    KeptIsListed(files, gone, start);
    StillListed(Kept(files, gone), start, start - gone);
  }

  lemma WithoutKeys(start: Disk, hits: map<string, int>, gone: set<string>)
    requires gone <= start.Keys
    ensures Remains(start - gone, start) && hits - gone == hits - (start.Keys - (start - gone).Keys)
  {
    assert start.Keys - (start - gone).Keys == gone;
  }

  lemma UnexpiredStay(files: seq<CleanupFile>, start: Disk, hits: map<string, int>, policy: ArtifactPolicy,
                      removes: (Phase, string) -> bool, now: int)
    requires Paths(files) == start.Keys && (forall f :: f in files ==> f.path in start && f == Prepared(f.path, start[f.path], hits))
    ensures start - Chosen(files, Goes(policy, removes, now)) == Unexpired(policy, removes, start, hits, now)
    ensures Succeeds(removes, Expiry) ==>
              forall p :: p in Unexpired(policy, removes, start, hits, now) ==> !IsExpired(policy, p, start[p].modTime, hits, now)
  {
    var goes := Goes(policy, removes, now);
    forall p | p in start
      ensures p in Chosen(files, goes) <==> IsExpired(policy, p, start[p].modTime, hits, now) && removes(Expiry, p)
    {
      assert p in Paths(files);
      var f :| f in files && f.path == p;
      ExpiredFile(policy, p, start[p], hits, now);
      assert forall g :: g in files && g.path == p ==> g == f;
    }
  }

  lemma SettledIsWithinLimits(files: seq<CleanupFile>, policy: ArtifactPolicy, disk: Disk)
    requires Settled(policy, disk) && Paths(files) == disk.Keys
    requires forall f :: f in files ==> f.namespace == Namespace(f.path)
    ensures WithinLimits(files, policy, disk)
  {
    forall ns ensures NamespaceWithinLimit(files, policy, disk, ns) {
      NamespaceByPath(files, disk, disk, ns);
      if TrimSpace(ns) == ns {
        LimitIff(policy, ns);
        AmongBytes(disk, Paths(InNamespace(files, ns)));
      } else {
        NobodyInUntrimmed(disk, ns);
      }
    }
  }

  lemma NobodyInUntrimmed(disk: Disk, ns: string)
    requires TrimSpace(ns) != ns
    ensures OfNamespace(disk, ns) == map[] && Bytes(OfNamespace(disk, ns)) == 0
  {
    forall p | p in disk ensures Namespace(p) != ns {
      NamespaceIsTrimmed(p);
    }
    assert OfNamespace(disk, ns) == map[];
  }

  lemma LimitsByPath(files: seq<CleanupFile>, policy: ArtifactPolicy, before: Disk, disk: Disk)
    requires Paths(files) == before.Keys && Remains(disk, before)
    requires forall f :: f in files ==> f.namespace == Namespace(f.path)
    ensures WithinLimits(files, policy, disk) ==> Settled(policy, disk)
  {
    forall ns | WithinLimits(files, policy, disk) && ns in policy.namespaceMaxCacheBytes && policy.namespaceMaxCacheBytes[ns] > 0
      ensures Bytes(OfNamespace(disk, ns)) <= policy.namespaceMaxCacheBytes[ns]
    {
      if TrimSpace(ns) == ns {
        LimitIff(policy, ns);
        assert NamespaceWithinLimit(files, policy, disk, ns);
        NamespaceByPath(files, before, disk, ns);
      } else {
        NobodyInUntrimmed(disk, ns);
      }
    }
  }

  lemma NamespaceByPath(files: seq<CleanupFile>, before: Disk, disk: Disk, ns: string)
    requires Paths(files) == before.Keys && Remains(disk, before)
    requires forall f :: f in files ==> f.namespace == Namespace(f.path)
    ensures Among(disk, Paths(InNamespace(files, ns))) == OfNamespace(disk, ns)
  {
    forall p | p in disk && Namespace(p) == ns ensures p in Paths(InNamespace(files, ns)) {
      assert p in Paths(files);
    }
  }

  lemma ScanNext(files: seq<CleanupFile>, file: CleanupFile, disk: Disk)
    requires Lists(files, disk) && file.path in disk && file.path !in Paths(files) && disk[file.path].size == file.size
    ensures Lists(files + [file], disk) && Total(files + [file]) == Total(files) + file.size
  {
    assert (files + [file])[..|files|] == files;
    assert forall f :: f in files + [file] <==> f in files || f == file;
  }

  /** The files of one namespace, in their order. */
  function InNamespace(files: seq<CleanupFile>, ns: string): (own: seq<CleanupFile>)
    ensures forall f :: f in own <==> f in files && f.namespace == ns
  {
    if files == [] then []
    else
      var last := files[|files| - 1];
      InNamespace(files[..|files| - 1], ns) + if last.namespace == ns then [last] else []
  }

  lemma {:induction false} InNamespaceIsListed(files: seq<CleanupFile>, ns: string, disk: Disk)
    requires Lists(files, disk)
    ensures Lists(InNamespace(files, ns), disk)
  {
    if files != [] {
      var front := files[..|files| - 1];
      InNamespaceIsListed(front, ns, disk);
      assert forall f :: f in InNamespace(front, ns) ==> f in front;
    }
  }

  function Namespaces(files: seq<CleanupFile>): set<string> {
    set f | f in files :: f.namespace
  }

  lemma NamespacesNext(files: seq<CleanupFile>, i: nat)
    requires i < |files|
    ensures Namespaces(files[..i + 1]) == Namespaces(files[..i]) + {files[i].namespace}
  {
    assert forall f :: f in files[..i + 1] <==> f in files[..i] || f == files[i];
  }

  lemma {:induction false} NoNamespaceNoFiles(files: seq<CleanupFile>, ns: string)
    requires ns !in Namespaces(files)
    ensures InNamespace(files, ns) == []
  {
    if files != [] {
      var front := files[..|files| - 1];
      assert forall f :: f in front ==> f in files;
      assert files[|files| - 1] in files;
      NoNamespaceNoFiles(front, ns);
    }
  }

  lemma InNamespaceNext(files: seq<CleanupFile>, i: nat, ns: string)
    requires i < |files|
    ensures InNamespace(files[..i + 1], ns) ==
            if files[i].namespace != ns then InNamespace(files[..i], ns)
            else if ns in Namespaces(files[..i]) then InNamespace(files[..i], ns) + [files[i]]
            else [files[i]]
  {
    assert files[..i + 1][..i] == files[..i];
    if ns !in Namespaces(files[..i]) {
      NoNamespaceNoFiles(files[..i], ns);
    }
  }

  ghost predicate Grouped(files: seq<CleanupFile>, groups: map<string, seq<CleanupFile>>) {
    groups.Keys == Namespaces(files) && forall ns :: ns in groups ==> groups[ns] == InNamespace(files, ns)
  }

  function Put(groups: map<string, seq<CleanupFile>>, file: CleanupFile): map<string, seq<CleanupFile>> {
    groups[file.namespace := (if file.namespace in groups then groups[file.namespace] else []) + [file]]
  }

  lemma PutGroups(files: seq<CleanupFile>, i: nat, groups: map<string, seq<CleanupFile>>)
    requires i < |files| && Grouped(files[..i], groups)
    ensures Grouped(files[..i + 1], Put(groups, files[i]))
  {
    var put := Put(groups, files[i]);
    NamespacesNext(files, i);
    forall ns | ns in put ensures put[ns] == InNamespace(files[..i + 1], ns) {
      InNamespaceNext(files, i, ns);
    }
  }

  /** Filling the multimap from namespaces to files. */
  method GroupByNamespace(files: seq<CleanupFile>) returns (groups: map<string, seq<CleanupFile>>)
    ensures Grouped(files, groups)
  {
    groups := map[];
    for i := 0 to |files|
      invariant Grouped(files[..i], groups)
    {
      PutGroups(files, i, groups);
      groups := Put(groups, files[i]);
    }
    assert files[..|files|] == files;
  }

  /** These files come from the list, none of them from a pending namespace. */
  ghost predicate TakenFrom(taken: seq<CleanupFile>, files: seq<CleanupFile>, pending: set<string>) {
    forall f :: f in taken ==> f in files && f.namespace !in pending
  }

  lemma JoinLists(files: seq<CleanupFile>, pending: set<string>, taken: seq<CleanupFile>, kept: seq<CleanupFile>, ns: string, scan: Disk)
    requires Lists(files, scan) && Lists(taken, scan) && TakenFrom(taken, files, pending) && ns in pending
    requires Lists(kept, scan) && forall f :: f in kept ==> f in InNamespace(files, ns)
    ensures Lists(taken + kept, scan) && TakenFrom(taken + kept, files, pending - {ns})
  {
    forall f, g | f in taken && g in kept ensures f.path != g.path {
      assert f in files && g in files && f != g;
    }
  }

  /** Every namespace but the pending ones is within its limit, oldest files first; the
      pending ones are untouched. */
  ghost predicate Enforced(files: seq<CleanupFile>, pending: set<string>, taken: seq<CleanupFile>, policy: ArtifactPolicy, start: Disk, disk: Disk) {
    && (forall f :: f in files && f.namespace in pending ==> f.path in disk)
    && (forall f :: f in files && f.namespace !in pending ==> (f in taken <==> f.path in disk))
    && (forall p :: p in start && p !in Paths(files) ==> p in disk)
    && (forall ns :: ns !in pending ==> EvictedByAge(InNamespace(files, ns), policy.MaxCacheBytesForNamespace(ns), disk))
  }

  lemma EnforceNone(files: seq<CleanupFile>, pending: set<string>, policy: ArtifactPolicy, disk: Disk)
    requires pending == Namespaces(files) && Lists(files, disk)
    ensures Enforced(files, pending, [], policy, disk, disk)
  {
    forall ns | ns !in pending
      ensures EvictedByAge(InNamespace(files, ns), policy.MaxCacheBytesForNamespace(ns), disk)
    {
      NoNamespaceNoFiles(files, ns);
      assert Among(disk, Paths([])) == map[];
    }
  }

  lemma PendingIsListed(files: seq<CleanupFile>, pending: set<string>, taken: seq<CleanupFile>, policy: ArtifactPolicy,
                        start: Disk, disk: Disk, ns: string, scan: Disk)
    requires Enforced(files, pending, taken, policy, start, disk) && ns in pending
    requires Lists(files, scan) && Remains(disk, scan)
    ensures Lists(InNamespace(files, ns), disk)
  {
    InNamespaceIsListed(files, ns, scan);
    StillListed(InNamespace(files, ns), scan, disk);
  }

  lemma EnforceNext(files: seq<CleanupFile>, pending: set<string>, taken: seq<CleanupFile>, policy: ArtifactPolicy,
                    start: Disk, before: Disk, disk: Disk, ns: string, scan: Disk)
    requires Enforced(files, pending, taken, policy, start, before) && ns in pending && Lists(files, scan)
    requires TakenFrom(taken, files, pending)
    requires Remains(disk, before) && before.Keys - disk.Keys <= Paths(InNamespace(files, ns))
    requires EvictedByAge(InNamespace(files, ns), policy.MaxCacheBytesForNamespace(ns), disk)
    ensures Enforced(files, pending - {ns}, taken + Kept(InNamespace(files, ns), before.Keys - disk.Keys), policy, start, disk)
  {
    var own := InNamespace(files, ns);
    var kept := Kept(own, before.Keys - disk.Keys);
    assert forall p :: p in Paths(own) ==> p in Paths(files);
    forall f | f in files && f.namespace != ns ensures f.path in before <==> f.path in disk {
      OtherPaths(files, ns, f, scan);
    }
    forall f | f in files && f.namespace !in pending - {ns} ensures f in taken + kept <==> f.path in disk {
      if f.namespace == ns {
        assert f in own;
        assert f.path in before;
        TakenElsewhere(files, pending, taken, f);
      } else {
        assert f !in own;
      }
    }
    forall other | other !in pending - {ns}
      ensures EvictedByAge(InNamespace(files, other), policy.MaxCacheBytesForNamespace(other), disk)
    {
      if other != ns {
        OthersStay(files, ns, other, policy.MaxCacheBytesForNamespace(other), before, disk, scan);
      }
    }
  }

  lemma TakenElsewhere(files: seq<CleanupFile>, pending: set<string>, taken: seq<CleanupFile>, f: CleanupFile)
    requires TakenFrom(taken, files, pending) && f.namespace in pending
    ensures f !in taken
  {
  }

  lemma OthersStay(files: seq<CleanupFile>, ns: string, other: string, limit: int, before: Disk, disk: Disk, scan: Disk)
    requires EvictedByAge(InNamespace(files, other), limit, before) && Lists(files, scan) && other != ns
    requires Remains(disk, before) && before.Keys - disk.Keys <= Paths(InNamespace(files, ns))
    ensures EvictedByAge(InNamespace(files, other), limit, disk)
  {
    var theirs := InNamespace(files, other);
    forall f | f in theirs ensures f.path in before <==> f.path in disk {
      OtherPaths(files, ns, f, scan);
    }
    assert Among(before, Paths(theirs)) == Among(disk, Paths(theirs));
    EvictedByAgeIsLocal(theirs, limit, before, disk);
  }

  lemma OtherPaths(files: seq<CleanupFile>, ns: string, f: CleanupFile, scan: Disk)
    requires Lists(files, scan) && f in files && f.namespace != ns
    ensures f.path !in Paths(InNamespace(files, ns))
  {
  }

  lemma WithoutMore(hits: map<string, int>, start: Disk, before: Disk, disk: Disk)
    requires Remains(before, start) && Remains(disk, before)
    ensures hits - (start.Keys - before.Keys) - (before.Keys - disk.Keys) == hits - (start.Keys - disk.Keys)
  {
  }

  /** Whether a file is expired and can be removed. */
  function Goes(policy: ArtifactPolicy, removes: (Phase, string) -> bool, now: int): CleanupFile -> bool {
    (file: CleanupFile) => policy.ShouldRemoveExpired(file.namespace, file.lastUsed, now) && removes(Expiry, file.path)
  }

  /** The paths of the chosen files. */
  ghost function Chosen(files: seq<CleanupFile>, goes: CleanupFile -> bool): set<string> {
    set f | f in files && goes(f) :: f.path
  }

  lemma ChooseNext(files: seq<CleanupFile>, i: nat, goes: CleanupFile -> bool, disk: Disk, hits: map<string, int>)
    requires i < |files| && Lists(files, disk)
    ensures var before, after, file := Chosen(files[..i], goes), Chosen(files[..i + 1], goes), files[i];
            && file.path in disk - before && (disk - before)[file.path].size == file.size
            && disk - after == (if goes(file) then disk - before - {file.path} else disk - before)
            && hits - after == (if goes(file) then hits - before - {file.path} else hits - before)
  {
    ChosenNext(files, i, goes);
  }

  lemma KeepNext(files: seq<CleanupFile>, i: nat, goes: CleanupFile -> bool, disk: Disk)
    requires i < |files| && Lists(files, disk)
    ensures Kept(files[..i + 1], Chosen(files[..i + 1], goes))
            == Kept(files[..i], Chosen(files[..i], goes)) + if goes(files[i]) then [] else [files[i]]
  {
    var before := Chosen(files[..i], goes);
    ChosenNext(files, i, goes);
    KeptGrows(files[..i], files[i], before);
    assert files[..i + 1] == files[..i] + [files[i]];
    if goes(files[i]) {
      assert Kept(files[..i], before) + [] == Kept(files[..i], before);
    } else {
      assert Chosen(files[..i + 1], goes) == before;
    }
  }

  lemma ChosenNext(files: seq<CleanupFile>, i: nat, goes: CleanupFile -> bool)
    requires i < |files| && forall i, j :: 0 <= i < j < |files| ==> files[i].path != files[j].path
    ensures files[i].path !in Paths(files[..i]) && files[i].path !in Chosen(files[..i], goes)
    ensures Chosen(files[..i + 1], goes) == Chosen(files[..i], goes) + if goes(files[i]) then {files[i].path} else {}
  {
    assert forall f :: f in files[..i + 1] <==> f in files[..i] || f == files[i];
  }

  function EffectiveLastUsed(path: string, modTime: int, hits: map<string, int>): int {
    if path in hits && hits[path] > modTime then hits[path] else modTime
  }

  /** A scanned file with its namespace and last use filled in. */
  function Prepared(path: string, info: FileInfo, hits: map<string, int>): CleanupFile {
    CleanupFile(path, Namespace(path), info.size, EffectiveLastUsed(path, info.modTime, hits))
  }

  /** The first segment of a path below the cache directory. */
  function Namespace(path: string): string {
    TrimSpace(Cut(path, '/').before)
  }

  lemma KeptGrows(front: seq<CleanupFile>, last: CleanupFile, removed: set<string>)
    requires last.path !in Paths(front)
    ensures Kept(front + [last], removed + {last.path}) == Kept(front, removed)
    ensures last.path !in removed ==> Kept(front + [last], removed) == Kept(front, removed) + [last]
  {
    assert (front + [last])[..|front|] == front;
    KeptIgnores(front, last.path, removed);
  }

  lemma {:induction false} KeptIgnores(files: seq<CleanupFile>, p: string, removed: set<string>)
    requires p !in Paths(files)
    ensures Kept(files, removed + {p}) == Kept(files, removed)
  {
    if files != [] {
      var front := files[..|files| - 1];
      assert forall f :: f in front ==> f in files;
      KeptIgnores(front, p, removed);
      assert files[|files| - 1].path in Paths(files);
    }
  }

  lemma {:induction false} OldestExists(heap: set<CleanupFile>)
    requires heap != {}
    ensures exists f :: f in heap && forall g :: g in heap ==> f.lastUsed <= g.lastUsed
    decreases |heap|
  {
    var f :| f in heap;
    var rest := heap - {f};
    if rest == {} {
      assert forall g :: g in heap ==> g == f || g in rest;
    } else {
      OldestExists(rest);
      var oldest :| oldest in rest && forall g :: g in rest ==> oldest.lastUsed <= g.lastUsed;
      var first := if f.lastUsed <= oldest.lastUsed then f else oldest;
      assert forall g :: g in heap ==> g == f || g in rest;
      assert first in heap && forall g :: g in heap ==> first.lastUsed <= g.lastUsed;
    }
  }
}
