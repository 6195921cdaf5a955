/** Turning change events into a change set (internal/task/source_rescan_change_set.go,
    source_rescan_change_set_processing.go). */
module SourceChanges {
  import opened Basics
  import opened SidecarMatching
  import opened SourceSync

  datatype ChangeEvent = ChangeEvent(path: string, op: string, fullRescan: bool)

  datatype ChangeKind = Unknown | Write | Delete | Fallback

  /** classifyChange. */
  function ClassifyChange(rawOp: string): ChangeKind {
    var op := TrimSpace(ToUpper(rawOp));
    if op == "" then Unknown
    else if Contains(op, "RENAME") || Contains(op, "MOVE") then Fallback
    else if Contains(op, "CREATE") && Contains(op, "REMOVE") then Fallback
    else if Contains(op, "CREATE") || Contains(op, "WRITE") then Write
    else if Contains(op, "REMOVE") then Delete
    else Unknown
  }

  predicate Says(rawOp: string, word: string) {
    Contains(TrimSpace(ToUpper(rawOp)), word)
  }

  lemma {:induction false} ContainsTail(s: string, before: string, word: string)
    requires Contains(s, before + word)
    ensures Contains(s, word)
  {
    if before + word <= s {
      ContainsAt(s, |before|, word);
    } else {
      ContainsTail(s[1..], before, word);
    }
  }

  lemma {:induction false} ContainsAt(s: string, i: nat, word: string)
    requires i <= |s| && word <= s[i..]
    ensures Contains(s, word)
  {
    if i > 0 {
      assert s[1..][i - 1..] == s[i..];
      ContainsAt(s[1..], i - 1, word);
    }
  }

  /** "REMOVE" contains "MOVE", so no operation is ever classified as a deletion: a removal
      asks for a full rescan. */
  lemma NothingIsDelete(rawOp: string)
    ensures ClassifyChange(rawOp) != Delete
    ensures Says(rawOp, "REMOVE") ==> ClassifyChange(rawOp) == Fallback
  {
    var op := TrimSpace(ToUpper(rawOp));
    assert "RE" + "MOVE" == "REMOVE";
    if Contains(op, "REMOVE") {
      ContainsTail(op, "RE", "MOVE");
      assert op != "";
    }
  }

  /** What an operation asks for, by the words in it: "MOVE" or "RENAME" for a full rescan, and
      else "CREATE" or "WRITE" for looking at the file. */
  lemma ClassifyIff(rawOp: string)
    ensures ClassifyChange(rawOp) == Fallback <==> Says(rawOp, "MOVE") || Says(rawOp, "RENAME")
    ensures ClassifyChange(rawOp) == Write <==>
              !Says(rawOp, "MOVE") && !Says(rawOp, "RENAME") && (Says(rawOp, "CREATE") || Says(rawOp, "WRITE"))
    ensures ClassifyChange(rawOp) != Delete
  {
    NothingIsDelete(rawOp);
    NothingInEmpty(TrimSpace(ToUpper(rawOp)));
    assert "RE" + "MOVE" == "REMOVE";
    if Says(rawOp, "REMOVE") {
      ContainsTail(TrimSpace(ToUpper(rawOp)), "RE", "MOVE");
    }
  }

  lemma NothingInEmpty(op: string)
    ensures op == "" ==> !Contains(op, "MOVE") && !Contains(op, "RENAME") && !Contains(op, "CREATE") && !Contains(op, "WRITE")
  {
  }

  lemma SaidKind(rawOp: string)
    ensures Says(rawOp, "REMOVE") || Says(rawOp, "RENAME") ==> ClassifyChange(rawOp) == Fallback
    ensures Says(rawOp, "CREATE") || Says(rawOp, "WRITE") ==> ClassifyChange(rawOp) == Fallback || ClassifyChange(rawOp) == Write
  {
    NothingIsDelete(rawOp);
    var op := TrimSpace(ToUpper(rawOp));
    if op == "" {
      assert !Contains(op, "REMOVE") && !Contains(op, "RENAME") && !Contains(op, "CREATE") && !Contains(op, "WRITE");
    }
  }

  /** A change event as the change set sees it. */
  datatype Change = Change(path: string, kind: ChangeKind)

  function ChangeOf(normal: string -> string, e: ChangeEvent): Change {
    Change(normal(TrimSpace(e.path)), ClassifyChange(e.op))
  }

  function ChangesOf(normal: string -> string, events: seq<ChangeEvent>): (changes: seq<Change>)
    ensures |changes| == |events|
  {
    seq(|events|, i requires 0 <= i < |events| => ChangeOf(normal, events[i]))
  }

  ghost predicate IsWritten(changes: seq<Change>, p: string) {
    p != "" && Change(p, Write) in changes
  }

  ghost predicate IsDeleted(changes: seq<Change>, p: string) {
    p != "" && Change(p, Delete) in changes
  }

  /** Whether some event asks for a full rescan. */
  ghost predicate NeedsFullRescan(events: seq<ChangeEvent>, changes: seq<Change>)
    requires |events| == |changes|
  {
    exists i :: 0 <= i < |events| && (events[i].fullRescan || (changes[i].path != "" && changes[i].kind == Fallback))
  }

  /** Paths that are their own normal form. */
  ghost predicate NormalChanges(sc: Scanner, changes: seq<Change>) {
    forall c :: c in changes ==> sc.normal(c.path) == c.path
  }

  datatype SidecarChange = SidecarChange(match_: Match, file: File)

  class SourceRescanChangeSet {
    var deletedAssets: set<string>
    var deletedSourceSidecars: map<string, Match>
    var changedAssets: map<string, File>
    var changedSourceSidecars: map<string, SidecarChange>

    constructor ()
      ensures deletedAssets == {} && deletedSourceSidecars == map[] && changedAssets == map[] && changedSourceSidecars == map[]
    {
      deletedAssets, deletedSourceSidecars, changedAssets, changedSourceSidecars := {}, map[], map[], map[];
    }

    ghost predicate HoldsDeletions(sc: Scanner, changes: seq<Change>)
      reads this
    {
      && (forall p :: p in deletedAssets <==> IsDeleted(changes, p) && sc.sidecarOf(p) == None)
      && (forall q :: q in deletedSourceSidecars <==> IsDeleted(changes, q) && sc.sidecarOf(q).Some?)
      && (forall q :: q in deletedSourceSidecars ==> sc.sidecarOf(q) == Some(deletedSourceSidecars[q]))
    }

    ghost predicate HoldsWrittenSidecars(sc: Scanner, changes: seq<Change>)
      reads this
    {
      && (forall q :: q in changedSourceSidecars <==> IsWritten(changes, q) && q in sc.tree && sc.sidecarOf(q).Some?)
      && (forall q :: q in changedSourceSidecars ==> SidecarChangeAt(sc, q, changedSourceSidecars[q]))
    }

    /** Before normalisation an asset both written and deleted may be there or not. */
    ghost predicate HoldsWrittenAssets(sc: Scanner, changes: seq<Change>)
      reads this
    {
      && (forall p :: p in changedAssets ==> IsWritten(changes, p) && p in sc.tree && sc.sidecarOf(p) == None && changedAssets[p] == sc.tree[p])
      && (forall p :: IsWritten(changes, p) && p in sc.tree && sc.sidecarOf(p) == None && !IsDeleted(changes, p) ==> p in changedAssets)
    }

    ghost predicate Collects(sc: Scanner, changes: seq<Change>)
      reads this
    {
      HoldsDeletions(sc, changes) && HoldsWrittenSidecars(sc, changes) && HoldsWrittenAssets(sc, changes)
    }

    /** recordAssetDelete. */
    method RecordAssetDelete(sc: Scanner, p: string, ghost changes: seq<Change>)
      requires Collects(sc, changes) && p != ""
      modifies this
      ensures Collects(sc, changes + [Change(p, Delete)])
    {
      OneMoreChange(changes, Change(p, Delete));
      var m := sc.sidecarOf(p);
      if m == None {
        deletedAssets := deletedAssets + {p};
        changedAssets := changedAssets - {p};
        return;
      }
      deletedSourceSidecars := deletedSourceSidecars[p := m.value];
    }

    /** recordAssetWrite: a path written twice is looked up once. */
    method RecordAssetWrite(sc: Scanner, p: string, ghost changes: seq<Change>)
      requires MatchesSplit(sc) && Collects(sc, changes) && p != "" && sc.normal(p) == p
      modifies this
      ensures Collects(sc, changes + [Change(p, Write)])
    {
      OneMoreChange(changes, Change(p, Write));
      var m := sc.sidecarOf(p);
      if (if m.Some? then p in changedSourceSidecars else p in changedAssets) {
        return;
      }
      var normalized := sc.normal(p);
      if normalized !in sc.tree {
        return;
      }
      if m.Some? {
        if m.value.assetPath != "" {
          changedSourceSidecars := changedSourceSidecars[p := SidecarChange(m.value, sc.tree[normalized])];
        }
        return;
      }
      changedAssets := changedAssets[p := sc.tree[normalized]];
    }

    /** What is left to process: no asset that was also deleted, no sidecar of one. */
    ghost predicate Normalized(sc: Scanner, changes: seq<Change>)
      reads this
    {
      && HoldsDeletions(sc, changes)
      && (forall p :: p in changedAssets <==> IsWritten(changes, p) && p in sc.tree && sc.sidecarOf(p) == None && !IsDeleted(changes, p))
      && (forall p :: p in changedAssets ==> changedAssets[p] == sc.tree[p])
      && (forall q :: q in changedSourceSidecars <==>
            IsWritten(changes, q) && q in sc.tree && sc.sidecarOf(q).Some? && sc.sidecarOf(q).value.assetPath !in deletedAssets)
      && (forall q :: q in changedSourceSidecars ==> SidecarChangeAt(sc, q, changedSourceSidecars[q]))
    }

    /** normalizeIncrementalTargets. */
    method NormalizeIncrementalTargets(ghost sc: Scanner, ghost changes: seq<Change>)
      requires Collects(sc, changes)
      modifies this
      ensures Normalized(sc, changes)
    {
      changedAssets := changedAssets - deletedAssets;
      changedSourceSidecars := map q | q in changedSourceSidecars && changedSourceSidecars[q].match_.assetPath !in deletedAssets :: changedSourceSidecars[q];
    }
  }

  lemma NothingCollected(changeSet: SourceRescanChangeSet, sc: Scanner)
    requires changeSet.deletedAssets == {} && changeSet.deletedSourceSidecars == map[]
    requires changeSet.changedAssets == map[] && changeSet.changedSourceSidecars == map[]
    ensures changeSet.Collects(sc, [])
  {
  }

  /** addChangeToIncrementalSet. */
  method AddChange(changeSet: SourceRescanChangeSet, sc: Scanner, c: Change, ghost changes: seq<Change>) returns (fallback: bool)
    requires MatchesSplit(sc) && changeSet.Collects(sc, changes) && sc.normal(c.path) == c.path
    modifies changeSet
    ensures fallback <==> c.path != "" && c.kind == Fallback
    ensures !fallback ==> changeSet.Collects(sc, changes + [c])
  {
    fallback := false;
    OneMoreChange(changes, c);
    if c.path == "" {
      return;
    }
    match c.kind
    case Unknown =>
    case Fallback => fallback := true;
    case Delete => changeSet.RecordAssetDelete(sc, c.path, changes);
    case Write => changeSet.RecordAssetWrite(sc, c.path, changes);
  }

  ghost predicate NoneFallsBack(events: seq<ChangeEvent>, changes: seq<Change>, i: nat)
    requires i <= |events| == |changes|
  {
    forall k :: 0 <= k < i ==> !events[k].fullRescan && !(changes[k].path != "" && changes[k].kind == Fallback)
  }

  lemma NextChange(changes: seq<Change>, i: nat)
    requires i < |changes|
    ensures changes[..i + 1] == changes[..i] + [changes[i]] && changes[i] in changes
  {
  }

  /** The loop over the events; changes holds each event's normalised path and kind. */
  method CollectChanges(events: seq<ChangeEvent>, changes: seq<Change>, sc: Scanner) returns (changeSet: SourceRescanChangeSet, full: bool)
    requires |events| == |changes| && MatchesSplit(sc) && NormalChanges(sc, changes)
    ensures fresh(changeSet)
    ensures full <==> NeedsFullRescan(events, changes)
    ensures !full ==> changeSet.Collects(sc, changes)
  {
    changeSet := new SourceRescanChangeSet();
    NothingCollected(changeSet, sc);
    full := false;
    for i := 0 to |events|
      invariant fresh(changeSet) && changeSet.Collects(sc, changes[..i])
      invariant NoneFallsBack(events, changes, i)
    {
      NextChange(changes, i);
      if events[i].fullRescan {
        full := true;
        return;
      }
      full := AddChange(changeSet, sc, changes[i], changes[..i]);
      if full {
        return;
      }
    }
    assert changes[..|events|] == changes;
  }

  /** buildIncrementalChangeSet; full: an event asks for a full rescan. */
  method BuildIncrementalChangeSet(events: seq<ChangeEvent>, sc: Scanner) returns (changeSet: SourceRescanChangeSet, full: bool)
    requires MatchesSplit(sc) && NormalChanges(sc, ChangesOf(sc.normal, events))
    ensures fresh(changeSet)
    ensures full <==> NeedsFullRescan(events, ChangesOf(sc.normal, events))
    ensures !full ==> changeSet.Normalized(sc, ChangesOf(sc.normal, events))
  {
    var changes := ChangesOf(sc.normal, events);
    changeSet, full := CollectChanges(events, changes, sc);
    if !full {
      changeSet.NormalizeIncrementalTargets(sc, changes);
    }
  }

  predicate SidecarChangeAt(sc: Scanner, q: string, c: SidecarChange) {
    q in sc.tree && sc.sidecarOf(q) == Some(c.match_) && c.file == sc.tree[q]
  }

  lemma OneMoreChange(changes: seq<Change>, c: Change)
    ensures forall p :: IsWritten(changes + [c], p) <==> IsWritten(changes, p) || (p != "" && c == Change(p, Write))
    ensures forall p :: IsDeleted(changes + [c], p) <==> IsDeleted(changes, p) || (p != "" && c == Change(p, Delete))
  {
    assert forall d :: d in changes + [c] <==> d in changes || d == c;
  }
}
