/** Why processing the change events is enough: between two states of a source only what
    has events can differ. */
module SourceIncrement {
  import opened Basics
  import opened CatalogRecords
  import opened Catalog
  import opened SidecarMatching
  import opened SourceSync
  import opened SourceChanges

  predicate FileAt(sc: Scanner, p: string) {
    p in sc.tree && !sc.tree[p].isDir
  }

  /** Whether a path's file came, went or has other bytes. A new modification time alone
      is no change. */
  predicate Changed(before: Scanner, now: Scanner, p: string) {
    if FileAt(before, p) && FileAt(now, p)
    then before.tree[p].size != now.tree[p].size || before.tree[p].content != now.tree[p].content
    else FileAt(before, p) != FileAt(now, p)
  }

  /** Two states of one source. */
  ghost predicate SameSource(before: Scanner, now: Scanner) {
    && before.matchers == now.matchers && before.suffixOf == now.suffixOf && before.sidecarOf == now.sidecarOf
    && before.normal == now.normal && before.outside == now.outside
  }

  /** A sidecar whose base has a delete event. */
  ghost predicate BaseDeleted(sc: Scanner, q: string, changes: seq<Change>) {
    sc.sidecarOf(q).Some? && IsDeleted(changes, sc.sidecarOf(q).value.assetPath)
  }

  /** Every changed path has its event, where a sidecar that goes with its base needs none;
      a deleted sidecar that is there has been written again; and written paths that are
      there are regular files. */
  ghost predicate Covers(before: Scanner, now: Scanner, changes: seq<Change>) {
    && (forall p :: Changed(before, now, p) ==>
          if FileAt(now, p) then IsWritten(changes, p) else IsDeleted(changes, p) || BaseDeleted(now, p, changes))
    && (forall q :: IsDeleted(changes, q) && now.sidecarOf(q).Some? && FileAt(now, q) ==> IsWritten(changes, q))
    && (forall p :: IsWritten(changes, p) && p in now.tree ==> !now.tree[p].isDir)
  }

  /** No asset is both deleted by the events and there. */
  ghost predicate NoneRecreated(sc: Scanner, changes: seq<Change>) {
    forall p :: IsDeleted(changes, p) && sc.sidecarOf(p) == None ==> !IsAssetPath(sc, p)
  }

  // ---- What the incremental sync sees of a source ---------------------------------------

  /** Paths that the events delete as an asset, and the sidecars of such assets. */
  ghost predicate Unseen(sc: Scanner, changes: seq<Change>, p: string) {
    if sc.sidecarOf(p) == None then IsDeleted(changes, p) else BaseDeleted(sc, p, changes)
  }

  /** The source without those paths. */
  ghost function Seen(sc: Scanner, changes: seq<Change>): Scanner {
    sc.(tree := map p | p in sc.tree && !Unseen(sc, changes, p) :: sc.tree[p])
  }

  /** part is sc without some files and their sidecars. */
  ghost predicate IsPart(sc: Scanner, part: Scanner) {
    && part == sc.(tree := part.tree)
    && (forall p :: p in part.tree ==> p in sc.tree && sc.tree[p] == part.tree[p])
    && (forall q :: q in sc.tree && BasedInside(part, q) ==> q in part.tree)
  }

  predicate BasedInside(part: Scanner, q: string) {
    part.sidecarOf(q).Some? && part.sidecarOf(q).value.assetPath in part.tree
  }

  /** Looking for a sidecar beside a seen base finds the same file in the source. */
  ghost predicate FindsSidecars(sc: Scanner, part: Scanner) {
    && sc.matchers == part.matchers && sc.normal == part.normal && sc.outside == part.outside
    && forall q {:trigger BasedInside(part, q)} :: BasedInside(part, q) ==>
         (q in sc.tree <==> q in part.tree) && (q in part.tree ==> sc.tree[q] == part.tree[q])
  }

  lemma SeenIsPart(sc: Scanner, changes: seq<Change>)
    requires WellFormed(sc)
    ensures var seen := Seen(sc, changes);
            IsPart(sc, seen) && FindsSidecars(sc, seen) && WellFormed(seen) && NoneRecreated(seen, changes)
  {
  }

  lemma PartIsSound(sc: Scanner, part: Scanner)
    requires SoundScanner(sc) && IsPart(sc, part)
    ensures SoundScanner(part)
    ensures OneSidecarPerImage(sc) ==> OneSidecarPerImage(part)
    ensures forall t :: AllShaped(part, t) <==> AllShaped(sc, t)
  {
    assert forall p :: PlainPath(part, p) <==> PlainPath(sc, p);
    assert forall q :: IsTrustedSidecar(part, q) ==> IsTrustedSidecar(sc, q) && TargetVariant(part, q) == TargetVariant(sc, q);
    assert forall r :: Shaped(part, r) <==> Shaped(sc, r);
  }

  lemma CoversSeen(before: Scanner, now: Scanner, changes: seq<Change>)
    requires SoundStates(before, now) && Covers(before, now, changes)
    ensures Covers(before, Seen(now, changes), changes)
  {
    var seen := Seen(now, changes);
    forall p | Changed(before, seen, p)
      ensures if FileAt(seen, p) then IsWritten(changes, p) else IsDeleted(changes, p) || BaseDeleted(seen, p, changes)
    {
      if !(p in now.tree && Unseen(now, changes, p)) {
        assert Changed(before, now, p);
      }
    }
  }

  /** A catalog synced to what is seen is synced to the source if and only if no asset that
      the events delete is there. */
  lemma SeenIsAllIff(sc: Scanner, changes: seq<Change>, s: CatalogState)
    requires SoundScanner(sc) && WellFormed(sc) && Synced(Seen(sc, changes), s)
    ensures Synced(sc, s) <==> NoneRecreated(sc, changes)
  {
    var seen := Seen(sc, changes);
    PartOfSource(sc, changes);
    if NoneRecreated(sc, changes) {
      assert forall p :: IsAssetPath(sc, p) <==> IsAssetPath(seen, p);
      forall p ensures AssetSettled(sc, s.assets, p) {
        assert AssetSettled(seen, s.assets, p);
      }
      forall q ensures SidecarSettled(sc, s.variants, q) {
        assert SidecarSettled(seen, s.variants, q);
        SeenSidecar(sc, changes, q);
      }
    } else {
      var p :| IsDeleted(changes, p) && sc.sidecarOf(p) == None && IsAssetPath(sc, p);
      assert AssetSettled(seen, s.assets, p);
      assert !AssetSettled(sc, s.assets, p);
    }
  }

  lemma PartOfSource(sc: Scanner, changes: seq<Change>)
    requires SoundScanner(sc) && WellFormed(sc)
    ensures forall t :: AllShaped(Seen(sc, changes), t) <==> AllShaped(sc, t)
  {
    SeenIsPart(sc, changes);
    PartIsSound(sc, Seen(sc, changes));
  }

  lemma SeenSidecar(sc: Scanner, changes: seq<Change>, q: string)
    requires WellFormed(sc) && NoneRecreated(sc, changes)
    ensures var seen := Seen(sc, changes);
            && (IsTrustedSidecar(sc, q) <==> IsTrustedSidecar(seen, q))
            && (IsTrustedSidecar(sc, q) ==> TargetVariant(sc, q) == TargetVariant(seen, q))
  {
    if q in sc.tree && sc.sidecarOf(q).Some? {
      assert IsAssetPath(sc, sc.sidecarOf(q).value.assetPath);
    }
  }

  ghost predicate SoundStates(before: Scanner, now: Scanner) {
    SameSource(before, now) && SoundScanner(now) && WellFormed(before) && WellFormed(now)
  }

  /** The asset is the same in both states, up to metadata. */
  predicate SameAsset(before: Scanner, now: Scanner, p: string) {
    IsAssetPath(before, p) && IsAssetPath(now, p) && BareAsset(TargetAsset(before, p)) == BareAsset(TargetAsset(now, p))
  }

  lemma UnchangedAsset(before: Scanner, now: Scanner, p: string)
    requires SoundStates(before, now) && !Changed(before, now, p)
    ensures IsAssetPath(before, p) <==> IsAssetPath(now, p)
    ensures IsAssetPath(now, p) ==> SameAsset(before, now, p)
  {
  }

  lemma UnchangedSidecar(before: Scanner, now: Scanner, t: VariantTable, q: string)
    requires SoundStates(before, now) && !Changed(before, now, q) && now.sidecarOf(q).Some?
    requires SameAsset(before, now, now.sidecarOf(q).value.assetPath) && SidecarSettled(before, t, q)
    ensures SidecarSettled(now, t, q)
  {
    assert IsTrustedSidecar(before, q) <==> IsTrustedSidecar(now, q);
  }

  /** Sidecars that are settled once the assets in done are processed. */
  ghost predicate Due(before: Scanner, now: Scanner, q: string, changes: seq<Change>, done: set<string>) {
    || now.sidecarOf(q) == None
    || !FileAt(now, q)
    || (!IsWritten(changes, q)
        && (now.sidecarOf(q).value.assetPath in done || SameAsset(before, now, now.sidecarOf(q).value.assetPath)))
  }

  ghost predicate DueSettled(before: Scanner, now: Scanner, t: VariantTable, changes: seq<Change>, done: set<string>) {
    forall q :: Due(before, now, q, changes, done) ==> SidecarSettled(now, t, q)
  }

  lemma MissingIsUntrusted(sc: Scanner, q: string)
    requires WellFormed(sc) && !FileAt(sc, q)
    ensures !IsTrustedSidecar(sc, q)
  {
  }

  /** What the deletions do to the sidecars: those with delete events go, and so do those
      of deleted assets; the rest stays settled. */
  ghost predicate DeletionsDone(now: Scanner, t: VariantTable, u: VariantTable, changes: seq<Change>) {
    && (forall q :: IsDeleted(changes, q) && now.sidecarOf(q).Some? ==> Absent(u, q))
    && (forall q :: BaseDeleted(now, q, changes) && now.sidecarOf(now.sidecarOf(q).value.assetPath) == None ==> SidecarSettled(now, u, q))
    && (forall q :: SidecarSettled(now, t, q) && !(IsDeleted(changes, q) && now.sidecarOf(q).Some?) ==> SidecarSettled(now, u, q))
  }

  /** After the deletions, whatever is due without processing any asset is settled. */
  lemma DueAfterDeletions(before: Scanner, now: Scanner, s: CatalogState, t: VariantTable, changes: seq<Change>)
    requires SoundStates(before, now) && Covers(before, now, changes) && Synced(before, s)
    requires DeletionsDone(now, s.variants, t, changes)
    ensures DueSettled(before, now, t, changes, {})
  {
    forall q | Due(before, now, q, changes, {}) ensures SidecarSettled(now, t, q) {
      assert SidecarSettled(before, s.variants, q);
      if now.sidecarOf(q) == None {
        assert !IsTrustedSidecar(now, q);
      } else if !FileAt(now, q) {
        GoneAfterDeletions(before, now, s, t, changes, q);
      } else {
        UnchangedSidecar(before, now, s.variants, q);
      }
    }
  }

  lemma GoneAfterDeletions(before: Scanner, now: Scanner, s: CatalogState, t: VariantTable, changes: seq<Change>, q: string)
    requires SoundStates(before, now) && Covers(before, now, changes) && Synced(before, s)
    requires DeletionsDone(now, s.variants, t, changes) && now.sidecarOf(q).Some? && !FileAt(now, q)
    ensures SidecarSettled(now, t, q)
  {
    MissingIsUntrusted(now, q);
    if FileAt(before, q) {
      assert Changed(before, now, q);
      assert IsAssetPath(before, before.sidecarOf(q).value.assetPath);
    } else {
      MissingIsUntrusted(before, q);
      assert SidecarSettled(before, s.variants, q);
      assert SidecarSettled(now, s.variants, q);
    }
  }

  /** Outside these paths the assets are what they were. */
  ghost predicate SameBut(a: map<string, Asset>, b: map<string, Asset>, but: set<string>) {
    a - but == b - but
  }

  /** Processing one more asset settles what is due with it. */
  lemma DueAfterAsset(before: Scanner, now: Scanner, s: CatalogState, assets: map<string, Asset>, t: VariantTable, u: VariantTable,
                      changes: seq<Change>, done: set<string>, deleted: set<string>, p: string)
    requires SoundStates(before, now) && Synced(before, s) && DueSettled(before, now, t, changes, done)
    requires SameBut(s.assets, assets, done + deleted) && p !in done && p !in deleted && IsAssetPath(now, p)
    requires KeepsSettledBut(now, t, u, p)
    requires if AssetSettled(now, assets, p) then t == u else forall q :: BasedOn(now, q, p) ==> SidecarSettled(now, u, q)
    ensures DueSettled(before, now, u, changes, done + {p})
  {
    if AssetSettled(now, assets, p) {
      SettledAlready(before, now, s, assets, done + deleted, p);
    }
    forall q | Due(before, now, q, changes, done + {p}) ensures SidecarSettled(now, u, q) {
      if !BasedOn(now, q, p) || AssetSettled(now, assets, p) {
        assert Due(before, now, q, changes, done);
      }
    }
  }

  /** An asset that needs no processing was the same before. */
  lemma SettledAlready(before: Scanner, now: Scanner, s: CatalogState, assets: map<string, Asset>, but: set<string>, p: string)
    requires Synced(before, s) && SameBut(s.assets, assets, but) && p !in but
    requires IsAssetPath(now, p) && AssetSettled(now, assets, p)
    ensures SameAsset(before, now, p)
  {
    assert AssetSettled(before, s.assets, p);
    assert p in assets - but && p in s.assets - but;
  }

  /** The sidecars whose own files were written are all that is left after the assets. */
  ghost predicate SettledButWritten(now: Scanner, t: VariantTable, changes: seq<Change>, done: set<string>) {
    forall q :: q in done || !(FileAt(now, q) && IsWritten(changes, q)) ==> SidecarSettled(now, t, q)
  }

  lemma DueAfterAssets(before: Scanner, now: Scanner, t: VariantTable, done: set<string>, changes: seq<Change>)
    requires SoundStates(before, now) && Covers(before, now, changes) && DueSettled(before, now, t, changes, done)
    requires forall p :: IsAssetPath(now, p) && IsWritten(changes, p) ==> p in done
    ensures SettledButWritten(now, t, changes, {})
  {
    forall q | !(FileAt(now, q) && IsWritten(changes, q)) ensures SidecarSettled(now, t, q) {
      if now.sidecarOf(q).Some? && FileAt(now, q) {
        var base := now.sidecarOf(q).value.assetPath;
        assert IsAssetPath(now, base);
        if base !in done {
          UnchangedAsset(before, now, base);
        }
      }
      assert Due(before, now, q, changes, done);
    }
  }

  lemma AllAssetsSettled(before: Scanner, now: Scanner, s: CatalogState, assets: map<string, Asset>, done: set<string>, deleted: set<string>, changes: seq<Change>)
    requires SoundStates(before, now) && Covers(before, now, changes) && Synced(before, s)
    requires forall p :: p in done ==> AssetSettled(now, assets, p)
    requires forall p :: p in deleted ==> p !in assets
    requires SameBut(s.assets, assets, done + deleted)
    requires forall p :: IsAssetPath(now, p) && IsWritten(changes, p) ==> p in done
    requires NoneRecreated(now, changes) && forall p :: p in deleted <==> IsDeleted(changes, p) && now.sidecarOf(p) == None
    ensures forall p :: AssetSettled(now, assets, p)
  {
    forall p ensures AssetSettled(now, assets, p) {
      if p !in done && p !in deleted {
        assert p in assets <==> p in assets - (done + deleted);
        assert p in s.assets <==> p in s.assets - (done + deleted);
        assert AssetSettled(before, s.assets, p);
        if !Changed(before, now, p) {
          UnchangedAsset(before, now, p);
        }
      }
    }
  }

  lemma AllSidecarsSettled(now: Scanner, t: VariantTable, done: set<string>, changes: seq<Change>)
    requires AllShaped(now, t) && SettledButWritten(now, t, changes, done)
    requires forall q :: IsWritten(changes, q) && q in now.tree && now.sidecarOf(q).Some? ==> q in done
    ensures forall q :: SidecarSettled(now, t, q)
  {
    forall q ensures SidecarSettled(now, t, q) {
      if FileAt(now, q) && IsWritten(changes, q) && now.sidecarOf(q) == None {
        assert !IsTrustedSidecar(now, q);
      }
    }
  }

  // ---- Deletions ----------------------------------------------------------------------------

  /** A change set that drops an asset which is there loses it, even though the changes are
      all in it. */
  lemma RecreatedAssetIsLost(before: Scanner, now: Scanner, p: string, s: CatalogState)
    requires SoundStates(before, now) && IsAssetPath(now, p) && forall x :: Changed(before, now, x) ==> x == p
    requires Synced(Seen(now, [Change(p, Delete), Change(p, Write)]), s)
    ensures Covers(before, now, [Change(p, Delete), Change(p, Write)])
    ensures p !in s.assets && !Synced(now, s)
  {
    var changes := [Change(p, Delete), Change(p, Write)];
    assert PlainPath(now, p);
    assert IsDeleted(changes, p) && IsWritten(changes, p);
    assert forall q :: IsDeleted(changes, q) || IsWritten(changes, q) ==> q == p;
    assert AssetSettled(Seen(now, changes), s.assets, p);
    assert !AssetSettled(now, s.assets, p);
  }

  /** Events never lead to such a change set: without deletions everything is seen. */
  lemma EventsDeleteNothing(sc: Scanner, events: seq<ChangeEvent>)
    ensures forall p :: !IsDeleted(ChangesOf(sc.normal, events), p)
    ensures NoneRecreated(sc, ChangesOf(sc.normal, events))
    ensures Seen(sc, ChangesOf(sc.normal, events)) == sc
  {
    var changes := ChangesOf(sc.normal, events);
    forall p ensures !IsDeleted(changes, p) {
      if IsDeleted(changes, p) {
        var i :| 0 <= i < |changes| && changes[i] == Change(p, Delete);
        NothingIsDelete(events[i].op);
      }
    }
    assert Seen(sc, changes).tree == sc.tree;
  }

  /** A batch that removes a path is left to the full rescan, whatever else it holds. */
  lemma RemovalNeedsFullRescan(normal: string -> string, events: seq<ChangeEvent>, i: nat)
    requires i < |events| && Says(events[i].op, "REMOVE") && ChangesOf(normal, events)[i].path != ""
    ensures NeedsFullRescan(events, ChangesOf(normal, events))
  {
    NothingIsDelete(events[i].op);
  }

  /** Some event reports the path, with one of these words in its operation. */
  ghost predicate Reports(events: seq<ChangeEvent>, changes: seq<Change>, p: string, word: string, other: string)
    requires |events| == |changes|
  {
    exists i :: 0 <= i < |events| && changes[i].path == p && (Says(events[i].op, word) || Says(events[i].op, other))
  }

  /** Every path that came or changed is reported as created or written, every path that
      went as removed or renamed; and written paths that are there are regular files. */
  ghost predicate Reported(before: Scanner, now: Scanner, events: seq<ChangeEvent>) {
    var changes := ChangesOf(now.normal, events);
    && (forall p :: Changed(before, now, p) ==>
          if FileAt(now, p) then Reports(events, changes, p, "CREATE", "WRITE") else Reports(events, changes, p, "REMOVE", "RENAME"))
    && (forall p :: IsWritten(changes, p) && p in now.tree ==> !now.tree[p].isDir)
  }

  /** Such events cover the changes or ask for a full rescan, as they do whenever a file went. */
  lemma ReportedIsCovered(before: Scanner, now: Scanner, events: seq<ChangeEvent>)
    requires SoundStates(before, now) && Reported(before, now, events)
    ensures NeedsFullRescan(events, ChangesOf(now.normal, events)) || Covers(before, now, ChangesOf(now.normal, events))
    ensures (exists p :: FileAt(before, p) && !FileAt(now, p)) ==> NeedsFullRescan(events, ChangesOf(now.normal, events))
  {
    var changes := ChangesOf(now.normal, events);
    EventsDeleteNothing(now, events);
    forall p | Changed(before, now, p)
      ensures NeedsFullRescan(events, changes) || (FileAt(now, p) && IsWritten(changes, p))
    {
      assert p != "" by {
        assert PlainPath(before, p) || PlainPath(now, p);
      }
      var there := FileAt(now, p);
      var i :| 0 <= i < |events| && changes[i].path == p
        && (Says(events[i].op, if there then "CREATE" else "REMOVE") || Says(events[i].op, if there then "WRITE" else "RENAME"));
      SaidKind(events[i].op);
      assert changes[i] in changes;
    }
    if p :| FileAt(before, p) && !FileAt(now, p) {
      assert Changed(before, now, p);
    }
  }
}
