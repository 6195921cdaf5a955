/** Extracting a bundle into an empty directory (internal/spackbundle/extract.go). */
module BundleExtract {
  import opened Basics
  import opened BundlePath
  import opened BundleIndex
  import opened BundleVerify

  type Place = seq<string>

  /** A directory tree below the extraction root: places are lists of names. */
  datatype Tree = Tree(dirs: set<Place>, files: map<Place, seq<byte>>)

  const EMPTY_TREE := Tree({}, map[])

  function PlaceOf(path: string): (place: Place)
    ensures place != []
  {
    Split(path, '/')
  }

  /** The directories above a place. */
  function Above(place: Place): set<Place> {
    set n | 1 <= n < |place| :: place[..n]
  }

  /** os.MkdirAll of the parent directories; None when one of them is a file. */
  function MkdirAll(tree: Tree, place: Place): Option<Tree> {
    if exists dir :: dir in Above(place) && dir in tree.files then None
    else Some(tree.(dirs := tree.dirs + Above(place)))
  }

  /** Creating a file that must not exist yet, be it as a file or as a directory. */
  function CreateExclusive(tree: Tree, place: Place, content: seq<byte>): Option<Tree> {
    if place in tree.files || place in tree.dirs then None
    else Some(tree.(files := tree.files[place := content]))
  }

  function Put(tree: Tree, place: Place, content: seq<byte>): Tree {
    Tree(tree.dirs + Above(place), tree.files[place := content])
  }

  /** One place would have to be a directory to hold the other. */
  predicate Below(lower: Place, upper: Place) {
    |upper| < |lower| && lower[..|upper|] == upper
  }

  ghost predicate Room(tree: Tree, place: Place) {
    && place !in tree.files && place !in tree.dirs
    && forall dir :: dir in Above(place) ==> dir !in tree.files
  }

  /** extractTarEntry. */
  method ExtractTarEntry(tree: Tree, entry: Entry, file: IndexFile, rules: Rules) returns (error: Option<BundleError>, next: Tree)
    ensures error == None <==> VerifyTarEntry(entry, file, rules) == None && Room(tree, PlaceOf(file.path))
    ensures error == None ==> next == Put(tree, PlaceOf(file.path), entry.content)
  {
    var place := PlaceOf(file.path);
    next := tree;
    if !entry.regular {
      return Some(NotRegular), next;
    }
    if entry.size != file.size {
      return Some(SizeMismatch), next;
    }
    var made := MkdirAll(tree, place);
    if made == None {
      return Some(Unreadable), next;
    }
    next := made.value;
    NotAboveItself(place);
    var copied := Limited(entry.content, file.size + 1);
    var created := CreateExclusive(next, place, copied);
    if created == None {
      return Some(Unreadable), next;
    }
    next := created.value;
    error := if |copied| != file.size then Some(SizeMismatch)
             else if rules.library.Sha(copied) != file.sha256 then Some(HashMismatch)
             else None;
  }

  lemma NotAboveItself(place: Place)
    ensures place !in Above(place)
  {
  }

  // ---- The tree that entries make ------------------------------------------------------------

  function EntryPlace(entry: Entry, rules: Rules): Place {
    PlaceOf(PathOf(entry, rules))
  }

  function TreeOf(entries: seq<Entry>, rules: Rules): Tree {
    if entries == [] then EMPTY_TREE
    else
      var last := entries[|entries| - 1];
      Put(TreeOf(entries[..|entries| - 1], rules), EntryPlace(last, rules), last.content)
  }

  /** No entry is below another. */
  predicate PrefixFree(entries: seq<Entry>, rules: Rules) {
    forall j, k :: 0 <= j < |entries| && 0 <= k < |entries| ==> !Below(EntryPlace(entries[j], rules), EntryPlace(entries[k], rules))
  }

  predicate DistinctPlaces(entries: seq<Entry>, rules: Rules) {
    forall j, k :: 0 <= j < k < |entries| ==> EntryPlace(entries[j], rules) != EntryPlace(entries[k], rules)
  }

  ghost predicate IsFileOf(place: Place, entries: seq<Entry>, rules: Rules) {
    exists k :: 0 <= k < |entries| && EntryPlace(entries[k], rules) == place
  }

  ghost predicate IsDirOf(place: Place, entries: seq<Entry>, rules: Rules) {
    exists k :: 0 <= k < |entries| && place != [] && Below(EntryPlace(entries[k], rules), place)
  }

  /** The files of the tree are the entries' places, its directories the places above them. */
  lemma {:induction false} TreeHolds(entries: seq<Entry>, rules: Rules, place: Place)
    ensures place in TreeOf(entries, rules).files <==> IsFileOf(place, entries, rules)
    ensures place in TreeOf(entries, rules).dirs <==> IsDirOf(place, entries, rules)
  {
    if entries != [] {
      var n := |entries| - 1;
      var front, last := entries[..n], EntryPlace(entries[n], rules);
      TreeHolds(front, rules, place);
      OneMorePlace(entries, rules, place);
      AboveIsBelow(last, place);
    }
  }

  lemma AboveIsBelow(lower: Place, upper: Place)
    ensures upper in Above(lower) <==> upper != [] && Below(lower, upper)
  {
    if upper != [] && Below(lower, upper) {
      assert 1 <= |upper| < |lower| && lower[..|upper|] == upper;
    }
  }

  lemma OneMorePlace(entries: seq<Entry>, rules: Rules, place: Place)
    requires entries != []
    ensures var n := |entries| - 1;
            && (IsFileOf(place, entries, rules) <==> IsFileOf(place, entries[..n], rules) || EntryPlace(entries[n], rules) == place)
            && (IsDirOf(place, entries, rules) <==>
                IsDirOf(place, entries[..n], rules) || (place != [] && Below(EntryPlace(entries[n], rules), place)))
  {
    var n := |entries| - 1;
    assert forall k :: 0 <= k < n ==> entries[..n][k] == entries[k];
    if IsFileOf(place, entries, rules) {
      var k :| 0 <= k < |entries| && EntryPlace(entries[k], rules) == place;
      assert k == n || entries[..n][k] == entries[k];
    }
    if IsDirOf(place, entries, rules) {
      var k :| 0 <= k < |entries| && Below(EntryPlace(entries[k], rules), place);
      assert k == n || entries[..n][k] == entries[k];
    }
  }

  /** Each entry's bytes are in the tree at its place. */
  lemma {:induction false} TreeContents(entries: seq<Entry>, rules: Rules, k: nat)
    requires DistinctPlaces(entries, rules) && k < |entries|
    ensures EntryPlace(entries[k], rules) in TreeOf(entries, rules).files
    ensures TreeOf(entries, rules).files[EntryPlace(entries[k], rules)] == entries[k].content
    decreases |entries|
  {
    var n := |entries| - 1;
    if k < n {
      var front := entries[..n];
      assert front[k] == entries[k];
      TreeContents(front, rules, k);
    }
  }

  /** There is room for the next entry exactly when it is apart from all before it. */
  lemma RoomIffApart(entries: seq<Entry>, i: nat, rules: Rules)
    requires i < |entries| && DistinctPlaces(entries[..i + 1], rules) && PrefixFree(entries[..i], rules)
    ensures Room(TreeOf(entries[..i], rules), EntryPlace(entries[i], rules)) <==> PrefixFree(entries[..i + 1], rules)
  {
    var front, next := entries[..i], entries[..i + 1];
    var tree, place := TreeOf(front, rules), EntryPlace(entries[i], rules);
    assert next == front + [entries[i]];
    assert forall k :: 0 <= k < i ==> next[k] == front[k];
    assert next[i] == entries[i];
    TreeHolds(front, rules, place);
    if PrefixFree(next, rules) {
      NotPlacedBefore(entries, i, rules);
      forall dir | dir in Above(place) ensures dir !in tree.files {
        TreeHolds(front, rules, dir);
        AboveIsBelow(place, dir);
        NotAFileAbove(next, i, rules, dir);
      }
      NotADir(next, i, rules);
    }
    if Room(tree, place) {
      forall j, k | 0 <= j < |next| && 0 <= k < |next| ensures !Below(EntryPlace(next[j], rules), EntryPlace(next[k], rules)) {
        if j < i && k == i {
          assert IsDirOf(place, front, rules) || !Below(EntryPlace(front[j], rules), place);
        } else if j == i && k < i {
          var dir := EntryPlace(front[k], rules);
          TreeHolds(front, rules, dir);
          AboveIsBelow(place, dir);
          assert IsFileOf(dir, front, rules);
        } else if j < i && k < i {
          assert !Below(EntryPlace(front[j], rules), EntryPlace(front[k], rules));
        }
      }
    }
  }

  lemma NotPlacedBefore(entries: seq<Entry>, i: nat, rules: Rules)
    requires i < |entries| && DistinctPlaces(entries[..i + 1], rules)
    ensures !IsFileOf(EntryPlace(entries[i], rules), entries[..i], rules)
  {
    var next := entries[..i + 1];
    forall k | 0 <= k < i ensures EntryPlace(entries[..i][k], rules) != EntryPlace(entries[i], rules) {
      assert next[k] == entries[..i][k] && next[i] == entries[i];
    }
  }

  lemma NotAFileAbove(next: seq<Entry>, i: nat, rules: Rules, dir: Place)
    requires |next| == i + 1 && PrefixFree(next, rules) && Below(EntryPlace(next[i], rules), dir)
    ensures !IsFileOf(dir, next[..i], rules)
  {
    forall k | 0 <= k < i ensures EntryPlace(next[..i][k], rules) != dir {
      assert !Below(EntryPlace(next[i], rules), EntryPlace(next[k], rules));
    }
  }

  lemma NotADir(next: seq<Entry>, i: nat, rules: Rules)
    requires |next| == i + 1 && PrefixFree(next, rules)
    ensures !IsDirOf(EntryPlace(next[i], rules), next[..i], rules)
  {
    forall k | 0 <= k < i ensures !Below(EntryPlace(next[..i][k], rules), EntryPlace(next[i], rules)) {
      assert !Below(EntryPlace(next[k], rules), EntryPlace(next[i], rules));
    }
  }

  lemma PrefixApart(entries: seq<Entry>, k: nat, rules: Rules)
    requires k <= |entries|
    ensures PrefixFree(entries, rules) ==> PrefixFree(entries[..k], rules)
    ensures DistinctPlaces(entries, rules) ==> DistinctPlaces(entries[..k], rules)
  {
  }

  lemma SplitInjective(a: string, b: string)
    requires PlaceOf(a) == PlaceOf(b)
    ensures a == b
  {
    SplitParts(a, '/');
    SplitParts(b, '/');
  }

  lemma MatchedPlaces(entries: seq<Entry>, expected: map<string, IndexFile>, rules: Rules)
    requires Matched(entries, expected, rules)
    ensures DistinctPlaces(entries, rules)
  {
    forall j, k | 0 <= j < k < |entries| ensures EntryPlace(entries[j], rules) != EntryPlace(entries[k], rules) {
      if EntryPlace(entries[j], rules) == EntryPlace(entries[k], rules) {
        SplitInjective(PathOf(entries[j], rules), PathOf(entries[k], rules));
      }
    }
  }

  // ---- The extractor ----------------------------------------------------------------------------

  method ExtractPayloadEntry(tree: Tree, entry: Entry, expected: map<string, IndexFile>, seen: set<string>, rules: Rules)
    returns (error: Option<BundleError>, path: string, next: Tree)
    requires forall p :: p in expected ==> expected[p].path == p
    ensures error == None <==>
              CarriesOne(entry, expected, rules) && PathOf(entry, rules) !in seen && Room(tree, EntryPlace(entry, rules))
    ensures error == None ==> path == PathOf(entry, rules) && next == Put(tree, EntryPlace(entry, rules), entry.content)
  {
    path, next := PathOf(entry, rules), tree;
    var file := LookupPayloadEntry(entry, expected, seen, rules);
    if file.Err? {
      return Some(file.error), path, next;
    }
    error, next := ExtractTarEntry(tree, entry, file.value, rules);
  }

  /** extractBundleEntries: succeeds exactly when the entries cover the index map and none
      lies below another; then the tree holds exactly their bytes. */
  method ExtractBundleEntries(entries: seq<Entry>, expected: map<string, IndexFile>, limits: Limits, rules: Rules, ghost files: seq<IndexFile>)
    returns (error: Option<BundleError>, tree: Tree)
    requires MapsFiles(expected, files) && ValidFiles(files, limits)
    ensures error == None <==> Corresponds(entries, expected, rules) && PrefixFree(entries, rules)
    ensures error == None ==> tree == TreeOf(entries, rules)
  {
    var seen: set<string> := {};
    var budget := new BundleBudget(limits);
    tree := EMPTY_TREE;
    PathsAreKeys(expected, files);
    for i := 0 to |entries|
      invariant Matched(entries[..i], expected, rules) && PrefixFree(entries[..i], rules)
      invariant seen == EntryPaths(entries[..i], rules) && tree == TreeOf(entries[..i], rules)
      invariant budget.limits == limits && budget.Holds(EntrySizes(entries[..i]))
    {
      NextEntry(entries, i, expected, rules);
      NextPlace(entries, i, expected, rules);
      error := budget.Add(entries[i].size, EntrySizes(entries[..i]));
      if error.Some? {
        RefusedByBudget(entries, i + 1, expected, files, limits, rules);
        return;
      }
      var path: string;
      error, path, tree := ExtractPayloadEntry(tree, entries[i], expected, seen, rules);
      if error.Some? {
        return;
      }
      seen := seen + {path};
    }
    assert entries[..|entries|] == entries;
    SeenIsExpected(entries, expected, rules);
    error := if expected.Keys <= seen then None else Some(Missing);
  }

  lemma NextPlace(entries: seq<Entry>, i: nat, expected: map<string, IndexFile>, rules: Rules)
    requires i < |entries| && PrefixFree(entries[..i], rules)
    ensures TreeOf(entries[..i + 1], rules) == Put(TreeOf(entries[..i], rules), EntryPlace(entries[i], rules), entries[i].content)
    ensures Matched(entries[..i + 1], expected, rules) ==>
              (Room(TreeOf(entries[..i], rules), EntryPlace(entries[i], rules)) <==> PrefixFree(entries[..i + 1], rules))
    ensures PrefixFree(entries, rules) ==> PrefixFree(entries[..i + 1], rules)
  {
    assert entries[..i + 1][..i] == entries[..i];
    PrefixApart(entries, i + 1, rules);
    if Matched(entries[..i + 1], expected, rules) {
      MatchedPlaces(entries[..i + 1], expected, rules);
      RoomIffApart(entries, i, rules);
    }
  }

  /** No file of the index lies below another. */
  predicate NoFileBelow(files: seq<IndexFile>) {
    forall i, j :: 0 <= i < |files| && 0 <= j < |files| ==> !Below(PlaceOf(files[i].path), PlaceOf(files[j].path))
  }

  lemma PrefixFreeIffNoFileBelow(entries: seq<Entry>, files: seq<IndexFile>, rules: Rules)
    requires OneToOne(entries, files, rules)
    ensures PrefixFree(entries, rules) <==> NoFileBelow(files)
  {
    if NoFileBelow(files) {
      forall j, k | 0 <= j < |entries| && 0 <= k < |entries| ensures !Below(EntryPlace(entries[j], rules), EntryPlace(entries[k], rules)) {
        CarriedPath(entries, files, j, rules);
        CarriedPath(entries, files, k, rules);
      }
    }
    if PrefixFree(entries, rules) {
      forall i, j | 0 <= i < |files| && 0 <= j < |files| ensures !Below(PlaceOf(files[i].path), PlaceOf(files[j].path)) {
        assert HasEntry(files[i], entries, rules) && HasEntry(files[j], entries, rules);
        var m :| 0 <= m < |entries| && Carries(entries[m], files[i], rules);
        var n :| 0 <= n < |entries| && Carries(entries[n], files[j], rules);
        assert !Below(EntryPlace(entries[m], rules), EntryPlace(entries[n], rules));
      }
    }
  }

  /** extractBundleStream into an empty root: succeeds exactly on the bundles Verify accepts
      in which no file lies below another. */
  method ExtractBundleStream(stream: seq<Entry>, limits: Limits, library: Library) returns (result: Result<Index, BundleError>, tree: Tree)
    ensures result.Ok? ==> Accepts(stream, result.value, limits, library) && NoFileBelow(result.value.files)
    ensures result.Ok? ==> tree == TreeOf(stream[1..], RulesOf(library))
    ensures result.Err? ==> forall index :: Accepts(stream, index, limits, library) ==> !NoFileBelow(index.files)
  {
    var expected: map<string, IndexFile>;
    tree := EMPTY_TREE;
    result, expected := ReadBundleIndex(stream, limits, library);
    if result.Err? {
      return;
    }
    var files, rules := result.value.files, RulesOf(library);
    CorrespondsIsOneToOne(stream[1..], expected, files, rules);
    if OneToOne(stream[1..], files, rules) {
      PrefixFreeIffNoFileBelow(stream[1..], files, rules);
    }
    var error;
    error, tree := ExtractBundleEntries(stream[1..], expected, limits, rules, files);
    if error.Some? {
      return Err(error.value), tree;
    }
  }

  /** What extraction leaves: at the place of every index file its entry's bytes, nothing
      else, and just the directories above them. */
  lemma ExtractedTree(stream: seq<Entry>, index: Index, limits: Limits, library: Library, place: Place)
    requires Accepts(stream, index, limits, library)
    ensures var tree := TreeOf(stream[1..], RulesOf(library));
            && (place in tree.files <==> exists i :: 0 <= i < |index.files| && PlaceOf(index.files[i].path) == place)
            && (place in tree.dirs <==> exists i :: 0 <= i < |index.files| && place != [] && Below(PlaceOf(index.files[i].path), place))
  {
    var entries, rules := stream[1..], RulesOf(library);
    TreeHolds(entries, rules, place);
    ExtractedPlaces(entries, index.files, rules, place);
  }

  lemma ExtractedPlaces(entries: seq<Entry>, files: seq<IndexFile>, rules: Rules, place: Place)
    requires OneToOne(entries, files, rules)
    ensures IsFileOf(place, entries, rules) <==> exists i :: 0 <= i < |files| && PlaceOf(files[i].path) == place
    ensures IsDirOf(place, entries, rules) <==> exists i :: 0 <= i < |files| && place != [] && Below(PlaceOf(files[i].path), place)
  {
    forall k | 0 <= k < |entries| ensures exists i :: 0 <= i < |files| && PlaceOf(files[i].path) == EntryPlace(entries[k], rules) {
      CarriedPath(entries, files, k, rules);
    }
    forall i | 0 <= i < |files| ensures exists k :: 0 <= k < |entries| && PlaceOf(files[i].path) == EntryPlace(entries[k], rules) {
      assert HasEntry(files[i], entries, rules);
      var k :| 0 <= k < |entries| && Carries(entries[k], files[i], rules);
    }
  }

  /** The tree holds each entry's bytes at its place. */
  lemma ExtractedContents(entries: seq<Entry>, files: seq<IndexFile>, rules: Rules, k: nat)
    requires OneToOne(entries, files, rules) && DistinctPaths(files) && k < |entries|
    ensures EntryPlace(entries[k], rules) in TreeOf(entries, rules).files
    ensures TreeOf(entries, rules).files[EntryPlace(entries[k], rules)] == entries[k].content
  {
    IndexMapExists(files);
    var expected :| MapsFiles(expected, files);
    CorrespondsIsOneToOne(entries, expected, files, rules);
    MatchedPlaces(entries, expected, rules);
    TreeContents(entries, rules, k);
  }
}
