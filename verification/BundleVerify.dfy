/** Verifying a bundle as a stream of tar entries (internal/spackbundle/verify.go and
    tar_entry.go). */
module BundleVerify {
  import opened Basics
  import opened BundlePath
  import opened BundleIndex
  import SizedMaps

  /** A tar entry: its header, and the bytes that follow it. */
  datatype Entry = Entry(name: string, regular: bool, size: int, content: seq<byte>)

  /** io.LimitReader. */
  function Limited(content: seq<byte>, n: int): seq<byte> {
    if n <= 0 then [] else if n < |content| then content[..n] else content
  }

  predicate SizeAdmitted(size: int, maxBytes: int) {
    0 <= size <= maxBytes
  }

  /** readTarEntryBody. */
  function ReadTarEntryBody(entry: Entry, path: string, maxBytes: int): Result<seq<byte>, BundleError> {
    if !entry.regular then Err(NotRegular)
    else if !SizeAdmitted(entry.size, maxBytes) then Err(if path == INDEX_PATH then IndexTooLarge else FileTooLarge)
    else
      var body := Limited(entry.content, entry.size + 1);
      if |body| != entry.size then Err(SizeMismatch) else Ok(body)
  }

  /** An entry that can be read whole within a bound. */
  predicate Whole(entry: Entry, maxBytes: int) {
    entry.regular && SizeAdmitted(entry.size, maxBytes) && |entry.content| == entry.size
  }

  lemma ReadsWhole(entry: Entry, path: string, maxBytes: int)
    ensures ReadTarEntryBody(entry, path, maxBytes).Ok? <==> Whole(entry, maxBytes)
    ensures Whole(entry, maxBytes) ==> ReadTarEntryBody(entry, path, maxBytes) == Ok(entry.content)
  {
  }

  // ---- What a bundle must be --------------------------------------------------------------

  /** The stream begins with a whole entry for the index, and the index is valid. */
  ghost predicate OpensWith(stream: seq<Entry>, index: Index, limits: Limits, library: Library) {
    && stream != []
    && CleanTarEntryPath(stream[0].name) == Ok(INDEX_PATH)
    && Whole(stream[0], limits.indexBytes)
    && UnmarshalIndex(stream[0].content, limits, library) == Ok(index)
    && ValidIndex(index, limits)
  }

  /** How entries' names and bodies are read. */
  datatype Rules = Rules(library: Library, naming: string -> Result<string, PathError>)

  function RulesOf(library: Library): Rules {
    Rules(library, CleanTarEntryPath)
  }

  /** The entry is this file of the index: its path, size and digest. */
  predicate Carries(entry: Entry, file: IndexFile, rules: Rules) {
    && rules.naming(entry.name) == Ok(file.path)
    && entry.regular
    && entry.size == file.size == |entry.content|
    && rules.library.Sha(entry.content) == file.sha256
  }

  predicate DistinctEntries(entries: seq<Entry>, rules: Rules) {
    forall j, k :: 0 <= j < k < |entries| ==> rules.naming(entries[j].name) != rules.naming(entries[k].name)
  }

  ghost predicate HasFile(entry: Entry, files: seq<IndexFile>, rules: Rules) {
    exists i :: 0 <= i < |files| && Carries(entry, files[i], rules)
  }

  ghost predicate HasEntry(file: IndexFile, entries: seq<Entry>, rules: Rules) {
    exists k :: 0 <= k < |entries| && Carries(entries[k], file, rules)
  }

  /** Entries and index files correspond one to one. */
  ghost predicate OneToOne(entries: seq<Entry>, files: seq<IndexFile>, rules: Rules) {
    && DistinctEntries(entries, rules)
    && (forall k {:trigger HasFile(entries[k], files, rules)} :: 0 <= k < |entries| ==> HasFile(entries[k], files, rules))
    && (forall i {:trigger HasEntry(files[i], entries, rules)} :: 0 <= i < |files| ==> HasEntry(files[i], entries, rules))
  }

  /** The bundles Verify is meant to accept. */
  ghost predicate Accepts(stream: seq<Entry>, index: Index, limits: Limits, library: Library) {
    OpensWith(stream, index, limits, library) && OneToOne(stream[1..], index.files, RulesOf(library))
  }

  // ---- Reading the index ---------------------------------------------------------------------

  /** readBundleIndex. */
  method ReadBundleIndex(stream: seq<Entry>, limits: Limits, library: Library)
    returns (result: Result<Index, BundleError>, expected: map<string, IndexFile>)
    ensures result.Ok? ==> OpensWith(stream, result.value, limits, library) && MapsFiles(expected, result.value.files)
    ensures result.Err? ==> forall index :: !OpensWith(stream, index, limits, library)
  {
    expected := map[];
    if stream == [] {
      return Err(NoIndex), expected;
    }
    var path := CleanTarEntryPath(stream[0].name);
    if path.Err? {
      return Err(BadPath(path.error)), expected;
    }
    if path.value != INDEX_PATH {
      return Err(IndexNotFirst), expected;
    }
    ReadsWhole(stream[0], path.value, limits.indexBytes);
    var body := ReadTarEntryBody(stream[0], path.value, limits.indexBytes);
    if body.Err? {
      return Err(body.error), expected;
    }
    var index := UnmarshalIndex(body.value, limits, library);
    if index.Err? {
      return Err(index.error), expected;
    }
    var error := ValidateIndex(index.value, limits);
    if error.Some? {
      return Err(error.value), expected;
    }
    expected := IndexFileMap(index.value.files);
    result := index;
  }

  // ---- Entries against the index map -------------------------------------------------------

  function PathOf(entry: Entry, rules: Rules): string {
    var path := rules.naming(entry.name);
    if path.Ok? then path.value else ""
  }

  function EntryPaths(entries: seq<Entry>, rules: Rules): set<string> {
    set e | e in entries :: PathOf(e, rules)
  }

  function EntrySizes(entries: seq<Entry>): (sizes: seq<int>)
    ensures |sizes| == |entries|
  {
    seq(|entries|, i requires 0 <= i < |entries| => entries[i].size)
  }

  predicate CarriesOne(entry: Entry, expected: map<string, IndexFile>, rules: Rules) {
    PathOf(entry, rules) in expected && Carries(entry, expected[PathOf(entry, rules)], rules)
  }

  /** Every entry is a different file of the index. */
  predicate Matched(entries: seq<Entry>, expected: map<string, IndexFile>, rules: Rules) {
    && (forall k :: 0 <= k < |entries| ==> CarriesOne(entries[k], expected, rules))
    && (forall j, k :: 0 <= j < k < |entries| ==> PathOf(entries[j], rules) != PathOf(entries[k], rules))
  }

  lemma NextMatched(entries: seq<Entry>, i: nat, expected: map<string, IndexFile>, rules: Rules)
    requires i < |entries|
    ensures entries[..i + 1] == entries[..i] + [entries[i]]
    ensures EntryPaths(entries[..i + 1], rules) == EntryPaths(entries[..i], rules) + {PathOf(entries[i], rules)}
    ensures EntrySizes(entries[..i + 1]) == EntrySizes(entries[..i]) + [entries[i].size]
    ensures Matched(entries[..i + 1], expected, rules) <==>
              && Matched(entries[..i], expected, rules) && CarriesOne(entries[i], expected, rules)
              && PathOf(entries[i], rules) !in EntryPaths(entries[..i], rules)
  {
    var front := entries[..i];
    var next := entries[..i + 1];
    assert next == front + [entries[i]];
    assert forall e :: e in next <==> e in front || e == entries[i];
    assert forall k :: 0 <= k < i ==> next[k] == front[k] && front[k] in front;
    assert next[i] == entries[i];
  }

  lemma PrefixMatched(entries: seq<Entry>, k: nat, expected: map<string, IndexFile>, rules: Rules)
    requires k <= |entries|
    ensures Matched(entries, expected, rules) ==> Matched(entries[..k], expected, rules)
    ensures EntrySizes(entries)[..k] == EntrySizes(entries[..k])
  {
  }

  function PathList(entries: seq<Entry>, rules: Rules): (paths: seq<string>)
    ensures |paths| == |entries|
  {
    seq(|entries|, i requires 0 <= i < |entries| => PathOf(entries[i], rules))
  }

  function SizeOf(file: IndexFile): nat {
    if file.size < 0 then 0 else file.size
  }

  lemma {:induction false} EntrySum(entries: seq<Entry>, expected: map<string, IndexFile>, rules: Rules)
    requires Matched(entries, expected, rules)
    ensures forall i :: 0 <= i < |entries| ==> PathList(entries, rules)[i] in expected
    ensures Sum(EntrySizes(entries)) == SizedMaps.SumAt(expected, SizeOf, PathList(entries, rules)) && NoneNegative(EntrySizes(entries))
  {
    if entries != [] {
      var front := entries[..|entries| - 1];
      PrefixMatched(entries, |entries| - 1, expected, rules);
      EntrySum(front, expected, rules);
      assert EntrySizes(entries)[..|front|] == EntrySizes(front);
      assert PathList(entries, rules)[..|front|] == PathList(front, rules);
      assert CarriesOne(entries[|entries| - 1], expected, rules);
    }
  }

  function FilePaths(files: seq<IndexFile>): (paths: seq<string>)
    ensures |paths| == |files|
  {
    seq(|files|, i requires 0 <= i < |files| => files[i].path)
  }

  lemma {:induction false} FileSum(files: seq<IndexFile>, expected: map<string, IndexFile>)
    requires forall i :: 0 <= i < |files| ==> files[i].path in expected && expected[files[i].path] == files[i]
    requires NoneNegative(Sizes(files))
    ensures Sum(Sizes(files)) == SizedMaps.SumAt(expected, SizeOf, FilePaths(files))
  {
    if files != [] {
      var front := files[..|files| - 1];
      assert Sizes(files)[..|front|] == Sizes(front);
      FileSum(front, expected);
      assert FilePaths(files)[..|front|] == FilePaths(front);
      assert Sizes(files)[|front|] == files[|front|].size;
    }
  }

  lemma FilePathsAreKeys(files: seq<IndexFile>, expected: map<string, IndexFile>)
    requires MapsFiles(expected, files)
    ensures SizedMaps.KeySet(FilePaths(files)) == expected.Keys
  {
    forall p | p in expected ensures p in FilePaths(files) {
      var i := FileAt(expected, files, p);
      assert FilePaths(files)[i] == p;
    }
    forall p | p in FilePaths(files) ensures p in expected {
      var i :| 0 <= i < |files| && FilePaths(files)[i] == p;
      assert files[i] in files;
    }
  }

  lemma FileAt(expected: map<string, IndexFile>, files: seq<IndexFile>, path: string) returns (i: nat)
    requires MapsFiles(expected, files) && path in expected
    ensures i < |files| && files[i] == expected[path] && files[i].path == path
  {
    var f :| f in files && f.path == path;
    i :| 0 <= i < |files| && files[i] == f;
  }

  /** Entries matched to a valid index keep the budget the index kept. */
  lemma MatchedFits(entries: seq<Entry>, expected: map<string, IndexFile>, files: seq<IndexFile>, limits: Limits, rules: Rules)
    requires Matched(entries, expected, rules) && MapsFiles(expected, files) && ValidFiles(files, limits)
    ensures Fits(EntrySizes(entries), limits)
  {
    MatchedSums(entries, expected, files, rules);
    if entries != [] {
      assert CarriesOne(entries[0], expected, rules);
      var i := FileAt(expected, files, PathOf(entries[0], rules));
    }
  }

  lemma MatchedSums(entries: seq<Entry>, expected: map<string, IndexFile>, files: seq<IndexFile>, rules: Rules)
    requires Matched(entries, expected, rules) && MapsFiles(expected, files)
    requires DistinctPaths(files) && NoneNegative(Sizes(files))
    ensures |entries| <= |files| && Sum(EntrySizes(entries)) <= Sum(Sizes(files)) && NoneNegative(EntrySizes(entries))
    ensures EntryPaths(entries, rules) == expected.Keys ==> |entries| == |files| && Sum(EntrySizes(entries)) == Sum(Sizes(files))
  {
    EntriesAddUp(entries, expected, rules);
    FilesAddUp(files, expected);
    SizedMaps.AmongIsLess(expected, EntryPaths(entries, rules), SizeOf);
  }

  lemma EntriesAddUp(entries: seq<Entry>, expected: map<string, IndexFile>, rules: Rules)
    requires Matched(entries, expected, rules)
    ensures var some := SizedMaps.Among(expected, EntryPaths(entries, rules));
            |entries| == |some| && Sum(EntrySizes(entries)) == SizedMaps.Sum(some, SizeOf) && NoneNegative(EntrySizes(entries))
  {
    EntrySum(entries, expected, rules);
    SizedMaps.SumAtIsSum(expected, SizeOf, PathList(entries, rules));
    PathListIsPaths(entries, rules);
  }

  lemma FilesAddUp(files: seq<IndexFile>, expected: map<string, IndexFile>)
    requires MapsFiles(expected, files) && DistinctPaths(files) && NoneNegative(Sizes(files))
    ensures |files| == |expected| && Sum(Sizes(files)) == SizedMaps.Sum(expected, SizeOf)
  {
    FileSum(files, expected);
    SizedMaps.SumAtIsSum(expected, SizeOf, FilePaths(files));
    FilePathsAreKeys(files, expected);
    SizedMaps.AmongIsLess(expected, expected.Keys, SizeOf);
  }

  lemma PathListIsPaths(entries: seq<Entry>, rules: Rules)
    ensures SizedMaps.KeySet(PathList(entries, rules)) == EntryPaths(entries, rules)
  {
    forall p | p in EntryPaths(entries, rules) ensures p in PathList(entries, rules) {
      var k := EntryAt(entries, p, rules);
      assert PathList(entries, rules)[k] == p;
    }
    forall p | p in PathList(entries, rules) ensures p in EntryPaths(entries, rules) {
      var k :| 0 <= k < |entries| && PathList(entries, rules)[k] == p;
      assert entries[k] in entries;
    }
  }

  lemma EntryAt(entries: seq<Entry>, path: string, rules: Rules) returns (k: nat)
    requires path in EntryPaths(entries, rules)
    ensures k < |entries| && PathOf(entries[k], rules) == path
  {
    var e :| e in entries && PathOf(e, rules) == path;
    k :| 0 <= k < |entries| && entries[k] == e;
  }

  /** The entries are all the files of the index map. */
  ghost predicate Corresponds(entries: seq<Entry>, expected: map<string, IndexFile>, rules: Rules) {
    Matched(entries, expected, rules) && EntryPaths(entries, rules) == expected.Keys
  }

  /** Covering the whole index map is corresponding one to one with its files. */
  lemma CorrespondsIsOneToOne(entries: seq<Entry>, expected: map<string, IndexFile>, files: seq<IndexFile>, rules: Rules)
    requires MapsFiles(expected, files)
    ensures Corresponds(entries, expected, rules) <==> OneToOne(entries, files, rules)
  {
    if Corresponds(entries, expected, rules) {
      MatchedCorresponds(entries, expected, files, rules);
    }
    if OneToOne(entries, files, rules) {
      CorrespondingMatches(entries, expected, files, rules);
    }
  }

  lemma MatchedCorresponds(entries: seq<Entry>, expected: map<string, IndexFile>, files: seq<IndexFile>, rules: Rules)
    requires MapsFiles(expected, files) && Corresponds(entries, expected, rules)
    ensures OneToOne(entries, files, rules)
  {
    forall k | 0 <= k < |entries| ensures HasFile(entries[k], files, rules) {
      assert CarriesOne(entries[k], expected, rules);
      var i := FileAt(expected, files, PathOf(entries[k], rules));
    }
    forall i | 0 <= i < |files| ensures HasEntry(files[i], entries, rules) {
      var k := EntryAt(entries, files[i].path, rules);
      assert CarriesOne(entries[k], expected, rules);
    }
    forall j, k | 0 <= j < k < |entries| ensures rules.naming(entries[j].name) != rules.naming(entries[k].name) {
      assert PathOf(entries[j], rules) != PathOf(entries[k], rules);
    }
  }

  lemma FileOf(entries: seq<Entry>, expected: map<string, IndexFile>, files: seq<IndexFile>, rules: Rules, k: nat)
    requires MapsFiles(expected, files) && OneToOne(entries, files, rules) && k < |entries|
    ensures CarriesOne(entries[k], expected, rules)
  {
    assert HasFile(entries[k], files, rules);
    var i :| 0 <= i < |files| && Carries(entries[k], files[i], rules);
  }

  lemma CorrespondingMatches(entries: seq<Entry>, expected: map<string, IndexFile>, files: seq<IndexFile>, rules: Rules)
    requires MapsFiles(expected, files) && OneToOne(entries, files, rules)
    ensures Corresponds(entries, expected, rules)
  {
    forall k | 0 <= k < |entries| ensures CarriesOne(entries[k], expected, rules) {
      FileOf(entries, expected, files, rules, k);
    }
    forall j, k | 0 <= j < k < |entries| ensures PathOf(entries[j], rules) != PathOf(entries[k], rules) {
      FileOf(entries, expected, files, rules, j);
      FileOf(entries, expected, files, rules, k);
    }
    forall p | p in expected ensures p in EntryPaths(entries, rules) {
      var i := FileAt(expected, files, p);
      assert HasEntry(files[i], entries, rules);
      var k :| 0 <= k < |entries| && Carries(entries[k], files[i], rules);
      assert entries[k] in entries;
    }
    SeenIsExpected(entries, expected, rules);
  }

  lemma SeenIsExpected(entries: seq<Entry>, expected: map<string, IndexFile>, rules: Rules)
    requires Matched(entries, expected, rules)
    ensures EntryPaths(entries, rules) <= expected.Keys
  {
    forall p | p in EntryPaths(entries, rules) ensures p in expected {
      var k := EntryAt(entries, p, rules);
      assert CarriesOne(entries[k], expected, rules);
    }
  }

  // ---- The verifier -----------------------------------------------------------------------------

  /** lookupPayloadEntry. */
  function LookupPayloadEntry(entry: Entry, expected: map<string, IndexFile>, seen: set<string>, rules: Rules): Result<IndexFile, BundleError> {
    var path := rules.naming(entry.name);
    if path.Err? then Err(BadPath(path.error))
    else if path.value !in expected then Err(Undeclared)
    else if path.value in seen then Err(Duplicated)
    else Ok(expected[path.value])
  }

  /** verifyTarEntry: at most one byte beyond the expected size is read. */
  function VerifyTarEntry(entry: Entry, expected: IndexFile, rules: Rules): Option<BundleError> {
    var copied := Limited(entry.content, expected.size + 1);
    if !entry.regular then Some(NotRegular)
    else if entry.size != expected.size then Some(SizeMismatch)
    else if |copied| != expected.size then Some(SizeMismatch)
    else if rules.library.Sha(copied) != expected.sha256 then Some(HashMismatch)
    else None
  }

  method VerifyPayloadEntry(entry: Entry, expected: map<string, IndexFile>, seen: set<string>, rules: Rules)
    returns (error: Option<BundleError>, path: string)
    requires forall p :: p in expected ==> expected[p].path == p
    ensures error == None <==> CarriesOne(entry, expected, rules) && PathOf(entry, rules) !in seen
    ensures error == None ==> path == PathOf(entry, rules)
  {
    path := PathOf(entry, rules);
    var file := LookupPayloadEntry(entry, expected, seen, rules);
    if file.Err? {
      return Some(file.error), path;
    }
    error := VerifyTarEntry(entry, file.value, rules);
  }

  /** verifyBundleEntries: accepts exactly the entries that cover the index map; the budget
      never refuses such entries. */
  method VerifyBundleEntries(entries: seq<Entry>, expected: map<string, IndexFile>, limits: Limits, rules: Rules, ghost files: seq<IndexFile>)
    returns (error: Option<BundleError>)
    requires MapsFiles(expected, files) && ValidFiles(files, limits)
    ensures error == None <==> Corresponds(entries, expected, rules)
  {
    var seen: set<string> := {};
    var budget := new BundleBudget(limits);
    PathsAreKeys(expected, files);
    for i := 0 to |entries|
      invariant Matched(entries[..i], expected, rules) && seen == EntryPaths(entries[..i], rules)
      invariant budget.limits == limits && budget.Holds(EntrySizes(entries[..i]))
    {
      NextEntry(entries, i, expected, rules);
      error := budget.Add(entries[i].size, EntrySizes(entries[..i]));
      if error.Some? {
        RefusedByBudget(entries, i + 1, expected, files, limits, rules);
        return;
      }
      var path: string;
      error, path := VerifyPayloadEntry(entries[i], expected, seen, rules);
      if error.Some? {
        return;
      }
      seen := seen + {path};
    }
    assert entries[..|entries|] == entries;
    SeenIsExpected(entries, expected, rules);
    error := if expected.Keys <= seen then None else Some(Missing);
  }

  lemma NextEntry(entries: seq<Entry>, i: nat, expected: map<string, IndexFile>, rules: Rules)
    requires i < |entries| && Matched(entries[..i], expected, rules)
    ensures EntryPaths(entries[..i + 1], rules) == EntryPaths(entries[..i], rules) + {PathOf(entries[i], rules)}
    ensures EntrySizes(entries[..i + 1]) == EntrySizes(entries[..i]) + [entries[i].size]
    ensures CarriesOne(entries[i], expected, rules) && PathOf(entries[i], rules) !in EntryPaths(entries[..i], rules)
            <==> Matched(entries[..i + 1], expected, rules)
    ensures Corresponds(entries, expected, rules) ==> Matched(entries[..i + 1], expected, rules)
  {
    NextMatched(entries, i, expected, rules);
    PrefixMatched(entries, i + 1, expected, rules);
  }

  lemma PathsAreKeys(expected: map<string, IndexFile>, files: seq<IndexFile>)
    requires MapsFiles(expected, files)
    ensures forall p :: p in expected ==> expected[p].path == p
  {
    forall p | p in expected ensures expected[p].path == p {
      var i := FileAt(expected, files, p);
    }
  }

  lemma RefusedByBudget(entries: seq<Entry>, k: nat, expected: map<string, IndexFile>, files: seq<IndexFile>, limits: Limits, rules: Rules)
    requires k <= |entries| && MapsFiles(expected, files) && ValidFiles(files, limits)
    requires !Fits(EntrySizes(entries[..k]), limits)
    ensures !Matched(entries, expected, rules)
  {
    if Matched(entries, expected, rules) {
      MatchedFits(entries, expected, files, limits, rules);
      FitsShorter(EntrySizes(entries), k, limits);
      PrefixMatched(entries, k, expected, rules);
      assert false;
    }
  }

  /** Verify: accepts exactly the bundles it is meant to accept. */
  method Verify(stream: seq<Entry>, limits: Limits, library: Library) returns (result: Result<Index, BundleError>)
    ensures result.Ok? ==> Accepts(stream, result.value, limits, library)
    ensures result.Err? ==> forall index :: !Accepts(stream, index, limits, library)
  {
    var expected: map<string, IndexFile>;
    result, expected := ReadBundleIndex(stream, limits, library);
    if result.Err? {
      return;
    }
    CorrespondsIsOneToOne(stream[1..], expected, result.value.files, RulesOf(library));
    var error := VerifyBundleEntries(stream[1..], expected, limits, RulesOf(library), result.value.files);
    if error.Some? {
      return Err(error.value);
    }
  }

  /** What acceptance means for the stream: the first entry is the only one that stands for
      the index, there are exactly as many payload entries as index files, and their number
      and bytes are within the limits. */
  lemma AcceptedStructure(stream: seq<Entry>, index: Index, limits: Limits, library: Library)
    requires Accepts(stream, index, limits, library)
    ensures CleanTarEntryPath(stream[0].name) == Ok(INDEX_PATH)
    ensures forall k :: 1 <= k < |stream| ==> CleanTarEntryPath(stream[k].name) != Ok(INDEX_PATH)
    ensures |stream| == 1 + |index.files| && |index.files| <= limits.files
    ensures Fits(EntrySizes(stream[1..]), limits)
    ensures Sum(EntrySizes(stream[1..])) == Sum(Sizes(index.files))
  {
    OneToOneCounts(stream[1..], index.files, limits, RulesOf(library));
    IndexPathIsNoFile(index.files, limits);
    NoneIsNamed(stream, index.files, RulesOf(library), INDEX_PATH);
  }

  lemma NoneIsNamed(stream: seq<Entry>, files: seq<IndexFile>, rules: Rules, path: string)
    requires stream != [] && OneToOne(stream[1..], files, rules)
    requires forall i :: 0 <= i < |files| ==> files[i].path != path
    ensures forall k :: 1 <= k < |stream| ==> rules.naming(stream[k].name) != Ok(path)
  {
    forall k | 1 <= k < |stream| ensures rules.naming(stream[k].name) != Ok(path) {
      assert stream[1..][k - 1] == stream[k];
      CarriedPath(stream[1..], files, k - 1, rules);
    }
  }

  lemma IndexPathIsNoFile(files: seq<IndexFile>, limits: Limits)
    requires ValidFiles(files, limits)
    ensures forall i :: 0 <= i < |files| ==> files[i].path != INDEX_PATH
  {
    forall i | 0 <= i < |files| ensures files[i].path != INDEX_PATH {
      assert ValidIndexFile(files[i], limits);
      CleanBundlePathForm(files[i].path);
      IndexPathIsItself();
    }
  }

  lemma CarriedPath(entries: seq<Entry>, files: seq<IndexFile>, k: nat, rules: Rules)
    requires OneToOne(entries, files, rules) && k < |entries|
    ensures exists i :: 0 <= i < |files| && rules.naming(entries[k].name) == Ok(files[i].path)
  {
    assert HasFile(entries[k], files, rules);
    var i :| 0 <= i < |files| && Carries(entries[k], files[i], rules);
  }

  /** Entries one to one with a valid index are as many as its files and as long. */
  lemma OneToOneCounts(entries: seq<Entry>, files: seq<IndexFile>, limits: Limits, rules: Rules)
    requires OneToOne(entries, files, rules) && ValidFiles(files, limits)
    ensures |entries| == |files| && Fits(EntrySizes(entries), limits)
    ensures Sum(EntrySizes(entries)) == Sum(Sizes(files))
  {
    IndexMapExists(files);
    var expected :| MapsFiles(expected, files);
    CorrespondsIsOneToOne(entries, expected, files, rules);
    MatchedFits(entries, expected, files, limits, rules);
    MatchedSums(entries, expected, files, rules);
  }

  lemma {:induction false} IndexMapExists(files: seq<IndexFile>)
    requires DistinctPaths(files)
    ensures exists expected :: MapsFiles(expected, files)
  {
    if files == [] {
      assert MapsFiles(map[], files);
    } else {
      var i := |files| - 1;
      NextFile(files, i);
      assert files[..i + 1] == files;
      IndexMapExists(files[..i]);
      var m :| MapsFiles(m, files[..i]);
      MapOneMore(m, files, i);
    }
  }
}
