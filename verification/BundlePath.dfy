/** The path normal form of bundles (internal/spackbundle/path.go, cleanTarEntryPath in
    tar_entry.go, pkg/path_policy.go), on a system whose separator is the slash. */
module BundlePath {
  import opened Basics
  import opened Paths

  datatype PathError = EmptyPath | InvalidCharacter | NotRelative | EscapesRoot | UnsafeSegment | ReservedNamespace

  const INDEX_PATH: string := ".spack/index.bin"

  const DEVICES: set<string> := {"CON", "PRN", "AUX", "NUL", "CONIN$", "CONOUT$"}
  const SERIAL_PORTS: set<string> := {"COM1", "COM2", "COM3", "COM4", "COM5", "COM6", "COM7", "COM8", "COM9"}
  const PRINTER_PORTS: set<string> := {"LPT1", "LPT2", "LPT3", "LPT4", "LPT5", "LPT6", "LPT7", "LPT8", "LPT9"}

  function TrimDotsAndSpaces(s: string): string {
    if s != "" && s[|s| - 1] in ". " then TrimDotsAndSpaces(s[..|s| - 1]) else s
  }

  predicate IsUnsafePortablePathSegment(segment: string) {
    || segment == "" || segment == "." || segment == ".."
    || ':' in segment || HasSuffix(segment, ".") || HasSuffix(segment, " ")
    || IsReservedName(ToUpper(Cut(TrimDotsAndSpaces(segment), '.').before))
  }

  predicate IsReservedName(name: string) {
    name in DEVICES || name in SERIAL_PORTS || name in PRINTER_PORTS
  }

  /** Backslashes count as separators. */
  function Slashed(s: string): string {
    seq(|s|, i requires 0 <= i < |s| => if s[i] == '\\' then '/' else s[i])
  }

  predicate HasUnsafePortablePathSegment(value: string) {
    exists s :: s in Split(Slashed(value), '/') && IsUnsafePortablePathSegment(s)
  }

  predicate IsMetadata(cleaned: string) {
    cleaned == ".spack" || ".spack/" <= cleaned
  }

  function ValidateRaw(trimmed: string): Option<PathError> {
    if trimmed == "" then Some(EmptyPath)
    else if '\0' in trimmed || '\\' in trimmed then Some(InvalidCharacter)
    else if trimmed[0] == '/' then Some(NotRelative)
    else None
  }

  function ValidateClean(cleaned: string): Option<PathError> {
    if cleaned == "." || cleaned == ".." || "../" <= cleaned then Some(EscapesRoot)
    else if HasUnsafePortablePathSegment(cleaned) then Some(UnsafeSegment)
    else if IsMetadata(cleaned) then Some(ReservedNamespace)
    else None
  }

  function CleanBundlePath(raw: string): Result<string, PathError> {
    var trimmed := TrimSpace(raw);
    var rawError := ValidateRaw(trimmed);
    if rawError.Some? then Err(rawError.value)
    else
      var cleaned := Clean(trimmed);
      var cleanError := ValidateClean(cleaned);
      if cleanError.Some? then Err(cleanError.value) else Ok(cleaned)
  }

  /** cleanTarEntryPath: the path a tar entry's name stands for. */
  function CleanTarEntryPath(name: string): Result<string, PathError> {
    var cleaned := Clean(name);
    if cleaned == INDEX_PATH then Ok(cleaned)
    else if IsMetadata(Clean(cleaned)) then Err(ReservedNamespace)
    else CleanBundlePath(cleaned)
  }

  // ---- Clean keeps the alphabet and never lengthens a path -------------------------------------

  /** Every character of the parts is one of these. */
  predicate Over(parts: seq<string>, allowed: set<char>) {
    forall i, k :: 0 <= i < |parts| && 0 <= k < |parts[i]| ==> parts[i][k] in allowed
  }

  lemma {:induction false} ReduceOver(segments: seq<string>, stack: seq<string>, rooted: bool, allowed: set<char>)
    requires Over(segments, allowed) && Over(stack, allowed) && '.' in allowed
    ensures Over(Reduce(segments, stack, rooted), allowed)
    decreases |segments|
  {
    if segments != [] {
      var rest := segments[1..];
      assert forall i :: 0 <= i < |rest| ==> rest[i] == segments[i + 1];
      ReduceOver(rest, Push(stack, segments[0], rooted), rooted, allowed);
    }
  }

  lemma {:induction false} SplitOver(s: string, c: char, allowed: set<char>)
    requires forall d :: d in s ==> d in allowed
    ensures Over(Split(s, c), allowed)
    decreases |s|
  {
    var cut := Cut(s, c);
    if cut.found {
      SplitOver(cut.after, c, allowed);
    }
  }

  lemma {:induction false} JoinOver(parts: seq<string>, c: char, allowed: set<char>)
    requires Over(parts, allowed) && c in allowed
    ensures forall d :: d in Join(parts, c) ==> d in allowed
  {
    if |parts| > 1 {
      var rest := parts[1..];
      assert forall i :: 0 <= i < |rest| ==> rest[i] == parts[i + 1];
      JoinOver(rest, c, allowed);
    }
  }

  lemma CleanOver(s: string, allowed: set<char>)
    requires (forall d :: d in s ==> d in allowed) && '.' in allowed && '/' in allowed
    ensures forall d :: d in Clean(s) ==> d in allowed
  {
    var rooted := s != "" && s[0] == '/';
    SplitOver(s, '/', allowed);
    ReduceOver(Split(s, '/'), [], rooted, allowed);
    JoinOver(Reduce(Split(s, '/'), [], rooted), '/', allowed);
  }

  lemma CleanAvoids(s: string, c: char)
    requires c !in s && c != '.' && c != '/'
    ensures c !in Clean(s)
  {
    var allowed := (set d | d in s) + {'.', '/'};
    CleanOver(s, allowed);
  }

  /** The room parts take when each is followed by a separator. */
  function Room(parts: seq<string>): nat {
    if parts == [] then 0 else |parts[0]| + 1 + Room(parts[1..])
  }

  lemma {:induction false} RoomAppend(a: seq<string>, b: seq<string>)
    ensures Room(a + b) == Room(a) + Room(b)
  {
    if a == [] {
      assert a + b == b;
    } else {
      assert (a + b)[1..] == a[1..] + b;
      RoomAppend(a[1..], b);
    }
  }

  lemma {:induction false} JoinRoom(parts: seq<string>, c: char)
    requires parts != []
    ensures |Join(parts, c)| + 1 == Room(parts)
  {
    if |parts| > 1 {
      JoinRoom(parts[1..], c);
    }
  }

  lemma {:induction false} ReduceRoom(segments: seq<string>, stack: seq<string>, rooted: bool)
    ensures Room(Reduce(segments, stack, rooted)) <= Room(stack) + Room(segments)
    decreases |segments|
  {
    if segments != [] {
      PushRoom(stack, segments[0], rooted);
      ReduceRoom(segments[1..], Push(stack, segments[0], rooted), rooted);
    }
  }

  lemma PushRoom(stack: seq<string>, segment: string, rooted: bool)
    ensures Room(Push(stack, segment, rooted)) <= Room(stack) + |segment| + 1
  {
    RoomAppend(stack, [segment]);
    if stack != [] {
      RoomAppend(stack[..|stack| - 1], [stack[|stack| - 1]]);
      assert stack == stack[..|stack| - 1] + [stack[|stack| - 1]];
    }
  }

  lemma CleanIsNoLonger(s: string)
    requires s != "" && s[0] != '/'
    ensures |Clean(s)| <= |s|
  {
    var segments := Split(s, '/');
    var kept := Reduce(segments, [], false);
    SplitParts(s, '/');
    JoinRoom(segments, '/');
    ReduceRoom(segments, [], false);
    if kept != [] {
      JoinRoom(kept, '/');
    }
  }

  // ---- The normal form ------------------------------------------------------------------

  /** What an accepted path looks like. */
  predicate BundlePathForm(path: string) {
    && CleanRelative(path)
    && '\0' !in path && '\\' !in path
    && !HasUnsafePortablePathSegment(path)
    && !IsMetadata(path)
  }

  lemma SplitOfSlashed(path: string)
    requires '\\' !in path
    ensures Slashed(path) == path
  {
  }

  /** Accepted paths are clean, relative, portable and outside the metadata namespace. */
  lemma CleanBundlePathForm(raw: string)
    requires CleanBundlePath(raw).Ok?
    ensures BundlePathForm(CleanBundlePath(raw).value)
  {
    var trimmed := TrimSpace(raw);
    var path := Clean(trimmed);
    CleanAvoids(trimmed, '\0');
    CleanAvoids(trimmed, '\\');
    SplitOfSlashed(path);
    assert forall s :: s in Split(Slashed(path), '/') ==> !IsUnsafePortablePathSegment(s);
  }

  lemma FormIsSettled(path: string)
    requires BundlePathForm(path)
    ensures path != "" && path[0] != '/' && Clean(path) == path && ValidateClean(path) == None
  {
    CanonicalIsSettled(path);
    CleanKeepsCanonical(path);
    DotDotIsNotClean(path);
  }

  lemma DotDotIsNotClean(path: string)
    requires CleanRelative(path)
    ensures path != "." && path != ".." && !("../" <= path)
  {
    SplitWhole(".", '/');
    SplitWhole("..", '/');
    assert "." in Split(".", '/') && ".." in Split("..", '/');
    if "../" <= path {
      assert path == ".." + ['/'] + path[3..];
      SplitCons("..", path[3..], '/');
      assert ".." in Split(path, '/');
    }
  }

  lemma TrimSpaceShortens(s: string)
    ensures |TrimSpace(s)| <= |s| && (|TrimSpace(s)| == |s| ==> TrimSpace(s) == s)
  {
    TrimLeftMeaning(s);
    TrimRightMeaning(TrimLeft(s));
  }

  /** Cleaning again changes nothing exactly when the cleaned path has no outer white
      space: the trimming comes before the cleaning that can expose it. */
  lemma CleanAgainIffTrimmed(raw: string)
    requires CleanBundlePath(raw).Ok?
    ensures var path := CleanBundlePath(raw).value;
            CleanBundlePath(path) == Ok(path) <==> TrimSpace(path) == path
  {
    var path := CleanBundlePath(raw).value;
    CleanBundlePathForm(raw);
    FormIsSettled(path);
    var trimmed := TrimSpace(path);
    TrimSpaceShortens(path);
    if CleanBundlePath(path) == Ok(path) {
      CleanIsNoLonger(trimmed);
    }
  }

  /** A path in the form, without outer white space, is what it cleans to. */
  lemma FormIsFixed(path: string)
    requires BundlePathForm(path) && TrimSpace(path) == path
    ensures CleanBundlePath(path) == Ok(path) && CleanTarEntryPath(path) == Ok(path)
  {
    FormIsSettled(path);
    assert ".spack/" <= INDEX_PATH;
  }

  /** The metadata path is only ever an entry's path as itself; every other entry path has
      the normal form. */
  lemma TarEntryPathForm(name: string)
    requires CleanTarEntryPath(name).Ok?
    ensures var path := CleanTarEntryPath(name).value;
            path == INDEX_PATH || BundlePathForm(path)
    ensures CleanTarEntryPath(name).value == INDEX_PATH <==> Clean(name) == INDEX_PATH
  {
    if Clean(name) != INDEX_PATH {
      CleanBundlePathForm(Clean(name));
      assert ".spack/" <= INDEX_PATH;
    }
  }

  lemma IndexPathIsItself()
    ensures CleanTarEntryPath(INDEX_PATH) == Ok(INDEX_PATH) && !BundlePathForm(INDEX_PATH)
  {
    assert INDEX_PATH == ".spack" + ['/'] + "index.bin";
    assert ".spack/" <= INDEX_PATH;
    TwoSegments(".spack", "index.bin");
  }

  lemma TwoSegments(a: string, b: string)
    requires '/' !in a && '/' !in b && CanonicalSegment(a) && CanonicalSegment(b)
    ensures Clean(a + ['/'] + b) == a + ['/'] + b
  {
    SplitWhole(b, '/');
    SplitCons(a, b, '/');
    assert Split(a + ['/'] + b, '/') == [a, b];
    CleanKeepsCanonical(a + ['/'] + b);
  }

  /** The failing family is not empty: white space after a leading "./" survives. */
  lemma ExposedSpaceIsTrimmedAgain()
    ensures CleanBundlePath("./ a") == Ok(" a") && CleanBundlePath(" a") == Ok("a")
  {
    TrimmedIsFixed("./ a");
    TrimmedIsFixed("a");
    assert TrimSpace(" a") == "a" by {
      var s := " a";
      assert TrimLeft(s) == TrimLeft(s[1..]);
      assert s[1..] == "a";
    }
    CleanOfExposed();
    Portable(" a");
    Portable("a");
  }

  lemma CleanOfExposed()
    ensures Clean("./ a") == " a" && Clean("a") == "a"
  {
    SplitWhole("a", '/');
    SplitWhole(" a", '/');
    SplitCons(".", " a", '/');
    assert "./ a" == "." + ['/'] + " a";
    CleanKeepsCanonical("a");
    var segments := [".", " a"];
    assert [" a"] == segments[1..];
    assert Reduce(segments, [], false) == Reduce([" a"], [], false);
    assert Reduce([" a"], [], false) == Reduce([], [" a"], false) == [" a"];
  }

  lemma Portable(segment: string)
    requires segment in {"a", " a"}
    ensures ValidateClean(segment) == None && ValidateRaw(segment) == None
  {
    SplitWhole(segment, '/');
    SplitOfSlashed(segment);
    assert TrimDotsAndSpaces(segment) == segment;
    assert Cut(segment, '.').before == segment;
    ReservedNamesAreLong(ToUpper(segment));
  }

  lemma ReservedNamesAreLong(name: string)
    requires |name| < 3
    ensures !IsReservedName(name)
  {
  }
}
