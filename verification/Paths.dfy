/** Slash-separated paths as lists of segments, and Go's path.Clean over them. */
module Paths {
  import opened Basics

  predicate CanonicalSegment(segment: string) {
    segment != "" && segment != "." && segment != ".."
  }

  predicate Canonical(segments: seq<string>) {
    forall s :: s in segments ==> CanonicalSegment(s)
  }

  /** A relative path already in the form path.Clean gives it, with no "..". */
  predicate CleanRelative(v: string) {
    Canonical(Split(v, '/'))
  }

  /** How path.Clean takes one more segment; stack holds the segments kept so far. */
  function Push(stack: seq<string>, segment: string, rooted: bool): seq<string> {
    if segment == "" || segment == "." then stack
    else if segment == ".." then
      if stack != [] && stack[|stack| - 1] != ".." then stack[..|stack| - 1]
      else if rooted then stack
      else stack + [".."]
    else stack + [segment]
  }

  function Reduce(segments: seq<string>, stack: seq<string>, rooted: bool): seq<string> {
    if segments == [] then stack
    else Reduce(segments[1..], Push(stack, segments[0], rooted), rooted)
  }

  /** Go's path.Clean. */
  function Clean(s: string): string {
    var rooted := s != "" && s[0] == '/';
    var body := Join(Reduce(Split(s, '/'), [], rooted), '/');
    if rooted then "/" + body
    else if body == "" then "."
    else body
  }

  /** Go's path.Join of two elements. */
  function JoinPath(a: string, b: string): string {
    if a == "" then if b == "" then "" else Clean(b)
    else if b == "" then Clean(a)
    else Clean(a + "/" + b)
  }

  /** What an unrooted clean path is made of: leading ".." segments, then canonical ones. */
  predicate Settled(stack: seq<string>, rooted: bool) {
    && Free(stack, '/')
    && (forall i :: 0 <= i < |stack| ==> stack[i] != "" && stack[i] != ".")
    && (rooted ==> Canonical(stack))
    && (forall i, j :: 0 <= i < j < |stack| && stack[j] == ".." ==> stack[i] == "..")
  }

  lemma {:induction false} ReduceSettles(segments: seq<string>, stack: seq<string>, rooted: bool)
    requires Free(segments, '/') && Settled(stack, rooted)
    ensures Settled(Reduce(segments, stack, rooted), rooted)
    decreases |segments|
  {
    if segments != [] {
      ReduceSettles(segments[1..], Push(stack, segments[0], rooted), rooted);
    }
  }

  lemma {:induction false} ReduceKeeps(segments: seq<string>, stack: seq<string>, rooted: bool)
    requires Settled(stack + segments, rooted)
    ensures Reduce(segments, stack, rooted) == stack + segments
    decreases |segments|
  {
    if segments == [] {
      assert stack + segments == stack;
    } else {
      var whole := stack + segments;
      assert whole[|stack|] == segments[0];
      assert segments[0] in whole;
      assert segments[0] == ".." && stack != [] ==> whole[|stack| - 1] == "..";
      assert Push(stack, segments[0], rooted) == stack + [segments[0]];
      assert whole == (stack + [segments[0]]) + segments[1..];
      ReduceKeeps(segments[1..], stack + [segments[0]], rooted);
    }
  }

  lemma SplitSlashed(t: string)
    ensures Split("/" + t, '/') == [""] + Split(t, '/')
  {
    SplitCons("", t, '/');
    assert "" + ['/'] + t == "/" + t;
  }

  /** A rooted path cleans to "/" followed by nothing or by canonical segments. */
  lemma CleanRootedShape(t: string)
    ensures "/" <= Clean("/" + t)
    ensures Clean("/" + t) == "/" || CleanRelative(Clean("/" + t)[1..])
  {
    var segments := Split("/" + t, '/');
    var kept := Reduce(segments, [], true);
    SplitParts("/" + t, '/');
    ReduceSettles(segments, [], true);
    if kept != [] {
      SplitJoin(kept, '/');
    }
  }

  lemma CanonicalIsSettled(v: string)
    requires CleanRelative(v)
    ensures Settled(Split(v, '/'), true) && Settled(Split(v, '/'), false)
    ensures v != "" && v[0] != '/'
  {
    SplitParts(v, '/');
    var parts := Split(v, '/');
    assert parts[0] in parts;
    assert forall i :: 0 <= i < |parts| ==> parts[i] in parts;
  }

  /** Clean changes nothing on paths in canonical form, rooted or not. */
  lemma CleanKeepsCanonical(v: string)
    requires CleanRelative(v)
    ensures Clean("/" + v) == "/" + v
    ensures Clean(v) == v
  {
    CanonicalIsSettled(v);
    SplitParts(v, '/');
    var parts := Split(v, '/');
    ReduceKeeps(parts, [], true);
    ReduceKeeps(parts, [], false);
    assert [] + parts == parts;
    SplitSlashed(v);
    assert ([""] + parts)[1..] == parts;
    assert Reduce([""] + parts, [], true) == Reduce(parts, [], true);
  }

  // ---- Cleaning only takes away ------------------------------------------------

  /** The segments' length with a separator after each. */
  function Total(segments: seq<string>): nat {
    if segments == [] then 0 else |segments[0]| + 1 + Total(segments[1..])
  }

  lemma {:induction false} TotalAppend(segments: seq<string>, last: string)
    ensures Total(segments + [last]) == Total(segments) + |last| + 1
    decreases |segments|
  {
    if segments != [] {
      assert (segments + [last])[1..] == segments[1..] + [last];
      TotalAppend(segments[1..], last);
    } else {
      assert segments + [last] == [last];
      assert [last][1..] == [];
    }
  }

  lemma {:induction false} JoinLength(segments: seq<string>, c: char)
    requires segments != []
    ensures |Join(segments, c)| + 1 == Total(segments)
    decreases |segments|
  {
    if |segments| > 1 {
      JoinLength(segments[1..], c);
    } else {
      assert segments[1..] == [];
    }
  }

  lemma PushShrinks(stack: seq<string>, segment: string)
    ensures Total(Push(stack, segment, true)) <= Total(stack) + |segment| + 1
  {
    TotalAppend(stack, segment);
    if stack != [] {
      var n := |stack| - 1;
      TotalAppend(stack[..n], stack[n]);
      assert stack == stack[..n] + [stack[n]];
    }
  }

  lemma {:induction false} ReduceShrinks(segments: seq<string>, stack: seq<string>)
    ensures Total(Reduce(segments, stack, true)) <= Total(stack) + Total(segments)
    decreases |segments|
  {
    if segments != [] {
      PushShrinks(stack, segments[0]);
      ReduceShrinks(segments[1..], Push(stack, segments[0], true));
    }
  }

  lemma {:induction false} ReduceKeepsFree(segments: seq<string>, stack: seq<string>, c: char)
    requires Free(segments, c) && Free(stack, c)
    ensures Free(Reduce(segments, stack, true), c)
    decreases |segments|
  {
    if segments != [] {
      assert segments[0] in segments;
      ReduceKeepsFree(segments[1..], Push(stack, segments[0], true), c);
    }
  }

  lemma {:induction false} SplitKeepsFree(s: string, d: char, c: char)
    requires c !in s
    ensures Free(Split(s, d), c)
    decreases |s|
  {
    var cut := Cut(s, d);
    if cut.found {
      SplitKeepsFree(cut.after, d, c);
    }
  }

  lemma {:induction false} JoinKeepsFree(segments: seq<string>, d: char, c: char)
    requires Free(segments, c) && c != d
    ensures c !in Join(segments, d)
    decreases |segments|
  {
    if |segments| > 1 {
      JoinKeepsFree(segments[1..], d, c);
    }
  }

  /** Cleaning a rooted path makes it no longer and adds no character. */
  lemma CleanRootedShrinks(t: string, c: char)
    ensures |Clean("/" + t)| <= |t| + 1
    ensures c != '/' && c !in t ==> c !in Clean("/" + t)
  {
    var segments := Split(t, '/');
    var kept := Reduce(segments, [], true);
    SplitSlashed(t);
    assert ([""] + segments)[1..] == segments;
    assert Reduce([""] + segments, [], true) == kept;
    SplitParts(t, '/');
    JoinLength(segments, '/');
    ReduceShrinks(segments, []);
    if kept != [] {
      JoinLength(kept, '/');
    }
    if c != '/' && c !in t {
      SplitKeepsFree(t, '/', c);
      ReduceKeepsFree(segments, [], c);
      JoinKeepsFree(kept, '/', c);
    }
  }

  lemma RootAndDotAreClean()
    ensures Clean("/") == "/" && Clean(".") == "."
  {
    SplitSlashed("");
    SplitWhole("", '/');
    assert Split("/", '/') == ["", ""];
    assert Reduce(["", ""], [], true) == Reduce([""], [], true);
    SplitWhole(".", '/');
    assert Reduce(["."], [], false) == Reduce([], [], false);
  }

  /** Cleaning twice is cleaning once. */
  lemma CleanIdempotent(s: string)
    ensures Clean(Clean(s)) == Clean(s)
  {
    var rooted := s != "" && s[0] == '/';
    var segments := Split(s, '/');
    var kept := Reduce(segments, [], rooted);
    SplitParts(s, '/');
    ReduceSettles(segments, [], rooted);
    if rooted {
      assert s == "/" + s[1..];
      CleanRootedShape(s[1..]);
      if Clean(s) == "/" {
        RootAndDotAreClean();
      } else {
        CleanKeepsCanonical(Clean(s)[1..]);
        assert Clean(s) == "/" + Clean(s)[1..];
      }
    } else if kept == [] {
      RootAndDotAreClean();
    } else {
      SplitJoin(kept, '/');
      ReduceKeeps(kept, [], false);
      assert [] + kept == kept;
      SettledJoin(kept);
    }
  }

  lemma SettledJoin(kept: seq<string>)
    requires kept != [] && Settled(kept, false)
    ensures Join(kept, '/') != "" && Join(kept, '/')[0] != '/' 
  {
    assert kept[0] in kept;
    if |kept| > 1 {
      assert Join(kept, '/')[0] == kept[0][0];
    }
    assert kept[0][0] in kept[0];
  }

  lemma CleanUnrooted(s: string)
    requires s != "" && s[0] != '/'
    ensures Clean(s) != "" && Clean(s)[0] != '/'
  {
    var kept := Reduce(Split(s, '/'), [], false);
    SplitParts(s, '/');
    ReduceSettles(Split(s, '/'), [], false);
    if kept != [] {
      SettledJoin(kept);
    }
  }

  lemma SplitFirst(head: string, tail: string, b: string)
    requires '/' !in head
    ensures Split(head + ['/'] + tail + ['/'] + b, '/') == [head] + Split(tail + ['/'] + b, '/')
  {
    assert head + ['/'] + tail + ['/'] + b == head + ['/'] + (tail + ['/'] + b);
    SplitCons(head, tail + ['/'] + b, '/');
  }

  lemma PrependParts(p: string, rest: seq<string>, s: seq<string>)
    ensures [p] + (rest + s) == [p] + rest + s
  {
  }

  lemma {:induction false} JoinedSplit(parts: seq<string>, b: string)
    requires parts != [] && Free(parts, '/')
    ensures Split(Join(parts, '/') + ['/'] + b, '/') == parts + Split(b, '/')
    decreases |parts|
  {
    var p, rest := parts[0], parts[1..];
    if rest == [] {
      SplitCons(p, b, '/');
      assert parts == [p];
    } else {
      JoinedSplit(rest, b);
      SplitFirst(p, Join(rest, '/'), b);
      PrependParts(p, rest, Split(b, '/'));
      assert parts == [p] + rest;
    }
  }

  lemma SplitAppend(a: string, b: string)
    ensures Split(a + ['/'] + b, '/') == Split(a, '/') + Split(b, '/')
  {
    SplitParts(a, '/');
    JoinedSplit(Split(a, '/'), b);
  }

  /** Joining two clean relative paths only puts the slash between them. */
  lemma JoinCanonical(a: string, b: string)
    requires CleanRelative(a) && CleanRelative(b)
    ensures CleanRelative(a + "/" + b) && JoinPath(a, b) == a + "/" + b
  {
    SplitAppend(a, b);
    assert a + "/" + b == a + ['/'] + b;
    CanonicalIsSettled(a);
    CanonicalIsSettled(b);
    CleanKeepsCanonical(a + "/" + b);
  }

  // ---- The rules of path.Clean -----------------------------------------------------------

  lemma {:induction false} ReduceAppend(a: seq<string>, b: seq<string>, stack: seq<string>, rooted: bool)
    ensures Reduce(a + b, stack, rooted) == Reduce(b, Reduce(a, stack, rooted), rooted)
    decreases |a|
  {
    if a == [] {
      assert a + b == b;
    } else {
      assert (a + b)[1..] == a[1..] + b;
      ReduceAppend(a[1..], b, Push(stack, a[0], rooted), rooted);
    }
  }

  /** Empty and "." segments go, and a name goes with the ".." after it. */
  lemma SegmentRules(a: seq<string>, b: seq<string>, name: string, rooted: bool)
    ensures Reduce(a + [""] + b, [], rooted) == Reduce(a + b, [], rooted)
    ensures Reduce(a + ["."] + b, [], rooted) == Reduce(a + b, [], rooted)
    ensures CanonicalSegment(name) ==> Reduce(a + [name, ".."] + b, [], rooted) == Reduce(a + b, [], rooted)
    ensures Reduce([".."] + b, [], true) == Reduce(b, [], true)
  {
    var kept := Reduce(a, [], rooted);
    ReduceAppend(a, b, [], rooted);
    ReduceAppend(a + [""], b, [], rooted);
    ReduceAppend(a, [""], [], rooted);
    ReduceAppend(a + ["."], b, [], rooted);
    ReduceAppend(a, ["."], [], rooted);
    ReduceAppend(a + [name, ".."], b, [], rooted);
    ReduceAppend(a, [name, ".."], [], rooted);
    Reducing("", kept, rooted);
    Reducing(".", kept, rooted);
    if CanonicalSegment(name) {
      assert [name, ".."][1..] == [".."] && Reduce([name, ".."], kept, rooted) == Reduce([".."], kept + [name], rooted);
      Reducing("..", kept + [name], rooted);
      assert (kept + [name])[..|kept|] == kept;
    }
    ReduceAppend([".."], b, [], true);
    Reducing("..", [], true);
  }

  lemma Reducing(segment: string, stack: seq<string>, rooted: bool)
    ensures Reduce([segment], stack, rooted) == Push(stack, segment, rooted)
  {
    assert [segment][1..] == [];
  }

  predicate Rooted(s: string) {
    s != "" && s[0] == '/'
  }

  lemma SameSegmentsSameClean(s: string, t: string)
    requires Rooted(s) == Rooted(t) && Reduce(Split(s, '/'), [], Rooted(s)) == Reduce(Split(t, '/'), [], Rooted(s))
    ensures Clean(s) == Clean(t)
  {
  }

  /** a and b, with some segments between them. */
  function Between(a: string, middle: string, b: string): string {
    a + ['/'] + (middle + ['/'] + b)
  }

  lemma BetweenSegments(a: string, middle: string, b: string)
    requires '/' !in middle
    ensures Split(Between(a, middle, b), '/') == Split(a, '/') + [middle] + Split(b, '/')
    ensures Split(a + ['/'] + b, '/') == Split(a, '/') + Split(b, '/')
    ensures Rooted(Between(a, middle, b)) == Rooted(a + ['/'] + b) == (a == "" || a[0] == '/')
  {
    var tail := middle + ['/'] + b;
    var first, last := Split(a, '/'), Split(b, '/');
    SplitAppend(a, tail);
    SplitAppend(a, b);
    SplitCons(middle, b, '/');
    Associate(first, [middle], last);
    RootedAppend(a, tail);
    RootedAppend(a, b);
  }

  lemma Associate(a: seq<string>, b: seq<string>, c: seq<string>)
    ensures a + (b + c) == a + b + c
  {
  }

  lemma RootedAppend(a: string, b: string)
    ensures Rooted(a + ['/'] + b) == (a == "" || a[0] == '/')
  {
  }

  /** path.Clean: slashes are not repeated, and "." goes. */
  lemma CleanDropsEmptyAndDot(a: string, b: string)
    ensures Clean(Between(a, "", b)) == Clean(a + ['/'] + b)
    ensures Clean(Between(a, ".", b)) == Clean(a + ['/'] + b)
  {
    BetweenSegments(a, "", b);
    BetweenSegments(a, ".", b);
    SegmentRules(Split(a, '/'), Split(b, '/'), "", a == "" || a[0] == '/');
    SameSegmentsSameClean(Between(a, "", b), a + ['/'] + b);
    SameSegmentsSameClean(Between(a, ".", b), a + ['/'] + b);
  }

  lemma TakenBackSegments(a: string, name: string, b: string)
    requires '/' !in name
    ensures Split(Between(a, name, ".." + ['/'] + b), '/') == Split(a, '/') + [name, ".."] + Split(b, '/')
  {
    var first, last := Split(a, '/'), Split(b, '/');
    BetweenSegments(a, name, ".." + ['/'] + b);
    SplitCons("..", b, '/');
    Associate(first + [name], [".."], last);
    Associate(first, [name], [".."]);
    assert [name] + [".."] == [name, ".."];
  }

  /** path.Clean: ".." takes the name before it with it. */
  lemma CleanTakesBack(a: string, name: string, b: string)
    requires CanonicalSegment(name) && '/' !in name
    ensures Clean(Between(a, name, ".." + ['/'] + b)) == Clean(a + ['/'] + b)
  {
    TakenBackSegments(a, name, b);
    SplitAppend(a, b);
    RootedAppend(a, name + ['/'] + (".." + ['/'] + b));
    RootedAppend(a, b);
    SegmentRules(Split(a, '/'), Split(b, '/'), name, a == "" || a[0] == '/');
    SameSegmentsSameClean(Between(a, name, ".." + ['/'] + b), a + ['/'] + b);
  }

  /** path.Clean: at the root ".." has nothing to take. */
  lemma CleanStaysBelowRoot(b: string)
    ensures Clean("/" + (".." + ['/'] + b)) == Clean("/" + b)
  {
    SplitSlashed(".." + ['/'] + b);
    SplitSlashed(b);
    SplitCons("..", b, '/');
    SegmentRules([], [".."] + Split(b, '/'), "", true);
    SegmentRules([], Split(b, '/'), "", true);
    assert [] + [""] + ([".."] + Split(b, '/')) == [""] + ([".."] + Split(b, '/')) && [] + ([".."] + Split(b, '/')) == [".."] + Split(b, '/');
    assert [] + [""] + Split(b, '/') == [""] + Split(b, '/') && [] + Split(b, '/') == Split(b, '/');
    SameSegmentsSameClean("/" + (".." + ['/'] + b), "/" + b);
  }

  lemma {:induction false} ReduceKeepsEscape(segments: seq<string>, stack: seq<string>)
    requires stack != [] && stack[0] == ".."
    ensures Reduce(segments, stack, false) != [] && Reduce(segments, stack, false)[0] == ".."
    decreases |segments|
  {
    if segments != [] {
      ReduceKeepsEscape(segments[1..], Push(stack, segments[0], false));
    }
  }

  /** path.Clean: a relative path that leaves its root still does. */
  lemma CleanKeepsEscape(b: string)
    ensures Clean(".." + ['/'] + b) == ".." || "../" <= Clean(".." + ['/'] + b)
  {
    SplitCons("..", b, '/');
    var segments := Split(".." + ['/'] + b, '/');
    assert segments[1..] == Split(b, '/');
    ReduceKeepsEscape(segments[1..], [".."]);
    var kept := Reduce(segments, [], false);
    assert segments[0] == ".." && Push([], "..", false) == [".."] by {
      assert [] + [".."] == [".."];
    }
    assert kept == Reduce(segments[1..], [".."], false);
    if |kept| > 1 {
      assert Join(kept, '/') == ".." + ['/'] + Join(kept[1..], '/');
    }
  }
}
