/** Option and Result, and the ASCII string operations the Go sources use.

    Strings are sequences of characters compared by code point, as Go compares
    bytes. White space and letter case are the ASCII ones. */
module Basics {

  datatype Option<+T> = None | Some(value: T)

  datatype Result<+T, +E> = Ok(value: T) | Err(error: E)

  // ---- White space and letter case --------------------------------------

  predicate IsSpace(c: char) {
    c == ' ' || ('\t' <= c <= '\r')
  }

  function TrimLeft(s: string): string {
    if s == [] || !IsSpace(s[0]) then s else TrimLeft(s[1..])
  }

  function TrimRight(s: string): string {
    if s == [] || !IsSpace(s[|s| - 1]) then s else TrimRight(s[..|s| - 1])
  }

  lemma {:induction false} TrimLeftMeaning(s: string)
    ensures var r := TrimLeft(s);
            && |r| <= |s| && r == s[|s| - |r|..]
            && (r != [] ==> !IsSpace(r[0]))
            && (forall i :: 0 <= i < |s| - |r| ==> IsSpace(s[i]))
  {
    if s != [] && IsSpace(s[0]) {
      var rest := s[1..];
      TrimLeftMeaning(rest);
      assert forall i :: 0 <= i < |rest| ==> s[i + 1] == rest[i];
      assert s[|s| - |TrimLeft(rest)|..] == rest[|rest| - |TrimLeft(rest)|..];
    }
  }

  lemma {:induction false} TrimRightMeaning(s: string)
    ensures var r := TrimRight(s);
            && r <= s
            && (r != [] ==> !IsSpace(r[|r| - 1]))
            && (forall i :: |r| <= i < |s| ==> IsSpace(s[i]))
  {
    if s != [] && IsSpace(s[|s| - 1]) {
      TrimRightMeaning(s[..|s| - 1]);
    }
  }

  function TrimSpace(s: string): string {
    TrimRight(TrimLeft(s))
  }

  predicate Trimmed(s: string) {
    s != [] ==> !IsSpace(s[0]) && !IsSpace(s[|s| - 1])
  }

  lemma TrimSpaceIsTrimmed(s: string)
    ensures Trimmed(TrimSpace(s))
  {
    var l := TrimLeft(s);
    var r := TrimRight(l);
    TrimLeftMeaning(s);
    TrimRightMeaning(l);
    if r != [] {
      assert r[0] == l[0];
    }
  }

  lemma TrimmedIsFixed(s: string)
    requires Trimmed(s)
    ensures TrimSpace(s) == s
  {
    assert TrimLeft(s) == s;
  }

  predicate IsBlank(s: string) {
    TrimSpace(s) == []
  }

  function LowerChar(c: char): char {
    if 'A' <= c <= 'Z' then c - 'A' + 'a' else c
  }

  function UpperChar(c: char): char {
    if 'a' <= c <= 'z' then c - 'a' + 'A' else c
  }

  function ToLower(s: string): (r: string)
    ensures |r| == |s|
  {
    seq(|s|, i requires 0 <= i < |s| => LowerChar(s[i]))
  }

  function TrimLower(s: string): string {
    ToLower(TrimSpace(s))
  }

  function ToUpper(s: string): (r: string)
    ensures |r| == |s|
  {
    seq(|s|, i requires 0 <= i < |s| => UpperChar(s[i]))
  }

  // ---- Prefixes, suffixes and membership --------------------------------

  predicate HasSuffix(s: string, suffix: string) {
    |suffix| <= |s| && s[|s| - |suffix|..] == suffix
  }

  function TrimSuffix(s: string, suffix: string): string {
    if HasSuffix(s, suffix) then s[..|s| - |suffix|] else s
  }

  function TrimPrefix(s: string, prefix: string): string {
    if prefix <= s then s[|prefix|..] else s
  }

  predicate Contains(s: string, sub: string) {
    sub <= s || (s != [] && Contains(s[1..], sub))
  }

  // ---- Splitting and joining --------------------------------------------

  /** The position of the first c in s, or |s|. */
  function IndexOf(s: string, c: char): (i: nat)
    ensures i <= |s|
    ensures forall k :: 0 <= k < i ==> s[k] != c
    ensures i < |s| ==> s[i] == c
  {
    if s == [] then 0
    else if s[0] == c then 0
    else 1 + IndexOf(s[1..], c)
  }

  /** What Go's strings.Cut returns for a one-character separator. */
  datatype Parts = Parts(before: string, after: string, found: bool)

  function Cut(s: string, c: char): Parts {
    var i := IndexOf(s, c);
    if i < |s| then Parts(s[..i], s[i + 1..], true) else Parts(s, "", false)
  }

  /** strings.Split with a one-character separator: never empty. */
  function Split(s: string, c: char): (parts: seq<string>)
    ensures |parts| >= 1
    decreases |s|
  {
    var cut := Cut(s, c);
    if cut.found then [cut.before] + Split(cut.after, c) else [s]
  }

  function Join(parts: seq<string>, c: char): string {
    if parts == [] then ""
    else if |parts| == 1 then parts[0]
    else parts[0] + [c] + Join(parts[1..], c)
  }

  predicate Free(parts: seq<string>, c: char) {
    forall p :: p in parts ==> c !in p
  }

  lemma JoinCons(p: string, rest: seq<string>, c: char)
    requires rest != []
    ensures Join([p] + rest, c) == p + [c] + Join(rest, c)
  {
    assert ([p] + rest)[1..] == rest;
  }

  lemma SplitParts(s: string, c: char)
    ensures Free(Split(s, c), c)
    ensures Join(Split(s, c), c) == s
  {
    SplitIsFree(s, c);
    JoinSplit(s, c);
  }

  lemma {:induction false} SplitIsFree(s: string, c: char)
    ensures Free(Split(s, c), c)
    decreases |s|
  {
    var cut := Cut(s, c);
    if cut.found {
      SplitIsFree(cut.after, c);
    }
  }

  lemma {:induction false} JoinSplit(s: string, c: char)
    ensures Join(Split(s, c), c) == s
    decreases |s|
  {
    var cut := Cut(s, c);
    if cut.found {
      JoinSplit(cut.after, c);
      JoinCons(cut.before, Split(cut.after, c), c);
      assert s == cut.before + [c] + cut.after;
    }
  }

  lemma IndexOfFirst(p: string, rest: string, c: char)
    requires c !in p
    ensures IndexOf(p + [c] + rest, c) == |p|
  {
    var s := p + [c] + rest;
    var i := IndexOf(s, c);
    assert s[|p|] == c;
    assert forall k :: 0 <= k < |p| ==> s[k] == p[k];
  }

  lemma SplitCons(p: string, rest: string, c: char)
    requires c !in p
    ensures Split(p + [c] + rest, c) == [p] + Split(rest, c)
  {
    IndexOfFirst(p, rest, c);
    var s := p + [c] + rest;
    assert s[..|p|] == p && s[|p| + 1..] == rest;
  }

  lemma SplitWhole(p: string, c: char)
    requires c !in p
    ensures Split(p, c) == [p]
  {
    var i := IndexOf(p, c);
  }

  lemma {:induction false} SplitJoin(parts: seq<string>, c: char)
    requires parts != [] && Free(parts, c)
    ensures Split(Join(parts, c), c) == parts
    decreases |parts|
  {
    if |parts| == 1 {
      SplitWhole(parts[0], c);
    } else {
      SplitJoin(parts[1..], c);
      SplitCons(parts[0], Join(parts[1..], c), c);
    }
  }

  lemma {:induction false} JoinAppend(a: seq<string>, b: seq<string>, c: char)
    requires a != [] && b != []
    ensures Join(a + b, c) == Join(a, c) + [c] + Join(b, c)
    decreases |a|
  {
    assert (a + b)[0] == a[0];
    if |a| == 1 {
      assert (a + b)[1..] == b;
    } else {
      JoinAppend(a[1..], b, c);
      assert (a + b)[1..] == a[1..] + b;
    }
  }

  // ---- Order -------------------------------------------------------------

  /** Go's string order. */
  predicate StringLeq(a: string, b: string) {
    a == [] || (b != [] && (a[0] < b[0] || (a[0] == b[0] && StringLeq(a[1..], b[1..]))))
  }

  lemma {:induction false} StringLeqTotal(a: string, b: string)
    ensures StringLeq(a, b) || StringLeq(b, a)
    ensures StringLeq(a, b) && StringLeq(b, a) ==> a == b
  {
    if a != [] && b != [] && a[0] == b[0] {
      StringLeqTotal(a[1..], b[1..]);
      assert a == [a[0]] + a[1..] && b == [b[0]] + b[1..];
    }
  }

  lemma {:induction false} StringLeqTransitive(a: string, b: string, c: string)
    requires StringLeq(a, b) && StringLeq(b, c)
    ensures StringLeq(a, c)
  {
    if a != [] && a[0] == b[0] && b[0] == c[0] {
      StringLeqTransitive(a[1..], b[1..], c[1..]);
    }
  }

  // ---- What the definitions mean -----------------------------------------------------------

  /** White space is the space, and what lies from the tabulator to the carriage return. */
  lemma WhiteSpaceIff(c: char)
    ensures IsSpace(c) <==> c in {' ', '\t', '\n', 11 as char, 12 as char, '\r'}
  {
  }

  /** a is the beginning of b, or smaller at the first place where they differ. */
  predicate LexicographicallyUpTo(a: string, b: string) {
    exists i :: 0 <= i <= |a| && i <= |b| && a[..i] == b[..i] && (i == |a| || (i < |b| && a[i] < b[i]))
  }

  lemma {:induction false} StringLeqIff(a: string, b: string)
    ensures StringLeq(a, b) <==> LexicographicallyUpTo(a, b)
    decreases |a|
  {
    if a == [] {
      assert a[..0] == b[..0];
    } else if b != [] && a[0] == b[0] {
      StringLeqIff(a[1..], b[1..]);
      if LexicographicallyUpTo(a[1..], b[1..]) {
        var i :| 0 <= i <= |a[1..]| && i <= |b[1..]| && a[1..][..i] == b[1..][..i] && (i == |a[1..]| || (i < |b[1..]| && a[1..][i] < b[1..][i]));
        assert a[..i + 1] == [a[0]] + a[1..][..i] && b[..i + 1] == [b[0]] + b[1..][..i];
      }
      if LexicographicallyUpTo(a, b) {
        var i :| 0 <= i <= |a| && i <= |b| && a[..i] == b[..i] && (i == |a| || (i < |b| && a[i] < b[i]));
        assert i > 0;
        assert a[1..][..i - 1] == a[..i][1..] && b[1..][..i - 1] == b[..i][1..];
      }
    } else if b != [] {
      if a[0] < b[0] {
        assert a[..0] == b[..0];
      }
      if LexicographicallyUpTo(a, b) {
        var i :| 0 <= i <= |a| && i <= |b| && a[..i] == b[..i] && (i == |a| || (i < |b| && a[i] < b[i]));
        FirstOfPrefix(a, b, i);
      }
    }
  }

  lemma FirstOfPrefix(a: string, b: string, i: nat)
    requires i <= |a| && i <= |b| && a[..i] == b[..i]
    ensures i > 0 ==> a[0] == b[0]
  {
    assert i > 0 ==> a[..i][0] == b[..i][0];
  }

  /** The word stands somewhere in the string. */
  lemma {:induction false} ContainsIff(s: string, word: string)
    ensures Contains(s, word) <==> exists i :: 0 <= i <= |s| && word <= s[i..]
    decreases |s|
  {
    assert s[0..] == s;
    if s != [] {
      ContainsIff(s[1..], word);
      assert forall i :: 1 <= i <= |s| ==> s[i..] == s[1..][i - 1..];
      if Contains(s[1..], word) {
        var i :| 0 <= i <= |s[1..]| && word <= s[1..][i..];
        assert s[i + 1..] == s[1..][i..];
      }
      if exists i :: 1 <= i <= |s| && word <= s[i..] {
        var i :| 1 <= i <= |s| && word <= s[i..];
        assert s[1..][i - 1..] == s[i..];
      }
    }
  }
}
