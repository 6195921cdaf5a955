/** Which source files are sidecars (internal/sourcecatalog/sidecar.go, scanner.go): the
    longest matching suffix, found as the longest prefix in a trie of reversed suffixes. */
module SidecarMatching {
  import opened Basics
  import opened Paths

  datatype Matcher = Matcher(encoding: string, suffix: string)

  datatype Match = Match(assetPath: string, encoding: string, suffix: string)

  function Reverse(s: string): (r: string)
    ensures |r| == |s|
  {
    if s == "" then "" else Reverse(s[1..]) + [s[0]]
  }

  /** The in-place swap of reverseString. */
  method ReverseString(value: string) returns (reversed: string)
    ensures reversed == Reverse(value)
  {
    var runes := new char[|value|](i requires 0 <= i < |value| => value[i]);
    assert runes[..] == value;
    var left, right := 0, |value| - 1;
    while left < right
      invariant 0 <= left <= right + 1 <= |value| && left + right == |value| - 1
      invariant forall k :: 0 <= k < left ==> runes[k] == value[|value| - 1 - k] && runes[|value| - 1 - k] == value[k]
      invariant forall k :: left <= k <= right ==> runes[k] == value[k]
    {
      runes[left], runes[right] := runes[right], runes[left];
      left, right := left + 1, right - 1;
    }
    reversed := runes[..];
    forall k | 0 <= k < |value| ensures reversed[k] == Reverse(value)[k] {
      ReverseAt(value, k);
    }
  }

  lemma {:induction false} ReverseAt(s: string, k: nat)
    requires k < |s|
    ensures Reverse(s)[k] == s[|s| - 1 - k]
  {
    if k < |s| - 1 {
      ReverseAt(s[1..], k);
    }
  }

  /** Reversed suffixes are prefixes of the reversed path. */
  lemma ReversedSuffix(path: string, suffix: string)
    ensures HasSuffix(path, suffix) <==> Reverse(suffix) <= Reverse(path)
  {
    forall k | 0 <= k < |path| ensures Reverse(path)[k] == path[|path| - 1 - k] {
      ReverseAt(path, k);
    }
    forall k | 0 <= k < |suffix| ensures Reverse(suffix)[k] == suffix[|suffix| - 1 - k] {
      ReverseAt(suffix, k);
    }
    if |suffix| <= |path| {
      var tail := path[|path| - |suffix|..];
      if HasSuffix(path, suffix) {
        assert forall k :: 0 <= k < |suffix| ==> Reverse(suffix)[k] == Reverse(path)[k];
      }
      if Reverse(suffix) <= Reverse(path) {
        forall k | 0 <= k < |suffix| ensures tail[k] == suffix[k] {
          assert Reverse(suffix)[|suffix| - 1 - k] == Reverse(path)[|suffix| - 1 - k];
        }
        assert tail == suffix;
      }
    }
  }

  // ---- The trie ----------------------------------------------------------------------------

  /** buildSidecarMatcherTrie: empty suffixes are left out, later matchers win. */
  function MatcherTrie(matchers: seq<Matcher>): map<string, Matcher> {
    if matchers == [] then map[]
    else
      var trie, last := MatcherTrie(matchers[..|matchers| - 1]), matchers[|matchers| - 1];
      if last.suffix != "" then trie[Reverse(last.suffix) := last] else trie
  }

  /** The longest prefix of key[..n] that the trie holds. */
  function LongestPrefix(trie: map<string, Matcher>, key: string, n: nat): Option<Matcher>
    requires n <= |key|
  {
    if key[..n] in trie then Some(trie[key[..n]])
    else if n == 0 then None
    else LongestPrefix(trie, key, n - 1)
  }

  function MatchSuffix(path: string, trie: map<string, Matcher>): Option<Matcher> {
    LongestPrefix(trie, Reverse(path), |path|)
  }

  lemma {:induction false} TrieHolds(matchers: seq<Matcher>, key: string)
    ensures key in MatcherTrie(matchers) <==> exists i :: 0 <= i < |matchers| && matchers[i].suffix != "" && Reverse(matchers[i].suffix) == key
    ensures key in MatcherTrie(matchers) ==>
              MatcherTrie(matchers)[key] in matchers && MatcherTrie(matchers)[key].suffix != "" && Reverse(MatcherTrie(matchers)[key].suffix) == key
  {
    if matchers != [] {
      var n := |matchers| - 1;
      TrieHolds(matchers[..n], key);
      assert forall i :: 0 <= i < n ==> matchers[..n][i] == matchers[i];
    }
  }

  lemma {:induction false} LongestPrefixMeaning(trie: map<string, Matcher>, key: string, n: nat)
    requires n <= |key|
    ensures match LongestPrefix(trie, key, n)
            case Some(m) => exists k :: 0 <= k <= n && key[..k] in trie && trie[key[..k]] == m && forall j :: k < j <= n ==> key[..j] !in trie
            case None => forall j :: 0 <= j <= n ==> key[..j] !in trie
  {
    if key[..n] !in trie && n > 0 {
      LongestPrefixMeaning(trie, key, n - 1);
    }
  }

  /** The trie finds the longest matching suffix, and finds one whenever there is one. */
  lemma MatchSuffixIsLongest(path: string, matchers: seq<Matcher>)
    ensures match MatchSuffix(path, MatcherTrie(matchers))
            case Some(m) =>
              && m in matchers && m.suffix != "" && HasSuffix(path, m.suffix)
              && (forall other :: other in matchers && other.suffix != "" && HasSuffix(path, other.suffix) ==> |other.suffix| <= |m.suffix|)
            case None => forall other :: other in matchers && other.suffix != "" ==> !HasSuffix(path, other.suffix)
  {
    var trie, key := MatcherTrie(matchers), Reverse(path);
    LongestPrefixMeaning(trie, key, |path|);
    forall other | other in matchers && other.suffix != "" && HasSuffix(path, other.suffix)
      ensures |other.suffix| <= |path| && key[..|other.suffix|] in trie
    {
      ReversedSuffix(path, other.suffix);
      assert key[..|other.suffix|] == Reverse(other.suffix);
      var i :| 0 <= i < |matchers| && matchers[i] == other;
      TrieHolds(matchers, Reverse(other.suffix));
    }
    var found := MatchSuffix(path, trie);
    if found.Some? {
      var k :| 0 <= k <= |path| && key[..k] in trie && trie[key[..k]] == found.value && forall j :: k < j <= |path| ==> key[..j] !in trie;
      TrieHolds(matchers, key[..k]);
      ReversedSuffix(path, found.value.suffix);
    }
  }

  // ---- Sidecar paths ------------------------------------------------------------------------

  /** normalizeSourcePath. */
  function NormalizeSourcePath(path: string): string {
    var trimmed := TrimSpace(path);
    if trimmed == "" then "" else TrimPrefix(Clean(trimmed), "/")
  }

  /** MatchSidecarPath. */
  function MatchSidecarPath(path: string, matchers: seq<Matcher>): Option<Match> {
    var normalized := NormalizeSourcePath(path);
    if normalized == "" then None
    else
      var found := MatchSuffix(normalized, MatcherTrie(matchers));
      if found == None then None
      else
        var assetPath := TrimSuffix(normalized, found.value.suffix);
        if assetPath == "" || assetPath == normalized then None
        else Some(Match(assetPath, found.value.encoding, found.value.suffix))
  }

  /** Matchers that cannot be confused: distinct encodings, and no suffix that ends with
      another one. */
  predicate Unambiguous(matchers: seq<Matcher>) {
    && (forall m :: m in matchers ==> m.suffix != "")
    && (forall m, n :: m in matchers && n in matchers && m.encoding == n.encoding ==> m == n)
    && (forall m, n :: m in matchers && n in matchers && HasSuffix(m.suffix, n.suffix) ==> m == n)
  }

  lemma SuffixesNest(path: string, a: string, b: string)
    requires HasSuffix(path, a) && HasSuffix(path, b) && |b| <= |a|
    ensures HasSuffix(a, b)
  {
    assert a == path[|path| - |a|..] && b == path[|path| - |b|..];
    assert a[|a| - |b|..] == b;
  }

  /** A recognised path is its asset's path and the matcher's suffix. */
  lemma MatchIsSplit(path: string, matchers: seq<Matcher>)
    requires NormalizeSourcePath(path) == path && MatchSidecarPath(path, matchers).Some?
    ensures var m := MatchSidecarPath(path, matchers).value;
            m.assetPath != "" && path == m.assetPath + m.suffix && Matcher(m.encoding, m.suffix) in matchers
  {
    MatchSuffixIsLongest(path, matchers);
  }

  /** An asset's path with a matcher's suffix is recognised as that asset's sidecar. */
  lemma SuffixedIsMatched(assetPath: string, m: Matcher, matchers: seq<Matcher>)
    requires Unambiguous(matchers) && m in matchers && assetPath != ""
    requires NormalizeSourcePath(assetPath + m.suffix) == assetPath + m.suffix
    ensures MatchSidecarPath(assetPath + m.suffix, matchers) == Some(Match(assetPath, m.encoding, m.suffix))
  {
    var path := assetPath + m.suffix;
    OnlyMatch(path, m, matchers);
    assert TrimSuffix(path, m.suffix) == assetPath;
  }

  lemma OnlyMatch(path: string, m: Matcher, matchers: seq<Matcher>)
    requires Unambiguous(matchers) && m in matchers && HasSuffix(path, m.suffix)
    ensures MatchSuffix(path, MatcherTrie(matchers)) == Some(m)
  {
    MatchSuffixIsLongest(path, matchers);
    var found := MatchSuffix(path, MatcherTrie(matchers)).value;
    SuffixesNest(path, found.suffix, m.suffix);
  }
}
