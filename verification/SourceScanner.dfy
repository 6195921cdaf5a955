/** The scanner the source catalog builds (internal/sourcecatalog/scanner.go) has all that the
    proofs about rescans ask of one. */
module SourceScanner {
  import opened Basics
  import opened Paths
  import opened SidecarMatching
  import opened SourceSync

  function NewScanner(matchers: seq<Matcher>, outside: Outside, tree: Tree): Scanner {
    Scanner(
      matchers,
      (path: string) => MatchSuffix(path, MatcherTrie(matchers)),
      (path: string) => MatchSidecarPath(path, matchers),
      NormalizeSourcePath,
      outside,
      tree)
  }

  /** A suffix that stays within a path's last segment: no slash, no white space at its end,
      not only dots. */
  predicate PlainSuffix(suffix: string) {
    && suffix != "" && '/' !in suffix && !IsSpace(suffix[|suffix| - 1])
    && exists c :: c in suffix && c != '.'
  }

  function WithSuffix(parts: seq<string>, suffix: string): seq<string>
    requires parts != []
  {
    parts[..|parts| - 1] + [parts[|parts| - 1] + suffix]
  }

  lemma {:induction false} JoinWithSuffix(parts: seq<string>, suffix: string)
    requires parts != []
    ensures Join(WithSuffix(parts, suffix), '/') == Join(parts, '/') + suffix
  {
    if |parts| > 1 {
      var rest := parts[1..];
      JoinWithSuffix(rest, suffix);
      assert WithSuffix(parts, suffix)[1..] == WithSuffix(rest, suffix);
    }
  }

  lemma SplitWithSuffix(p: string, suffix: string)
    requires '/' !in suffix
    ensures Split(p + suffix, '/') == WithSuffix(Split(p, '/'), suffix)
  {
    var parts := Split(p, '/');
    SplitParts(p, '/');
    JoinWithSuffix(parts, suffix);
    assert parts[|parts| - 1] in parts;
    SplitJoin(WithSuffix(parts, suffix), '/');
  }

  lemma NotDots(last: string, suffix: string)
    requires PlainSuffix(suffix)
    ensures CanonicalSegment(last + suffix)
  {
    var c :| c in suffix && c != '.';
    assert c in last + suffix;
  }

  lemma ExtendedIsSettled(parts: seq<string>, suffix: string)
    requires parts != [] && Settled(parts, false) && PlainSuffix(suffix)
    ensures Settled(WithSuffix(parts, suffix), false)
  {
    var n := |parts| - 1;
    var longer := WithSuffix(parts, suffix);
    NotDots(parts[n], suffix);
    assert parts[n] in parts;
    assert forall i :: 0 <= i < n ==> longer[i] == parts[i] && parts[i] in parts;
  }

  /** A clean relative path stays clean when a plain suffix is put at its end. */
  lemma CleanWithSuffix(p: string, suffix: string)
    requires p != "" && p[0] != '/' && Clean(p) == p && PlainSuffix(suffix)
    ensures Clean(p + suffix) == p + suffix
  {
    var parts := Split(p, '/');
    var kept := Reduce(parts, [], false);
    SplitParts(p, '/');
    ReduceSettles(parts, [], false);
    SplitWithSuffix(p, suffix);
    if kept == [] {
      SplitWhole(".", '/');
      NotDots(".", suffix);
      SettledIsClean(p + suffix, ["." + suffix]);
    } else {
      SplitJoin(kept, '/');
      ExtendedIsSettled(kept, suffix);
      SettledIsClean(p + suffix, WithSuffix(kept, suffix));
    }
  }

  lemma SettledIsClean(p: string, parts: seq<string>)
    requires p != "" && p[0] != '/' && Split(p, '/') == parts && Settled(parts, false)
    ensures Clean(p) == p
  {
    ReduceKeeps(parts, [], false);
    assert [] + parts == parts;
    SplitParts(p, '/');
  }

  lemma NormalIsClean(p: string)
    requires p != "" && NormalizeSourcePath(p) == p && Basics.Trimmed(p)
    ensures p[0] != '/' && Clean(p) == p
  {
    TrimmedIsFixed(p);
    if p[0] == '/' {
      assert p == "/" + p[1..];
      CleanRootedShape(p[1..]);
      if Clean(p) != "/" {
        CanonicalIsSettled(Clean(p)[1..]);
      }
    } else {
      CleanUnrooted(p);
    }
  }

  lemma SuffixKeepsNormal(p: string, suffix: string)
    requires p != "" && NormalizeSourcePath(p) == p && Basics.Trimmed(p) && PlainSuffix(suffix)
    ensures NormalizeSourcePath(p + suffix) == p + suffix
  {
    NormalIsClean(p);
    CleanWithSuffix(p, suffix);
    assert (p + suffix)[0] == p[0] && (p + suffix)[|p + suffix| - 1] == suffix[|suffix| - 1];
    TrimmedIsFixed(p + suffix);
  }

  lemma SplitsFollow(q: string, matchers: seq<Matcher>)
    requires q != "" && NormalizeSourcePath(q) == q
    ensures MatchSidecarPath(q, matchers) == SplitAt(q, MatchSuffix(q, MatcherTrie(matchers)))
  {
  }

  /** With unambiguous plain suffixes, full paths that are one to one and metadata stamps
      that keep the stage, the scanner is sound. */
  lemma NewScannerIsSound(matchers: seq<Matcher>, outside: Outside, tree: Tree)
    requires Unambiguous(matchers) && forall m :: m in matchers ==> PlainSuffix(m.suffix)
    requires DistinctFullPaths(outside) && StampsKeepStage(outside)
    ensures SoundScanner(NewScanner(matchers, outside, tree))
  {
    var sc := NewScanner(matchers, outside, tree);
    forall q | sc.sidecarOf(q).Some? && sc.normal(q) == q
      ensures var m := sc.sidecarOf(q).value; m.assetPath != "" && q == m.assetPath + m.suffix && Matcher(m.encoding, m.suffix) in matchers
    {
      MatchIsSplit(q, matchers);
    }
    forall q | q != "" && sc.normal(q) == q ensures sc.sidecarOf(q) == SplitAt(q, sc.suffixOf(q)) {
      SplitsFollow(q, matchers);
    }
    forall p, m | m in matchers && p != "" && sc.normal(p + m.suffix) == p + m.suffix
      ensures sc.sidecarOf(p + m.suffix) == Some(Match(p, m.encoding, m.suffix))
    {
      SuffixedIsMatched(p, m, matchers);
    }
    forall p, m | PlainPath(sc, p) && m in matchers ensures sc.normal(p + m.suffix) == p + m.suffix {
      SuffixKeepsNormal(p, m.suffix);
    }
  }

  /** The built-in codings' suffixes (internal/contentcoding). */
  const DEFAULT_MATCHERS: seq<Matcher> := [Matcher("zstd", ".zst"), Matcher("br", ".br"), Matcher("gzip", ".gz")]

  lemma DefaultMatchersArePlain()
    ensures Unambiguous(DEFAULT_MATCHERS)
    ensures forall m :: m in DEFAULT_MATCHERS ==> PlainSuffix(m.suffix)
  {
    forall m | m in DEFAULT_MATCHERS ensures PlainSuffix(m.suffix) {
      DefaultSuffixIsPlain(m.suffix);
    }
    forall m, n | m in DEFAULT_MATCHERS && n in DEFAULT_MATCHERS && (m.encoding == n.encoding || m.suffix[|m.suffix| - 1] == n.suffix[|n.suffix| - 1])
      ensures m == n
    {
      DefaultsEndApart(m, n);
    }
    ApartIsUnambiguous(DEFAULT_MATCHERS);
  }

  lemma ApartIsUnambiguous(matchers: seq<Matcher>)
    requires forall m :: m in matchers ==> m.suffix != ""
    requires forall m, n :: m in matchers && n in matchers && (m.encoding == n.encoding || m.suffix[|m.suffix| - 1] == n.suffix[|n.suffix| - 1]) ==> m == n
    ensures Unambiguous(matchers)
  {
    forall m, n | m in matchers && n in matchers && HasSuffix(m.suffix, n.suffix) ensures m == n {
      LastCharacter(m.suffix, n.suffix);
    }
  }

  lemma DefaultSuffixIsPlain(suffix: string)
    requires suffix == ".zst" || suffix == ".br" || suffix == ".gz"
    ensures PlainSuffix(suffix)
  {
    assert suffix[1] in suffix && suffix[1] != '.';
  }

  lemma DefaultsEndApart(m: Matcher, n: Matcher)
    requires m in DEFAULT_MATCHERS && n in DEFAULT_MATCHERS
    requires m.encoding == n.encoding || m.suffix[|m.suffix| - 1] == n.suffix[|n.suffix| - 1]
    ensures m == n
  {
  }

  lemma LastCharacter(a: string, b: string)
    requires HasSuffix(a, b) && b != ""
    ensures a[|a| - 1] == b[|b| - 1]
  {
  }
}
