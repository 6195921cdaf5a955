/** What Accept negotiation of image formats returns, in terms of the header's
    entries (RFC 9110, section 12.5.1), and that this determines the answer. */
module AcceptImageProofs {
  import opened Basics
  import opened Accept
  import opened Sorting
  import opened Media
  import opened AcceptImage
  import AcceptEncoding
  import AcceptEncodingProofs
  import Resolver

  // ---- The weights ----------------------------------------------------------

  ghost predicate IsLast(named: seq<AcceptEntry>, token: string, q: Option<real>) {
    && (q.Some? <==> AcceptEncoding.Mentions(named, token))
    && (q.Some? ==> AcceptEncoding.Last(named, token, q.value))
  }

  lemma IsLastStep(before: seq<AcceptEntry>, last: AcceptEntry, t: string, v: Option<real>)
    requires IsLast(before, t, v)
    ensures IsLast(before + [last], t, if last.token == t then Some(last.quality) else v)
  {
    AcceptEncoding.MentionsStep(before, last, t);
    if last.token == t {
      AcceptEncoding.LastStep(before, last, t, last.quality);
    } else if v.Some? {
      AcceptEncoding.LastStep(before, last, t, v.value);
    }
  }

  ghost predicate AreLargest(named: seq<AcceptEntry>, formats: seq<string>, explicit: map<string, real>) {
    && (forall f :: f in explicit <==> f in formats && AcceptEncoding.Mentions(named, f))
    && (forall f :: f in explicit ==> AcceptEncoding.Largest(named, f, explicit[f]))
  }

  lemma AreLargestStep(before: seq<AcceptEntry>, last: AcceptEntry, formats: seq<string>, v: map<string, real>)
    requires AreLargest(before, formats, v)
    ensures AreLargest(before + [last], formats,
                       if last.token in formats then AcceptEncoding.Heavier(v, last.token, last.quality) else v)
  {
    var named := before + [last];
    var w := if last.token in formats then AcceptEncoding.Heavier(v, last.token, last.quality) else v;
    forall f
      ensures AcceptEncoding.Mentions(named, f) <==> AcceptEncoding.Mentions(before, f) || last.token == f
    {
      AcceptEncoding.MentionsStep(before, last, f);
    }
    forall f | f in w
      ensures AcceptEncoding.Largest(named, f, w[f])
    {
      AcceptEncoding.LargestStep(before, last, v, f);
    }
  }

  lemma {:induction false} CollectMeaning(named: seq<AcceptEntry>)
    ensures var w := Collect(named);
            && AreLargest(named, SUPPORTED_IMAGE_FORMATS, w.explicit)
            && IsLast(named, IMAGE_WILDCARD, w.image)
            && IsLast(named, ANY_WILDCARD, w.any)
  {
    if named != [] {
      var n := |named| - 1;
      var before, last := named[..n], named[n];
      assert named == before + [last];
      CollectMeaning(before);
      var v := Collect(before);
      assert Collect(named) == Take(v, last);
      AreLargestStep(before, last, SUPPORTED_IMAGE_FORMATS, v.explicit);
      IsLastStep(before, last, IMAGE_WILDCARD, v.image);
      IsLastStep(before, last, ANY_WILDCARD, v.any);
    }
  }

  /** The weight the header fields give a format, and how closely: the largest of its
      own entries, else that of the last image wildcard, else of the last full wildcard. */
  ghost predicate Weighs(named: seq<AcceptEntry>, format: string, offer: Offer) {
    if AcceptEncoding.Mentions(named, format) then
      offer.specificity == BY_NAME && AcceptEncoding.Largest(named, format, offer.q)
    else if AcceptEncoding.Mentions(named, IMAGE_WILDCARD) then
      offer.specificity == BY_IMAGE_WILDCARD && AcceptEncoding.Last(named, IMAGE_WILDCARD, offer.q)
    else
      offer.specificity == BY_ANY_WILDCARD && AcceptEncoding.Last(named, ANY_WILDCARD, offer.q)
  }

  lemma LastIsMentioned(named: seq<AcceptEntry>, t: string, q: real)
    requires AcceptEncoding.Last(named, t, q)
    ensures AcceptEncoding.Mentions(named, t)
  {
    var i :| 0 <= i < |named| && named[i] == AcceptEntry(t, q);
    assert named[i].token == t;
  }

  lemma OfferedIsWeight(named: seq<AcceptEntry>, format: string, offer: Offer)
    requires format in SUPPORTED_IMAGE_FORMATS
    ensures Offered(Collect(named), format) == Some(offer) <==> offer.q > 0.0 && Weighs(named, format, offer)
  {
    CollectMeaning(named);
    var w := Collect(named);
    if Weighs(named, format, offer) {
      if format in w.explicit {
        AcceptEncodingProofs.LargestIsUnique(named, format, offer.q, w.explicit[format]);
      } else if w.image.Some? {
        AcceptEncodingProofs.LastIsUnique(named, IMAGE_WILDCARD, offer.q, w.image.value);
      } else {
        LastIsMentioned(named, ANY_WILDCARD, offer.q);
        AcceptEncodingProofs.LastIsUnique(named, ANY_WILDCARD, offer.q, w.any.value);
      }
    }
  }

  // ---- The order --------------------------------------------------------------

  function Rank(values: seq<string>, source: string, format: string): int {
    if format == source then -1 else AcceptEncodingProofs.Position(values, format)
  }

  /** a is offered before b: named more closely, or as closely and heavier, or the
      source's own format, or earlier in the list. */
  predicate Precedes(w: FormatWeights, values: seq<string>, source: string, a: string, b: string) {
    var p, q := Offered(w, a), Offered(w, b);
    p.Some? && q.Some?
    && (|| p.value.specificity > q.value.specificity
        || (p.value.specificity == q.value.specificity && p.value.q > q.value.q)
        || (p.value == q.value && Rank(values, source, a) < Rank(values, source, b)))
  }

  ghost predicate IsNegotiated(r: seq<string>, w: FormatWeights, values: seq<string>, source: string) {
    && (forall f :: f in r <==> f in values && Offered(w, f).Some?)
    && (forall i, j :: 0 <= i < j < |r| ==> Precedes(w, values, source, r[i], r[j]))
  }

  predicate IsCandidate(c: Candidate, w: FormatWeights, values: seq<string>, source: string, n: nat)
    requires n <= |values| && Distinct(values)
  {
    c.format in values[..n] && Offered(w, c.format) == Some(c.offer) && c.priority == Rank(values, source, c.format)
  }

  lemma PositionOf(values: seq<string>, i: nat)
    requires Distinct(values) && i < |values|
    ensures AcceptEncodingProofs.Position(values, values[i]) == i
  {
  }

  lemma {:induction false} CandidatesMeaning(w: FormatWeights, values: seq<string>, source: string, n: nat)
    requires n <= |values| && Distinct(values)
    ensures var cs := Candidates(w, values, source, n);
            && (forall c :: c in cs <==> IsCandidate(c, w, values, source, n))
            && Distinct(cs)
  {
    if n > 0 {
      CandidatesMeaning(w, values, source, n - 1);
      var before, cs := Candidates(w, values, source, n - 1), Candidates(w, values, source, n);
      var f := values[n - 1];
      var offer := Offered(w, f);
      PositionOf(values, n - 1);
      assert values[..n] == values[..n - 1] + [f];
      forall c
        ensures c in cs <==> IsCandidate(c, w, values, source, n)
      {
        assert c in cs <==> c in before || (offer.Some? && c == Candidate(f, offer.value, ImagePriority(n - 1, f, source)));
      }
      assert f !in values[..n - 1];
      assert forall i :: 0 <= i < |before| ==> before[i] in before;
    }
  }

  lemma BeforeIsTotal()
    ensures TotalPreorder(Before)
  {
  }

  ghost predicate AreCandidates(s: seq<Candidate>, w: FormatWeights, values: seq<string>, source: string)
    requires Distinct(values)
  {
    SortedBy(s, Before) && Distinct(s) && forall c :: c in s <==> IsCandidate(c, w, values, source, |values|)
  }

  lemma SortedCandidates(w: FormatWeights, values: seq<string>, source: string)
    requires Distinct(values)
    ensures AreCandidates(SortBy(Candidates(w, values, source, |values|), Before), w, values, source)
  {
    var cs := Candidates(w, values, source, |values|);
    var s := SortBy(cs, Before);
    CandidatesMeaning(w, values, source, |values|);
    BeforeIsTotal();
    SortIsSortedPermutation(cs, Before);
    SameElements(s, cs);
    DistinctPermutation(cs, s);
  }

  lemma RankIsInjective(values: seq<string>, source: string, a: string, b: string)
    requires Distinct(values) && a in values && b in values && Rank(values, source, a) == Rank(values, source, b)
    ensures a == b
  {
  }

  lemma FormatsAreNegotiated(w: FormatWeights, values: seq<string>, source: string, s: seq<Candidate>)
    requires Distinct(values) && AreCandidates(s, w, values, source)
    ensures IsNegotiated(Formats(s), w, values, source)
  {
    var n := |values|;
    var r := Formats(s);
    assert values[..n] == values;
    forall f
      ensures f in r <==> f in values && Offered(w, f).Some?
    {
      if f in r {
        var i :| 0 <= i < |r| && r[i] == f;
        assert s[i] in s;
      }
      if f in values && Offered(w, f).Some? {
        var c := Candidate(f, Offered(w, f).value, Rank(values, source, f));
        assert IsCandidate(c, w, values, source, n);
        assert c in s;
        var i :| 0 <= i < |s| && s[i] == c;
        assert r[i] == f;
      }
    }
    forall i, j | 0 <= i < j < |r|
      ensures Precedes(w, values, source, r[i], r[j])
    {
      assert s[i] in s && s[j] in s;
      assert Before(s[i], s[j]) && s[i] != s[j];
      if s[i].priority == s[j].priority {
        RankIsInjective(values, source, r[i], r[j]);
      }
    }
  }

  lemma NegotiatedIsDistinct(r: seq<string>, w: FormatWeights, values: seq<string>, source: string)
    requires IsNegotiated(r, w, values, source)
    ensures Distinct(r)
  {
    forall i, j | 0 <= i < j < |r|
      ensures r[i] != r[j]
    {
      assert Precedes(w, values, source, r[i], r[j]);
    }
  }

  /** Membership and order leave one answer, whatever computed it. */
  lemma NegotiatedIsUnique(a: seq<string>, b: seq<string>, w: FormatWeights, values: seq<string>, source: string)
    requires IsNegotiated(a, w, values, source) && IsNegotiated(b, w, values, source)
    ensures a == b
  {
    NegotiatedIsDistinct(a, w, values, source);
    NegotiatedIsDistinct(b, w, values, source);
    DistinctSameElements(a, b);
    var leq := (x: string, y: string) => x == y || Precedes(w, values, source, x, y);
    SortedIsUnique(a, b, leq);
  }

  /** The answer for a header is exactly the formats of positive weight among the configured
      ones and the source's own, the closely named first, then the heavier, then the source's;
      a blank header gets none. */
  lemma HeaderNegotiation(header: string, sourceFormat: string, configured: seq<string>, parseEntry: EntryParser)
    ensures var named := NamedEntries(Entries(header, parseEntry));
            var source := NormalizeImageFormat(sourceFormat);
            var values := WithSource(SupportedFormats(configured), source);
            var r := NegotiateImages(header, sourceFormat, configured, parseEntry);
            if IsBlank(header) then r == []
            else
              && IsNegotiated(r, Collect(named), values, source)
              && (forall f :: f in r <==> (f in SupportedFormats(configured) || (f == source && f != ""))
                                          && exists offer: Offer :: offer.q > 0.0 && Weighs(named, f, offer))
  {
    var named := NamedEntries(Entries(header, parseEntry));
    var source := NormalizeImageFormat(sourceFormat);
    var values := WithSource(SupportedFormats(configured), source);
    var w := Collect(named);
    SortedCandidates(w, values, source);
    FormatsAreNegotiated(w, values, source, SortBy(Candidates(w, values, source, |values|), Before));
    forall f | f in values
      ensures Offered(w, f).Some? <==> exists offer: Offer :: offer.q > 0.0 && Weighs(named, f, offer)
    {
      WeightExists(named, f);
    }
  }

  lemma WeightExists(named: seq<AcceptEntry>, format: string)
    requires format in SUPPORTED_IMAGE_FORMATS
    ensures Offered(Collect(named), format).Some? <==> exists offer: Offer :: offer.q > 0.0 && Weighs(named, format, offer)
  {
    var offered := Offered(Collect(named), format);
    if offered.Some? {
      OfferedIsWeight(named, format, offered.value);
    }
    if offer: Offer :| offer.q > 0.0 && Weighs(named, format, offer) {
      OfferedIsWeight(named, format, offer);
    }
  }

  // ---- Weights against specificity -------------------------------------------------

  ghost predicate HeavierFirst(r: seq<string>, w: FormatWeights) {
    forall i, j :: 0 <= i < j < |r| && Offered(w, r[i]).Some? && Offered(w, r[j]).Some? ==>
      Offered(w, r[i]).value.q >= Offered(w, r[j]).value.q
  }

  /** No format named more closely is given a smaller weight. */
  ghost predicate CloserIsHeavier(w: FormatWeights, values: seq<string>) {
    forall a, b ::
      (a in values && b in values && Offered(w, a).Some? && Offered(w, b).Some?
       && Offered(w, a).value.specificity > Offered(w, b).value.specificity) ==>
        Offered(w, a).value.q >= Offered(w, b).value.q
  }

  /** The answer is in the order of the client's weights if and only if the weights
      already grow with specificity, because specificity is compared first. */
  lemma HeavierFirstIff(r: seq<string>, w: FormatWeights, values: seq<string>, source: string)
    requires IsNegotiated(r, w, values, source)
    ensures HeavierFirst(r, w) <==> CloserIsHeavier(w, values)
  {
    if HeavierFirst(r, w) {
      forall a, b | a in values && b in values && Offered(w, a).Some? && Offered(w, b).Some?
                    && Offered(w, a).value.specificity > Offered(w, b).value.specificity
        ensures Offered(w, a).value.q >= Offered(w, b).value.q
      {
        assert a in r && b in r;
        var i :| 0 <= i < |r| && r[i] == a;
        var j :| 0 <= j < |r| && r[j] == b;
        assert !Precedes(w, values, source, r[j], r[i]);
      }
    }
    if CloserIsHeavier(w, values) {
      forall i, j | 0 <= i < j < |r|
        ensures Offered(w, r[i]).Some? && Offered(w, r[j]).Some? ==>
                  Offered(w, r[i]).value.q >= Offered(w, r[j]).value.q
      {
        assert r[i] in r && r[j] in r;
        assert Precedes(w, values, source, r[i], r[j]);
      }
    }
  }

  /** With the image wildcard at 1 and webp at 0.1, webp comes before the heavier png. */
  lemma WebpComesFirst(r: seq<string>)
    requires var w := FormatWeights(map["webp" := 0.1], Some(1.0), None);
             IsNegotiated(r, w, SUPPORTED_IMAGE_FORMATS, "png")
    ensures |r| > 0 && r[0] == "webp" && "png" in r
  {
    var w := FormatWeights(map["webp" := 0.1], Some(1.0), None);
    assert "webp" in SUPPORTED_IMAGE_FORMATS && "png" in SUPPORTED_IMAGE_FORMATS;
    assert Offered(w, "webp") == Some(Offer(0.1, BY_NAME));
    assert Offered(w, "png") == Some(Offer(1.0, BY_IMAGE_WILDCARD));
    assert "webp" in r;
    var i :| 0 <= i < |r| && r[i] == "webp";
    if i > 0 {
      assert Precedes(w, SUPPORTED_IMAGE_FORMATS, "png", r[0], r[i]);
    }
  }

  /** A media type in lower case without parameters. */
  lemma PlainEntry(t: string, parse: FloatParser)
    requires t != "" && Trimmed(t) && ToLower(t) == t && ';' !in t
    ensures Entry(t, parse) == Some(AcceptEntry(t, 1.0))
  {
    TrimmedIsFixed(t);
    SplitWhole("", ';');
    LastWeightSingle("", 1.0, parse);
    TrimmedIsFixed("");
    NoWeightWithoutEquals("", parse);
  }

  /** A media type in lower case with one parameter. */
  lemma WeightedEntry(t: string, param: string, q: real, parse: FloatParser)
    requires t != "" && Trimmed(t) && ToLower(t) == t && ';' !in t && ';' !in param
    requires Trimmed(t + [';'] + param) && Weight(param, parse) == Some(q)
    ensures Entry(t + [';'] + param, parse) == Some(AcceptEntry(t, q))
  {
    var part := t + [';'] + param;
    TrimmedIsFixed(part);
    IndexOfFirst(t, param, ';');
    assert part[..|t|] == t && part[|t| + 1..] == param;
    TrimmedIsFixed(t);
    SplitWhole(param, ';');
    LastWeightSingle(param, 1.0, parse);
  }

  lemma PresentBoth(x: AcceptEntry, y: AcceptEntry)
    ensures Present([Some(x), Some(y)]) == [x, y]
  {
    var values := [Some(x), Some(y)];
    assert values[1..] == [Some(y)] && values[1..][1..] == [];
    assert Present(values[1..]) == [y];
  }

  lemma TwoEntries(a: string, b: string, x: AcceptEntry, y: AcceptEntry, f: EntryParser)
    requires ',' !in a && ',' !in b && f(a) == Some(x) && f(b) == Some(y)
    ensures Entries(a + [','] + b, f) == [x, y]
  {
    SplitCons(a, b, ',');
    SplitWhole(b, ',');
    var values := Mapped([a, b], f);
    assert values == [Some(x), Some(y)];
    PresentBoth(x, y);
    assert [a] + [b] == [a, b];
  }

  lemma TwoWeights(format: string, q: real, p: real)
    requires format in SUPPORTED_IMAGE_FORMATS
    ensures Collect([AcceptEntry(format, q), AcceptEntry(IMAGE_WILDCARD, p)]) == FormatWeights(map[format := q], Some(p), None)
  {
    var named := [AcceptEntry(format, q), AcceptEntry(IMAGE_WILDCARD, p)];
    assert named[..1] == [AcceptEntry(format, q)] && named[..1][..0] == [];
    assert Collect([]) == NO_WEIGHTS;
    assert format != IMAGE_WILDCARD && format != ANY_WILDCARD;
    assert Collect(named[..1]) == FormatWeights(map[format := q], None, None);
  }

  lemma WeightOfTenth(parse: FloatParser)
    requires parse("0.1") == Some(0.1)
    ensures Weight("q=0.1", parse) == Some(0.1)
  {
    TrimmedIsFixed("q=0.1");
    assert "q=0.1" == "q" + ['='] + "0.1";
    IndexOfFirst("q", "0.1", '=');
    assert Cut("q=0.1", '=') == Parts("q", "0.1", true);
    TrimmedIsFixed("q");
    TrimmedIsFixed("0.1");
  }

  /** A part that names its media type and nothing else, outer white space and letter case aside. */
  predicate IsToken(t: string) {
    t != "" && Trimmed(t) && ToLower(t) == t && ';' !in t && ',' !in t
  }

  lemma WeightedOrWildcard(header: string, part: string, t: string, param: string, wildcard: string, q: real, parse: FloatParser)
    requires header == part + [','] + wildcard && part == t + [';'] + param
    requires IsToken(t) && IsToken(wildcard) && ';' !in param && Trimmed(part) && ',' !in part && Weight(param, parse) == Some(q)
    ensures Entries(header, EntryParserFor(parse)) == [AcceptEntry(t, q), AcceptEntry(wildcard, 1.0)]
  {
    WeightedEntry(t, param, q, parse);
    PlainEntry(wildcard, parse);
    TwoEntries(part, wildcard, AcceptEntry(t, q), AcceptEntry(wildcard, 1.0), EntryParserFor(parse));
  }

  lemma NamedPair(t: string, format: string, wildcard: string, q: real, p: real)
    requires FormatOfAcceptToken(t) == Some(format) && t != IMAGE_WILDCARD && t != ANY_WILDCARD && wildcard == IMAGE_WILDCARD
    ensures Collect(NamedEntries([AcceptEntry(t, q), AcceptEntry(wildcard, p)])) == FormatWeights(map[format := q], Some(p), None)
  {
    TwoWeights(format, q, p);
    var x, y := AcceptEntry(t, q), AcceptEntry(wildcard, p);
    assert Named(x) == AcceptEntry(format, q) && Named(y) == y;
    assert NamedEntries([AcceptEntry(t, q), AcceptEntry(wildcard, p)]) == [AcceptEntry(format, q), AcceptEntry(wildcard, p)];
  }

  lemma WebpOrImage(header: string, part: string, t: string, param: string, wildcard: string, parse: FloatParser)
    requires header == part + [','] + wildcard && part == t + [';'] + param
    requires part == "image/webp;q=0.1" && t == "image/webp" && param == "q=0.1" && wildcard == IMAGE_WILDCARD && parse("0.1") == Some(0.1)
    ensures Collect(NamedEntries(Entries(header, EntryParserFor(parse)))) == FormatWeights(map["webp" := 0.1], Some(1.0), None)
  {
    WeightOfTenth(parse);
    WebpToken(t);
    WildcardToken(wildcard);
    WeightedIsTrimmed(part);
    WeightedOrWildcard(header, part, t, param, wildcard, 0.1, parse);
    NamedPair(t, "webp", wildcard, 0.1, 1.0);
  }

  /** For "image/webp;q=0.1" and the image wildcard a png is served as webp, although the header
      gives webp a tenth of png's weight. */
  lemma LighterCanComeFirst(header: string, parse: FloatParser)
    requires header == "image/webp;q=0.1,image/*" && parse("0.1") == Some(0.1)
    ensures var r := NegotiateImages(header, "png", [], EntryParserFor(parse));
            |r| > 0 && r[0] == "webp" && "png" in r
  {
    var part := "image/webp;q=0.1";
    assert header == part + [','] + IMAGE_WILDCARD && part == "image/webp" + [';'] + "q=0.1";
    WebpOrImage(header, part, "image/webp", "q=0.1", IMAGE_WILDCARD, parse);
    TrimmedIsFixed(header);
    SupportedIsNormal("png");
    assert SupportedFormats([]) == SUPPORTED_IMAGE_FORMATS;
    HeaderNegotiation(header, "png", [], EntryParserFor(parse));
    WebpComesFirst(NegotiateImages(header, "png", [], EntryParserFor(parse)));
  }

  lemma WebpToken(t: string)
    requires t == "image/webp"
    ensures IsToken(t) && FormatOfAcceptToken(t) == Some("webp")
  {
    TrimmedIsFixed(t);
    assert ToLower(t) == t;
  }

  lemma WildcardToken(t: string)
    requires t == IMAGE_WILDCARD
    ensures IsToken(t)
  {
    assert ToLower(t) == t;
  }

  lemma WeightedIsTrimmed(part: string)
    requires part == "image/webp;q=0.1"
    ensures Trimmed(part) && ',' !in part
  {
  }

  // ---- In the resolver ---------------------------------------------------------------

  /** The resolver's headers, with every format supported. */
  function HeadersFor(parseEntry: EntryParser): Resolver.Headers {
    Resolver.Headers((accept, source) => NegotiateImages(accept, source, [], parseEntry), parseEntry)
  }

  /** For an image and a request that asks for no format, the formats the resolver tries are
      those of positive weight, the image's own first among equals. */
  lemma ResolverNegotiates(accept: string, mediaType: string, parseEntry: EntryParser)
    requires !IsBlank(accept) && IsImageMediaType(mediaType)
    ensures var r := Resolver.PreferredImageFormats(accept, "", mediaType, HeadersFor(parseEntry));
            IsNegotiated(r, Collect(NamedEntries(Entries(accept, parseEntry))), SUPPORTED_IMAGE_FORMATS, ImageFormat(mediaType))
  {
    var source := ImageFormat(mediaType);
    if source != "" {
      SupportedIsNormal(source);
    } else {
      assert NormalizeImageFormat("") == "";
    }
    assert SupportedFormats([]) == SUPPORTED_IMAGE_FORMATS;
    HeaderNegotiation(accept, source, [], parseEntry);
  }
}
