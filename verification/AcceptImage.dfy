/** Accept negotiation of image formats (internal/resolver/accept_image.go).

    As for codings, the source keeps the weights of the known formats in a record
    with a bit mask; FormatWeights is what the record means. Two wildcards apply to
    formats without an entry of their own, the narrower one first. */
module AcceptImage {
  import opened Basics
  import opened Accept
  import opened Sorting
  import opened Media
  import AcceptEncoding

  const IMAGE_WILDCARD := "image/*"
  const ANY_WILDCARD := "*/*"

  // ---- The meaning: weights by format ---------------------------------------

  datatype FormatWeights = FormatWeights(explicit: map<string, real>, image: Option<real>, any: Option<real>)

  const NO_WEIGHTS := FormatWeights(map[], None, None)

  /** What an entry is about: a wildcard, a format under whichever of its media types, or nothing. */
  function Subject(token: string): string {
    if token == IMAGE_WILDCARD || token == ANY_WILDCARD then token
    else
      match FormatOfAcceptToken(token)
      case Some(format) => format
      case None => ""
  }

  function Named(entry: AcceptEntry): AcceptEntry {
    AcceptEntry(Subject(entry.token), entry.quality)
  }

  function Take(w: FormatWeights, named: AcceptEntry): FormatWeights {
    if named.token == IMAGE_WILDCARD then w.(image := Some(named.quality))
    else if named.token == ANY_WILDCARD then w.(any := Some(named.quality))
    else if named.token in SUPPORTED_IMAGE_FORMATS then
      w.(explicit := AcceptEncoding.Heavier(w.explicit, named.token, named.quality))
    else w
  }

  function Collect(named: seq<AcceptEntry>): FormatWeights {
    if named == [] then NO_WEIGHTS
    else Take(Collect(named[..|named| - 1]), named[|named| - 1])
  }

  datatype Offer = Offer(q: real, specificity: int)

  const BY_ANY_WILDCARD := 1
  const BY_IMAGE_WILDCARD := 2
  const BY_NAME := 3

  /** The positive weight a header gives a format, and how closely it names it. */
  function Offered(w: FormatWeights, format: string): Option<Offer> {
    var q := if format in w.explicit then Some(w.explicit[format]) else if w.image.Some? then w.image else w.any;
    if q.Some? && q.value > 0.0 then
      Some(Offer(q.value, if format in w.explicit then BY_NAME else if w.image.Some? then BY_IMAGE_WILDCARD else BY_ANY_WILDCARD))
    else None
  }

  // ---- The supported formats ------------------------------------------------

  const MASK_JPEG: bv8 := 1
  const MASK_PNG: bv8 := 2
  const MASK_WEBP: bv8 := 4
  const MASK_AVIF: bv8 := 8

  function ImageFormatMask(format: string): Option<bv8> {
    if format == "jpeg" then Some(MASK_JPEG)
    else if format == "png" then Some(MASK_PNG)
    else if format == "webp" then Some(MASK_WEBP)
    else if format == "avif" then Some(MASK_AVIF)
    else None
  }

  lemma MaskIffSupported(format: string)
    ensures ImageFormatMask(format).Some? <==> format in SUPPORTED_IMAGE_FORMATS
  {
  }

  predicate Has(mask: bv8, value: bv8) {
    mask & value != 0
  }

  predicate SingleMask(mask: bv8) {
    mask == MASK_JPEG || mask == MASK_PNG || mask == MASK_WEBP || mask == MASK_AVIF
  }

  lemma HasAfterOr(known: bv8, mask: bv8, other: bv8)
    requires SingleMask(mask) && SingleMask(other)
    ensures Has(known | mask, other) <==> Has(known, other) || other == mask
  {
  }

  datatype ImageFormatSupport = ImageFormatSupport(values: seq<string>, known: bv8) {
    predicate Valid() {
      && AreFormats(values) && values != []
      && (Has(known, MASK_JPEG) <==> "jpeg" in values)
      && (Has(known, MASK_PNG) <==> "png" in values)
      && (Has(known, MASK_WEBP) <==> "webp" in values)
      && (Has(known, MASK_AVIF) <==> "avif" in values)
    }
  }

  /** The list negotiation works with: the configured formats, or all. */
  function SupportedFormats(configured: seq<string>): (values: seq<string>)
    ensures values != [] && AreFormats(values)
  {
    NormalizedAreFormats(configured);
    var normalized := NormalizeImageFormats(configured);
    if normalized == [] then SUPPORTED_IMAGE_FORMATS else normalized
  }

  method NewImageFormatSupport(configured: seq<string>) returns (support: ImageFormatSupport)
    ensures support.Valid() && support.values == SupportedFormats(configured)
  {
    var values := SupportedFormats(configured);
    var known: bv8 := 0;
    for i := 0 to |values|
      invariant Has(known, MASK_JPEG) <==> "jpeg" in values[..i]
      invariant Has(known, MASK_PNG) <==> "png" in values[..i]
      invariant Has(known, MASK_WEBP) <==> "webp" in values[..i]
      invariant Has(known, MASK_AVIF) <==> "avif" in values[..i]
    {
      var mask := ImageFormatMask(values[i]);
      if mask.Some? {
        known := known | mask.value;
      }
      assert values[..i + 1] == values[..i] + [values[i]];
    }
    assert values[..|values|] == values;
    support := ImageFormatSupport(values, known);
  }

  /** The format of the source file can always be served. */
  function WithSource(values: seq<string>, source: string): seq<string> {
    if source == "" || source in values then values else values + [source]
  }

  method WithSourceFormat(support: ImageFormatSupport, source: string) returns (r: ImageFormatSupport)
    requires support.Valid() && (source == "" || source in SUPPORTED_IMAGE_FORMATS)
    ensures r.Valid() && r.values == WithSource(support.values, source)
  {
    if source == "" {
      return support;
    }
    var mask := ImageFormatMask(source);
    if mask.Some? && Has(support.known, mask.value) {
      return support;
    }
    FormatsAreNormalized(support.values + [source]);
    r := NewImageFormatSupport(support.values + [source]);
  }

  // ---- The record with the bit mask -----------------------------------------

  class ImagePreferences {
    var jpegQ: real
    var pngQ: real
    var webpQ: real
    var avifQ: real
    var explicit: bv8
    var wildcardImageQ: real
    var hasWildcardImage: bool
    var wildcardAnyQ: real
    var hasWildcardAny: bool

    /** What the record means. */
    ghost var weights: FormatWeights

    ghost predicate Slot(mask: bv8, format: string, q: real)
      reads this
    {
      && (format in weights.explicit <==> Has(explicit, mask))
      && (format in weights.explicit ==> weights.explicit[format] == q)
    }

    ghost predicate Valid()
      reads this
    {
      && Slot(MASK_JPEG, "jpeg", jpegQ)
      && Slot(MASK_PNG, "png", pngQ)
      && Slot(MASK_WEBP, "webp", webpQ)
      && Slot(MASK_AVIF, "avif", avifQ)
      && (forall f :: f in weights.explicit ==> ImageFormatMask(f).Some?)
      && weights.image == (if hasWildcardImage then Some(wildcardImageQ) else None)
      && weights.any == (if hasWildcardAny then Some(wildcardAnyQ) else None)
    }

    constructor ()
      ensures Valid() && weights == NO_WEIGHTS
    {
      jpegQ, pngQ, webpQ, avifQ, explicit := 0.0, 0.0, 0.0, 0.0, 0;
      wildcardImageQ, hasWildcardImage, wildcardAnyQ, hasWildcardAny := 0.0, false, 0.0, false;
      weights := NO_WEIGHTS;
    }

    function QualityOf(mask: bv8): real
      reads this
    {
      if mask == MASK_JPEG then jpegQ
      else if mask == MASK_PNG then pngQ
      else if mask == MASK_WEBP then webpQ
      else if mask == MASK_AVIF then avifQ
      else 0.0
    }

    method SetQuality(mask: bv8, q: real)
      modifies this`jpegQ, this`pngQ, this`webpQ, this`avifQ
      ensures jpegQ == if mask == MASK_JPEG then q else old(jpegQ)
      ensures pngQ == if mask == MASK_PNG then q else old(pngQ)
      ensures webpQ == if mask == MASK_WEBP then q else old(webpQ)
      ensures avifQ == if mask == MASK_AVIF then q else old(avifQ)
    {
      if mask == MASK_JPEG {
        jpegQ := q;
      } else if mask == MASK_PNG {
        pngQ := q;
      } else if mask == MASK_WEBP {
        webpQ := q;
      } else if mask == MASK_AVIF {
        avifQ := q;
      }
    }

    method MarkExplicit(mask: bv8)
      requires SingleMask(mask)
      modifies this`explicit
      ensures Has(explicit, MASK_JPEG) <==> old(Has(explicit, MASK_JPEG)) || mask == MASK_JPEG
      ensures Has(explicit, MASK_PNG) <==> old(Has(explicit, MASK_PNG)) || mask == MASK_PNG
      ensures Has(explicit, MASK_WEBP) <==> old(Has(explicit, MASK_WEBP)) || mask == MASK_WEBP
      ensures Has(explicit, MASK_AVIF) <==> old(Has(explicit, MASK_AVIF)) || mask == MASK_AVIF
    {
      HasAfterOr(explicit, mask, MASK_JPEG);
      HasAfterOr(explicit, mask, MASK_PNG);
      HasAfterOr(explicit, mask, MASK_WEBP);
      HasAfterOr(explicit, mask, MASK_AVIF);
      explicit := explicit | mask;
    }

    /** The step setExplicit takes when the weight is to be replaced. */
    method Replace(format: string, mask: bv8, q: real)
      requires Valid() && ImageFormatMask(format) == Some(mask)
      modifies this
      ensures Valid()
      ensures weights == old(weights).(explicit := old(weights).explicit[format := q])
    {
      MarkExplicit(mask);
      SetQuality(mask, q);
      weights := weights.(explicit := weights.explicit[format := q]);
    }

    method SetExplicit(format: string, q: real)
      requires Valid() && ImageFormatMask(format).Some?
      modifies this
      ensures Valid()
      ensures weights == old(weights).(explicit := AcceptEncoding.Heavier(old(weights).explicit, format, q))
    {
      var mask := ImageFormatMask(format).value;
      if !Has(explicit, mask) || q > QualityOf(mask) {
        Replace(format, mask, q);
      }
    }

    method Apply(entry: AcceptEntry)
      requires Valid()
      modifies this
      ensures Valid()
      ensures weights == Take(old(weights), Named(entry))
    {
      if entry.token == IMAGE_WILDCARD {
        hasWildcardImage, wildcardImageQ := true, entry.quality;
        weights := weights.(image := Some(entry.quality));
      } else if entry.token == ANY_WILDCARD {
        hasWildcardAny, wildcardAnyQ := true, entry.quality;
        weights := weights.(any := Some(entry.quality));
      } else {
        var format := FormatOfAcceptToken(entry.token);
        if format.Some? {
          MaskIffSupported(format.value);
          SetExplicit(format.value, entry.quality);
        }
      }
    }

    /** imageQualityForFormat, and the caller's test that the weight is positive. */
    function Quality(format: string): (offer: Option<Offer>)
      requires Valid()
      reads this
      ensures offer == Offered(weights, format)
    {
      var mask := ImageFormatMask(format);
      var offer :=
        if mask.Some? && Has(explicit, mask.value) then Offer(QualityOf(mask.value), BY_NAME)
        else if hasWildcardImage then Offer(wildcardImageQ, BY_IMAGE_WILDCARD)
        else if hasWildcardAny then Offer(wildcardAnyQ, BY_ANY_WILDCARD)
        else Offer(0.0, 0);
      if offer.q <= 0.0 then None else Some(offer)
    }
  }

  function NamedEntries(entries: seq<AcceptEntry>): seq<AcceptEntry> {
    Mapped(entries, Named)
  }

  method CollectImagePreferences(entries: seq<AcceptEntry>) returns (prefs: ImagePreferences)
    ensures fresh(prefs) && prefs.Valid()
    ensures prefs.weights == Collect(NamedEntries(entries))
  {
    prefs := new ImagePreferences();
    ghost var named := NamedEntries(entries);
    for i := 0 to |entries|
      invariant prefs.Valid() && fresh(prefs)
      invariant prefs.weights == Collect(named[..i])
    {
      prefs.Apply(entries[i]);
      assert named[..i + 1][..i] == named[..i];
    }
    assert named[..|entries|] == named;
  }

  // ---- Candidates in order ---------------------------------------------------

  datatype Candidate = Candidate(format: string, offer: Offer, priority: int)

  /** compareImageCandidates(left, right) <= 0. */
  predicate Before(left: Candidate, right: Candidate) {
    if left.offer.specificity != right.offer.specificity then left.offer.specificity > right.offer.specificity
    else if left.offer.q == right.offer.q then left.priority <= right.priority
    else left.offer.q > right.offer.q
  }

  function ImagePriority(index: nat, format: string, source: string): int {
    if format == source then -1 else index
  }

  /** The candidates among the first n formats. */
  function Candidates(w: FormatWeights, values: seq<string>, source: string, n: nat): seq<Candidate>
    requires n <= |values|
  {
    if n == 0 then []
    else
      var f := values[n - 1];
      var offer := Offered(w, f);
      Candidates(w, values, source, n - 1)
      + if offer.Some? then [Candidate(f, offer.value, ImagePriority(n - 1, f, source))] else []
  }

  function Formats(candidates: seq<Candidate>): seq<string> {
    seq(|candidates|, i requires 0 <= i < |candidates| => candidates[i].format)
  }

  function Negotiate(w: FormatWeights, values: seq<string>, source: string): seq<string> {
    Formats(SortBy(Candidates(w, values, source, |values|), Before))
  }

  method BuildImageCandidates(prefs: ImagePreferences, source: string, support: ImageFormatSupport)
    returns (formats: seq<string>)
    requires prefs.Valid() && support.Valid() && (source == "" || source in SUPPORTED_IMAGE_FORMATS)
    ensures formats == Negotiate(prefs.weights, WithSource(support.values, source), source)
  {
    var supported := WithSourceFormat(support, source);
    var values := supported.values;
    var candidates: seq<Candidate> := [];
    for i := 0 to |values|
      invariant candidates == Candidates(prefs.weights, values, source, i)
    {
      var offer := prefs.Quality(values[i]);
      if offer.Some? {
        candidates := candidates + [Candidate(values[i], offer.value, ImagePriority(i, values[i], source))];
      }
    }
    if candidates == [] {
      return [];
    }
    var sorted := SortBy(candidates, Before);
    formats := [];
    for i := 0 to |sorted|
      invariant formats == Formats(sorted[..i])
    {
      formats := formats + [sorted[i].format];
    }
    assert sorted[..|sorted|] == sorted;
  }

  /** What a header asks for, for a source format and the configured formats. */
  function NegotiateImages(header: string, sourceFormat: string, configured: seq<string>, parseEntry: EntryParser): seq<string> {
    if IsBlank(header) then []
    else
      var source := NormalizeImageFormat(sourceFormat);
      Negotiate(Collect(NamedEntries(Entries(header, parseEntry))), WithSource(SupportedFormats(configured), source), source)
  }

  /** parseAcceptImageFormats: nil and the empty list are both the empty sequence. */
  method ParseAcceptImageFormats(header: string, sourceFormat: string, configured: seq<string>, parseEntry: EntryParser)
    returns (formats: seq<string>)
    ensures formats == NegotiateImages(header, sourceFormat, configured, parseEntry)
  {
    if IsBlank(header) {
      return [];
    }
    var support := NewImageFormatSupport(configured);
    var entries := ForEachAcceptEntry(header, parseEntry);
    var prefs := CollectImagePreferences(entries);
    formats := BuildImageCandidates(prefs, NormalizeImageFormat(sourceFormat), support);
  }
}
