/** Image formats and media types (internal/media/image.go). */
module Media {
  import opened Basics
  import opened Sorting

  const SUPPORTED_IMAGE_FORMATS: seq<string> := ["jpeg", "png", "webp", "avif"]

  function ImageFormat(mediaType: string): string {
    var m := TrimLower(mediaType);
    if m == "image/jpeg" then "jpeg"
    else if m == "image/png" then "png"
    else if m == "image/webp" then "webp"
    else if m == "image/avif" then "avif"
    else ""
  }

  predicate IsImageMediaType(mediaType: string) {
    "image/" <= TrimLower(mediaType)
  }

  function NormalizeImageFormat(format: string): string {
    var f := TrimLower(format);
    if f == "jpg" then "jpeg" else if f in SUPPORTED_IMAGE_FORMATS then f else ""
  }

  /** The format a media type in an Accept header names. */
  function FormatOfAcceptToken(token: string): (format: Option<string>)
    ensures format.Some? ==> format.value in SUPPORTED_IMAGE_FORMATS
  {
    var t := TrimLower(token);
    if t == "image/jpeg" || t == "image/jpg" then Some("jpeg")
    else if t == "image/png" then Some("png")
    else if t == "image/webp" then Some("webp")
    else if t == "image/avif" then Some("avif")
    else None
  }

  /** A list of formats in normal form. */
  predicate AreFormats(formats: seq<string>) {
    Distinct(formats) && forall f :: f in formats ==> f in SUPPORTED_IMAGE_FORMATS
  }

  /** The values in normal form, each where it first occurs (pkg/normalize.go, NormalizeStringList). */
  function NormalizeStringList(values: seq<string>, normalize: string -> string): (r: seq<string>)
    ensures Distinct(r)
    ensures forall f :: f in r <==> f != "" && exists i :: 0 <= i < |values| && normalize(values[i]) == f
  {
    if values == [] then []
    else
      var n := |values| - 1;
      var before, last := NormalizeStringList(values[..n], normalize), normalize(values[n]);
      if last == "" || last in before then before else before + [last]
  }

  lemma {:induction false} NormalizedStays(values: seq<string>, normalize: string -> string)
    requires Distinct(values) && forall f :: f in values ==> f != "" && normalize(f) == f
    ensures NormalizeStringList(values, normalize) == values
  {
    if values != [] {
      var n := |values| - 1;
      assert values[n] in values;
      assert forall f :: f in values[..n] ==> f in values;
      NormalizedStays(values[..n], normalize);
      assert values == values[..n] + [values[n]];
    }
  }

  lemma NormalFormIsSupported(format: string)
    ensures NormalizeImageFormat(format) != "" ==> NormalizeImageFormat(format) in SUPPORTED_IMAGE_FORMATS
  {
  }

  lemma SupportedIsNormal(format: string)
    requires format in SUPPORTED_IMAGE_FORMATS
    ensures NormalizeImageFormat(format) == format
  {
    assert format[0] in ['j', 'p', 'w', 'a'] && format[|format| - 1] in ['g', 'p', 'f'];
    TrimmedIsFixed(format);
    assert ToLower(format) == format;
  }

  function NormalizeImageFormats(formats: seq<string>): (r: seq<string>) {
    NormalizeStringList(formats, NormalizeImageFormat)
  }

  lemma NormalizedAreFormats(formats: seq<string>)
    ensures AreFormats(NormalizeImageFormats(formats))
  {
    var r := NormalizeImageFormats(formats);
    forall f | f in r
      ensures f in SUPPORTED_IMAGE_FORMATS
    {
      var i :| 0 <= i < |formats| && NormalizeImageFormat(formats[i]) == f;
      NormalFormIsSupported(formats[i]);
    }
  }

  lemma FormatsAreNormalized(formats: seq<string>)
    requires AreFormats(formats)
    ensures NormalizeImageFormats(formats) == formats
  {
    forall f | f in formats
      ensures f != "" && NormalizeImageFormat(f) == f
    {
      SupportedIsNormal(f);
    }
    NormalizedStays(formats, NormalizeImageFormat);
  }

  // ---- What the names mean -----------------------------------------------------------

  lemma SamePrefix(prefix: string, a: string, b: string)
    ensures prefix + a == prefix + b <==> a == b
  {
    if prefix + a == prefix + b {
      assert (prefix + a)[|prefix|..] == a && (prefix + b)[|prefix|..] == b;
    }
  }

  /** The media types of the formats are "image/" and the format's name. */
  lemma MediaTypeNames(mediaType: string, format: string)
    requires mediaType == "image/" + format
    ensures mediaType == "image/jpeg" <==> format == "jpeg"
    ensures mediaType == "image/png" <==> format == "png"
    ensures mediaType == "image/webp" <==> format == "webp"
    ensures mediaType == "image/avif" <==> format == "avif"
    ensures mediaType == "image/jpg" <==> format == "jpg"
  {
    SamePrefix("image/", format, "jpeg");
    SamePrefix("image/", format, "png");
    SamePrefix("image/", format, "webp");
    SamePrefix("image/", format, "avif");
    SamePrefix("image/", format, "jpg");
    assert "image/" + "jpeg" == "image/jpeg" && "image/" + "png" == "image/png" && "image/" + "webp" == "image/webp";
    assert "image/" + "avif" == "image/avif" && "image/" + "jpg" == "image/jpg";
  }

  /** A media type has an image format exactly when it is "image/" and the format's name. */
  lemma ImageFormatIff(mediaType: string, format: string)
    requires format != ""
    ensures ImageFormat(mediaType) == format <==>
            format in {"jpeg", "png", "webp", "avif"} && ToLower(TrimSpace(mediaType)) == "image/" + format
  {
    MediaTypeNames("image/" + format, format);
    MediaTypeNames("image/jpeg", "jpeg");
    MediaTypeNames("image/png", "png");
    MediaTypeNames("image/webp", "webp");
    MediaTypeNames("image/avif", "avif");
  }

  /** Accept entries name a format the same way, and jpeg also as "image/jpg". */
  lemma FormatOfAcceptTokenIff(token: string, format: string)
    ensures FormatOfAcceptToken(token) == Some(format) <==>
            format in {"jpeg", "png", "webp", "avif"}
            && (ToLower(TrimSpace(token)) == "image/" + format || (format == "jpeg" && ToLower(TrimSpace(token)) == "image/jpg"))
  {
    MediaTypeNames("image/" + format, format);
    MediaTypeNames("image/jpeg", "jpeg");
    MediaTypeNames("image/png", "png");
    MediaTypeNames("image/webp", "webp");
    MediaTypeNames("image/avif", "avif");
  }

  /** A format's normal form is its lower-case name, and jpeg for jpg. */
  lemma NormalizeImageFormatIff(raw: string, format: string)
    requires format != ""
    ensures NormalizeImageFormat(raw) == format <==>
            format in {"jpeg", "png", "webp", "avif"}
            && (ToLower(TrimSpace(raw)) == format || (format == "jpeg" && ToLower(TrimSpace(raw)) == "jpg"))
  {
  }
}
