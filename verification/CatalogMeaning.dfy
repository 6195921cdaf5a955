/** The catalog's slots and identifiers in terms of the variants' own fields
    (internal/catalog/records.go, variant_index.go, model.go). */
module CatalogMeaning {
  import opened Basics
  import opened CatalogRecords
  import Media

  // ---- Slots --------------------------------------------------------------------------------

  /** The image format a variant is filed under: its own, else its media type's. */
  function FiledFormat(v: Variant): string {
    if v.format != "" then v.format else Media.ImageFormat(v.mediaType)
  }

  /** The identifier a variant is kept under. */
  function Identifier(v: Variant): string {
    if v.id != "" then v.id else DefaultVariantID(v)
  }

  /** b may not be in the catalog beside a: one identifier, artifact, coding or image size of
      one asset is there for one variant only. */
  predicate TakesPlaceOf(a: Variant, b: Variant) {
    || (a.assetPath == b.assetPath && Identifier(a) == Identifier(b))
    || (b.artifactPath != "" && a.artifactPath == b.artifactPath)
    || (b.encoding != "" && a.assetPath == b.assetPath && a.encoding == b.encoding)
    || (FiledFormat(b) != "" && a.assetPath == b.assetPath && FiledFormat(a) == FiledFormat(b) && a.width == b.width)
  }

  /** No asset path has the zero byte that separates path and identifier in a key. */
  predicate PlainAssetPath(v: Variant) {
    0 as char !in v.assetPath
  }

  lemma ClashIffTakesPlace(a: Variant, b: Variant)
    requires PlainAssetPath(a) && PlainAssetPath(b)
    ensures Clashes(NewVariantRecord(a), NewVariantRecord(b)) <==> TakesPlaceOf(a, b)
  {
    var r, q := NewVariantRecord(a), NewVariantRecord(b);
    if Key(r) == Key(q) {
      KeySplits(r.assetPath, r.id, q.assetPath, q.id);
    }
  }

  ghost predicate IsTableOf(t: VariantTable) {
    WellKeyed(t) && forall k :: k in t ==> IsProjection(t[k]) && PlainAssetPath(t[k].variant)
  }

  ghost function VariantsOf(t: VariantTable): set<Variant> {
    set k | k in t :: t[k].variant
  }

  lemma KeptVariant(t: VariantTable, v: Variant, k: string)
    requires IsTableOf(t) && PlainAssetPath(v) && k in t
    ensures k in Upserted(t, NewVariantRecord(v)) && k != Key(NewVariantRecord(v)) <==> !TakesPlaceOf(t[k].variant, v)
  {
    ClashIffTakesPlace(t[k].variant, v);
  }

  /** An upsert keeps exactly the variants whose place the new one does not take, and adds it
      under its identifier. */
  lemma UpsertedVariants(t: VariantTable, v: Variant)
    requires IsTableOf(t) && PlainAssetPath(v)
    ensures VariantsOf(Upserted(t, NewVariantRecord(v)))
         == (set x | x in VariantsOf(t) && !TakesPlaceOf(x, v)) + {v.(id := Identifier(v))}
  {
    var r := NewVariantRecord(v);
    var u := Upserted(t, r);
    assert u[Key(r)] == r;
    assert r.variant in VariantsOf(u);
    forall x | x in VariantsOf(t) && !TakesPlaceOf(x, v) ensures x in VariantsOf(u) {
      var k :| k in t && t[k].variant == x;
      KeptVariant(t, v, k);
    }
    forall x | x in VariantsOf(u) ensures x == r.variant || (x in VariantsOf(t) && !TakesPlaceOf(x, v)) {
      var k :| k in u && u[k].variant == x;
      if k != Key(r) {
        KeptVariant(t, v, k);
      }
    }
  }

  // ---- Identifiers ----------------------------------------------------------------------------

  /** The number the digits stand for. */
  function NumberOf(digits: string): nat
    requires forall i :: 0 <= i < |digits| ==> '0' <= digits[i] <= '9'
  {
    if digits == "" then 0 else 10 * NumberOf(digits[..|digits| - 1]) + (digits[|digits| - 1] as int - '0' as int)
  }

  lemma {:induction false} DigitsRoundTrip(n: nat)
    ensures forall i :: 0 <= i < |Digits(n)| ==> '0' <= Digits(n)[i] <= '9'
    ensures NumberOf(Digits(n)) == n
  {
    if n >= 10 {
      DigitsRoundTrip(n / 10);
      var front, last := Digits(n / 10), Digits(n % 10);
      assert |last| == 1 && Digits(n) == front + last;
      assert Digits(n)[..|front|] == front;
    } else {
      assert Digits(n)[..0] == "";
    }
  }

  /** A name and a value, or nothing without a value. */
  function Label(name: string, value: string): (labels: seq<string>)
    ensures |labels| <= 1
  {
    if value == "" then [] else [name + value]
  }

  function WidthText(v: Variant): string {
    if v.width > 0 then Digits(v.width) else ""
  }

  /** The fields a default identifier is made of. */
  function Labels(encoding: string, format: string, width: string): seq<string> {
    Label("encoding=", encoding) + Label("format=", format) + Label("width=", width)
  }

  function LabelsOf(v: Variant): seq<string> {
    Labels(TrimSpace(v.encoding), TrimSpace(v.format), WidthText(v))
  }

  predicate Unbarred(v: Variant) {
    '|' !in TrimSpace(v.assetPath) && '|' !in TrimSpace(v.encoding) && '|' !in TrimSpace(v.format)
  }

  lemma WidthIsText(v: Variant)
    ensures '|' !in WidthText(v) && (WidthText(v) == "" <==> v.width <= 0)
  {
    if v.width > 0 {
      DigitsRoundTrip(v.width);
    }
  }

  lemma LabelsAreFree(path: string, encoding: string, format: string, width: string)
    requires '|' !in path && '|' !in encoding && '|' !in format && '|' !in width
    ensures Free([path] + Labels(encoding, format, width), '|')
  {
    assert '|' !in "encoding=" && '|' !in "format=" && '|' !in "width=";
  }

  lemma JoinLabel(parts: seq<string>, one: seq<string>)
    requires parts != [] && |one| <= 1
    ensures Join(parts + one, '|') == Join(parts, '|') + if one == [] then "" else ['|'] + one[0]
  {
    if one == [] {
      assert parts + one == parts;
    } else {
      JoinAppend(parts, one, '|');
      assert Join(one, '|') == one[0];
    }
  }

  lemma JoinLabels(path: string, a: seq<string>, b: seq<string>, c: seq<string>)
    requires |a| <= 1 && |b| <= 1 && |c| <= 1
    ensures Join([path] + (a + b + c), '|')
         == path + (if a == [] then "" else ['|'] + a[0]) + (if b == [] then "" else ['|'] + b[0]) + (if c == [] then "" else ['|'] + c[0])
  {
    JoinLabel([path], a);
    JoinLabel([path] + a, b);
    JoinLabel([path] + a + b, c);
    assert [path] + (a + b + c) == [path] + a + b + c;
  }

  /** A label after its bar. */
  function Barred(name: string, value: string): string {
    if value == "" then "" else ['|'] + (name + value)
  }

  lemma BarredText(name: string, value: string, bar: string)
    requires bar == ['|'] + name
    ensures (if value != "" then bar + value else "") == Barred(name, value)
  {
    assert ['|'] + (name + value) == ['|'] + name + value;
  }

  lemma IdentifierShape(v: Variant)
    ensures DefaultVariantID(v) == TrimSpace(v.assetPath) + Barred("encoding=", TrimSpace(v.encoding))
                                   + Barred("format=", TrimSpace(v.format)) + Barred("width=", WidthText(v))
  {
    BarredText("encoding=", TrimSpace(v.encoding), "|encoding=");
    BarredText("format=", TrimSpace(v.format), "|format=");
    BarredText("width=", WidthText(v), "|width=");
    WidthIsText(v);
  }

  lemma BarAndLabel(name: string, value: string)
    ensures (if Label(name, value) == [] then "" else ['|'] + Label(name, value)[0]) == Barred(name, value)
  {
  }

  lemma JoinedLabels(path: string, m: string, a: string, n: string, b: string, o: string, c: string)
    ensures Join([path] + (Label(m, a) + Label(n, b) + Label(o, c)), '|') == path + Barred(m, a) + Barred(n, b) + Barred(o, c)
  {
    JoinLabels(path, Label(m, a), Label(n, b), Label(o, c));
    BarAndLabel(m, a);
    BarAndLabel(n, b);
    BarAndLabel(o, c);
  }

  lemma IdentifierIsJoined(v: Variant)
    ensures DefaultVariantID(v) == Join([TrimSpace(v.assetPath)] + LabelsOf(v), '|')
  {
    JoinedLabels(TrimSpace(v.assetPath), "encoding=", TrimSpace(v.encoding), "format=", TrimSpace(v.format), "width=", WidthText(v));
    IdentifierShape(v);
  }

  /** The value of the first label with this name, or nothing. */
  function LabelOf(labels: seq<string>, name: string): string {
    if labels == [] then "" else if name <= labels[0] then labels[0][|name|..] else LabelOf(labels[1..], name)
  }

  lemma FirstLabel(name: string, value: string, rest: seq<string>, other: string)
    requires name != "" && other != "" && (name == other || name[0] != other[0])
    ensures LabelOf(Label(name, value) + rest, other) == if name == other && value != "" then value else LabelOf(rest, other)
  {
    var labels := Label(name, value) + rest;
    if value == "" {
      assert labels == rest;
    } else {
      assert labels[0] == name + value && labels[1..] == rest;
      if name != other {
        assert labels[0][0] == name[0];
      } else {
        assert labels[0][|name|..] == value;
      }
    }
  }

  lemma LabelValues(encoding: string, format: string, width: string)
    ensures var labels := Labels(encoding, format, width);
            LabelOf(labels, "encoding=") == encoding && LabelOf(labels, "format=") == format && LabelOf(labels, "width=") == width
  {
    LabelValue("encoding=", encoding, format, width);
    LabelValue("format=", encoding, format, width);
    LabelValue("width=", encoding, format, width);
  }

  lemma LabelValue(name: string, encoding: string, format: string, width: string)
    requires name in {"encoding=", "format=", "width="}
    ensures LabelOf(Labels(encoding, format, width), name) == if name == "encoding=" then encoding else if name == "format=" then format else width
  {
    var last := Label("width=", width);
    FirstLabel("encoding=", encoding, Label("format=", format) + last, name);
    FirstLabel("format=", format, last, name);
    FirstLabel("width=", width, [], name);
    assert Labels(encoding, format, width) == Label("encoding=", encoding) + (Label("format=", format) + last);
    assert last + [] == last;
  }

  lemma LabelsTell(a: Variant, b: Variant)
    requires LabelsOf(a) == LabelsOf(b)
    ensures TrimSpace(a.encoding) == TrimSpace(b.encoding) && TrimSpace(a.format) == TrimSpace(b.format) && WidthText(a) == WidthText(b)
  {
    LabelValues(TrimSpace(a.encoding), TrimSpace(a.format), WidthText(a));
    LabelValues(TrimSpace(b.encoding), TrimSpace(b.format), WidthText(b));
  }

  lemma WidthTextTells(a: Variant, b: Variant)
    ensures WidthText(a) == WidthText(b) <==> a.width == b.width || (a.width <= 0 && b.width <= 0)
  {
    WidthIsText(a);
    WidthIsText(b);
    if a.width > 0 && b.width > 0 {
      DigitsRoundTrip(a.width);
      DigitsRoundTrip(b.width);
    }
  }

  lemma LabelsAndPath(path: string, a: seq<string>, b: seq<string>)
    requires Free([path] + a, '|') && Free([path] + b, '|') && Join([path] + a, '|') == Join([path] + b, '|')
    ensures a == b
  {
    SplitJoin([path] + a, '|');
    SplitJoin([path] + b, '|');
    assert ([path] + a)[1..] == a && ([path] + b)[1..] == b;
  }

  /** Two variants of one asset get one default identifier exactly when they agree in coding,
      format and positive width. */
  lemma DefaultIdentifiersTell(a: Variant, b: Variant)
    requires Unbarred(a) && Unbarred(b) && TrimSpace(a.assetPath) == TrimSpace(b.assetPath)
    ensures DefaultVariantID(a) == DefaultVariantID(b) <==>
              && TrimSpace(a.encoding) == TrimSpace(b.encoding) && TrimSpace(a.format) == TrimSpace(b.format)
              && (a.width == b.width || (a.width <= 0 && b.width <= 0))
  {
    IdentifierIsJoined(a);
    IdentifierIsJoined(b);
    WidthIsText(a);
    WidthIsText(b);
    WidthTextTells(a, b);
    var path := TrimSpace(a.assetPath);
    LabelsAreFree(path, TrimSpace(a.encoding), TrimSpace(a.format), WidthText(a));
    LabelsAreFree(path, TrimSpace(b.encoding), TrimSpace(b.format), WidthText(b));
    if DefaultVariantID(a) == DefaultVariantID(b) {
      LabelsAndPath(path, LabelsOf(a), LabelsOf(b));
      LabelsTell(a, b);
    }
  }
}
