/** Accept and Accept-Encoding header fields as lists of weighted tokens
    (pkg/normalize.go, internal/resolver/accept.go).

    Quality values are real numbers; strconv.ParseFloat is the parameter parse. */
module Accept {
  import opened Basics

  datatype AcceptEntry = AcceptEntry(token: string, quality: real)

  /** strconv.ParseFloat. */
  type FloatParser = string -> Option<real>

  /** ParseAcceptEntry for some ParseFloat. */
  type EntryParser = string -> Option<AcceptEntry>

  predicate EqualFold(a: string, b: string) {
    ToLower(a) == ToLower(b)
  }

  function ClampAcceptQuality(raw: string, parse: FloatParser): real {
    match parse(TrimSpace(raw)) {
      case None => 1.0
      case Some(q) => if q < 0.0 then 0.0 else if q > 1.0 then 1.0 else q
    }
  }

  // ---- What a header means -----------------------------------------------

  /** The weight one parameter gives, if it is a "q" parameter. */
  function Weight(param: string, parse: FloatParser): Option<real> {
    var cut := Cut(TrimSpace(param), '=');
    if cut.found && EqualFold(TrimSpace(cut.before), "q") then Some(ClampAcceptQuality(cut.after, parse)) else None
  }

  /** The last weight among the parameters, or the default. */
  function LastWeight(params: seq<string>, default: real, parse: FloatParser): real {
    if params == [] then default
    else
      match Weight(params[|params| - 1], parse) {
        case Some(q) => q
        case None => LastWeight(params[..|params| - 1], default, parse)
      }
  }

  function Entry(part: string, parse: FloatParser): Option<AcceptEntry> {
    var trimmed := TrimSpace(part);
    var cut := Cut(trimmed, ';');
    var token := TrimLower(cut.before);
    if trimmed == "" || token == "" then None
    else Some(AcceptEntry(token, LastWeight(Split(cut.after, ';'), 1.0, parse)))
  }

  /** The values that are present, in order. */
  function Present<T>(values: seq<Option<T>>): seq<T> {
    if values == [] then []
    else (if values[0].Some? then [values[0].value] else []) + Present(values[1..])
  }

  function Mapped<A, B>(values: seq<A>, f: A -> B): seq<B> {
    seq(|values|, i requires 0 <= i < |values| => f(values[i]))
  }

  /** The comma-separated elements of a header that f accepts, in order. */
  function Entries(header: string, f: EntryParser): seq<AcceptEntry> {
    Present(Mapped(Split(header, ','), f))
  }

  function EntryParserFor(parse: FloatParser): EntryParser {
    part => Entry(part, parse)
  }

  lemma NoWeightWithoutEquals(param: string, parse: FloatParser)
    requires TrimSpace(param) == ""
    ensures Weight(param, parse) == None
  {
  }

  lemma {:induction false} BlankPartsAreBlank(s: string, c: char)
    requires forall i :: 0 <= i < |s| ==> IsSpace(s[i])
    ensures !IsSpace(c) ==> Split(s, c) == [s]
    ensures TrimSpace(s) == ""
  {
    if !IsSpace(c) {
      SplitWhole(s, c);
    }
    TrimLeftMeaning(s);
  }

  lemma BlankIsAllSpace(s: string)
    requires TrimSpace(s) == ""
    ensures forall i :: 0 <= i < |s| ==> IsSpace(s[i])
  {
    var l := TrimLeft(s);
    TrimLeftMeaning(s);
    TrimRightMeaning(l);
  }

  lemma {:induction false} LastWeightPrepend(param: string, params: seq<string>, default: real, parse: FloatParser)
    ensures LastWeight([param] + params, default, parse)
         == LastWeight(params, LastWeight([param], default, parse), parse)
    decreases |params|
  {
    var all := [param] + params;
    if params != [] {
      assert all[|all| - 1] == params[|params| - 1];
      assert all[..|all| - 1] == [param] + params[..|params| - 1];
      LastWeightPrepend(param, params[..|params| - 1], default, parse);
    } else {
      assert all == [param];
    }
  }

  lemma SplitStep(s: string, c: char)
    ensures var cut := Cut(s, c);
            Split(s, c) == if cut.found then [cut.before] + Split(cut.after, c) else [cut.before]
  {
  }

  lemma LastWeightStep(remaining: string, quality: real, parse: FloatParser)
    ensures var cut := Cut(remaining, ';');
            var next := match Weight(cut.before, parse) { case Some(q) => q case None => quality };
            LastWeight(Split(remaining, ';'), quality, parse)
            == if cut.found then LastWeight(Split(cut.after, ';'), next, parse) else next
  {
    SplitStep(remaining, ';');
    var cut := Cut(remaining, ';');
    LastWeightSingle(cut.before, quality, parse);
    if cut.found {
      LastWeightPrepend(cut.before, Split(cut.after, ';'), quality, parse);
    }
  }

  lemma LastWeightSingle(param: string, quality: real, parse: FloatParser)
    ensures LastWeight([param], quality, parse)
         == match Weight(param, parse) { case Some(q) => q case None => quality }
  {
    assert [param][..0] == [];
  }

  lemma EntriesStep(remaining: string, f: EntryParser)
    ensures var cut := Cut(remaining, ',');
            Entries(remaining, f)
            == (if f(cut.before).Some? then [f(cut.before).value] else [])
             + if cut.found then Entries(cut.after, f) else []
  {
    SplitStep(remaining, ',');
    var cut := Cut(remaining, ',');
    var values := Mapped(Split(remaining, ','), f);
    var rest := if cut.found then Mapped(Split(cut.after, ','), f) else [];
    assert values[0] == f(cut.before);
    assert values[1..] == rest;
    assert Entries(remaining, f) == Present(values);
    assert Present<AcceptEntry>([]) == [];
  }

  // ---- The loops -----------------------------------------------------------

  method ParseAcceptQuality(params: string, parse: FloatParser) returns (quality: real)
    ensures quality == LastWeight(Split(params, ';'), 1.0, parse)
  {
    if IsBlank(params) {
      BlankIsAllSpace(params);
      BlankPartsAreBlank(params, ';');
      LastWeightSingle(params, 1.0, parse);
      return 1.0;
    }
    quality := 1.0;
    var remaining := params;
    ghost var meaning := LastWeight(Split(params, ';'), 1.0, parse);
    var more := true;
    while more
      invariant if more then LastWeight(Split(remaining, ';'), quality, parse) == meaning else quality == meaning
      decreases more, |remaining|
    {
      LastWeightStep(remaining, quality, parse);
      var cut := Cut(remaining, ';');
      var param := TrimSpace(cut.before);
      var pair := Cut(param, '=');
      if pair.found && EqualFold(TrimSpace(pair.before), "q") {
        quality := ClampAcceptQuality(pair.after, parse);
      }
      more, remaining := cut.found, cut.after;
    }
  }

  method ParseAcceptEntry(rawPart: string, parse: FloatParser) returns (entry: Option<AcceptEntry>)
    ensures entry == Entry(rawPart, parse)
  {
    var part := TrimSpace(rawPart);
    if part == "" {
      return None;
    }
    var cut := Cut(part, ';');
    var token := TrimLower(cut.before);
    if token == "" {
      return None;
    }
    var quality := ParseAcceptQuality(cut.after, parse);
    entry := Some(AcceptEntry(token, quality));
  }

  /** The Cut loop visits the comma-separated parts in order, none lost and none twice.
      The parser of one part is a parameter; ParseAcceptEntry is its imperative form. */
  method ForEachAcceptEntry(header: string, parseEntry: EntryParser)
    returns (entries: seq<AcceptEntry>)
    ensures entries == Entries(header, parseEntry)
  {
    entries := [];
    var remaining := header;
    var more := true;
    ghost var ahead := Entries(header, parseEntry);
    while more
      invariant entries + ahead == Entries(header, parseEntry)
      invariant ahead == if more then Entries(remaining, parseEntry) else []
      decreases more, |remaining|
    {
      EntriesStep(remaining, parseEntry);
      var cut := Cut(remaining, ',');
      var entry := parseEntry(cut.before);
      if entry.Some? {
        entries := entries + [entry.value];
        ahead := ahead[1..];
      }
      more, remaining := cut.found, cut.after;
    }
  }

  // ---- What a weight is ---------------------------------------------------------------------

  /** Equal but for the case of letters. */
  lemma EqualFoldIff(a: string, b: string)
    ensures EqualFold(a, b) <==> |a| == |b| && forall i :: 0 <= i < |a| ==> SameLetter(a[i], b[i])
  {
    if EqualFold(a, b) {
      forall i | 0 <= i < |a| ensures SameLetter(a[i], b[i]) {
        assert ToLower(a)[i] == ToLower(b)[i];
      }
    }
    if |a| == |b| && forall i :: 0 <= i < |a| ==> SameLetter(a[i], b[i]) {
      assert forall i :: 0 <= i < |a| ==> ToLower(a)[i] == ToLower(b)[i];
    }
  }

  predicate SameLetter(c: char, d: char) {
    || c == d
    || ('A' <= c <= 'Z' && d as int == c as int + 32)
    || ('A' <= d <= 'Z' && c as int == d as int + 32)
  }

  /** The number nearest to q between 0 and 1. */
  predicate IsNearestWeight(q: real, w: real) {
    0.0 <= w <= 1.0 && (w < q ==> w == 1.0) && (w > q ==> w == 0.0)
  }

  /** An unreadable weight counts as 1, a readable one is brought between 0 and 1. */
  lemma ClampIff(raw: string, parse: FloatParser, w: real)
    ensures ClampAcceptQuality(raw, parse) == w <==>
            match parse(TrimSpace(raw)) case None => w == 1.0 case Some(q) => IsNearestWeight(q, w)
  {
  }

  predicate NamesWeight(param: string, name: string, value: string) {
    param == name + ['='] + value && '=' !in name && (TrimSpace(name) == "q" || TrimSpace(name) == "Q")
  }

  predicate Halves(part: string, name: string, params: string) {
    part == name + [';'] + params && ';' !in name
  }

  /** A parameter is a weight exactly when it is "q" or "Q", an equals sign and a value, white space aside. */
  lemma WeightIff(param: string, parse: FloatParser, w: real)
    ensures Weight(param, parse) == Some(w) <==>
            exists name, value :: NamesWeight(TrimSpace(param), name, value) && ClampAcceptQuality(value, parse) == w
  {
    var trimmed := TrimSpace(param);
    var cut := Cut(trimmed, '=');
    EqualFoldIff(TrimSpace(cut.before), "q");
    if cut.found {
      assert trimmed == cut.before + ['='] + cut.after;
      FoldedQ(TrimSpace(cut.before));
    }
    forall name, value | NamesWeight(trimmed, name, value) ensures cut == Parts(name, value, true) {
      IndexOfFirst(name, value, '=');
      assert trimmed[..|name|] == name && trimmed[|name| + 1..] == value;
    }
    if cut.found && EqualFold(TrimSpace(cut.before), "q") {
      assert NamesWeight(trimmed, cut.before, cut.after);
    }
  }

  lemma FoldedQ(name: string)
    ensures EqualFold(name, "q") <==> name == "q" || name == "Q"
  {
    EqualFoldIff(name, "q");
  }

  /** An entry has the media range or coding before the first semicolon, trimmed and in lower
      case, and the last weight of the parameters after it. */
  lemma EntryIff(part: string, parse: FloatParser, e: AcceptEntry)
    ensures Entry(part, parse) == Some(e) <==>
            && e.token != ""
            && ((';' !in TrimSpace(part) && e == AcceptEntry(ToLower(TrimSpace(TrimSpace(part))), 1.0))
                || exists name, params :: Halves(TrimSpace(part), name, params)
                     && e == AcceptEntry(ToLower(TrimSpace(name)), LastWeight(Split(params, ';'), 1.0, parse)))
  {
    var trimmed := TrimSpace(part);
    var cut := Cut(trimmed, ';');
    if cut.found {
      assert Halves(trimmed, cut.before, cut.after);
    } else {
      NoParameters(parse);
      EmptyIsBlank();
    }
    forall name, params | Halves(trimmed, name, params) ensures cut == Parts(name, params, true) {
      IndexOfFirst(name, params, ';');
      assert trimmed[..|name|] == name && trimmed[|name| + 1..] == params;
    }
  }

  lemma EmptyIsBlank()
    ensures TrimSpace("") == "" && ToLower("") == ""
  {
  }

  lemma NoParameters(parse: FloatParser)
    ensures LastWeight(Split("", ';'), 1.0, parse) == 1.0
  {
    SplitWhole("", ';');
    LastWeightSingle("", 1.0, parse);
    EmptyIsBlank();
    NoWeightWithoutEquals("", parse);
  }

  predicate NoneWeighs(params: seq<string>, from: nat, parse: FloatParser) {
    forall j :: from <= j < |params| ==> Weight(params[j], parse) == None
  }

  /** w is the last weight among the parameters, or 1 if there is none. */
  predicate IsLastWeight(params: seq<string>, parse: FloatParser, w: real) {
    || (NoneWeighs(params, 0, parse) && w == 1.0)
    || exists i :: 0 <= i < |params| && Weight(params[i], parse) == Some(w) && NoneWeighs(params, i + 1, parse)
  }

  lemma LastWeightFront(params: seq<string>, parse: FloatParser, w: real)
    requires params != []
    ensures var n := |params| - 1;
            IsLastWeight(params, parse, w) <==>
              if Weight(params[n], parse).Some? then Weight(params[n], parse) == Some(w) else IsLastWeight(params[..n], parse, w)
  {
    var n := |params| - 1;
    var front := params[..n];
    if Weight(params[n], parse) == None {
      assert forall i: nat :: i <= n ==> (NoneWeighs(params, i, parse) <==> NoneWeighs(front, i, parse));
      forall i | 0 <= i < n ensures front[i] == params[i] {
      }
    } else if Weight(params[n], parse) == Some(w) {
      assert NoneWeighs(params, n + 1, parse);
    }
  }

  /** Of several weights the last one counts. */
  lemma {:induction false} LastWeightIff(params: seq<string>, parse: FloatParser, w: real)
    ensures LastWeight(params, 1.0, parse) == w <==> IsLastWeight(params, parse, w)
    decreases |params|
  {
    if params != [] {
      LastWeightFront(params, parse, w);
      LastWeightIff(params[..|params| - 1], parse, w);
    }
  }
}
