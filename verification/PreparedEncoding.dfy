/** Encoding selection on a prepared route, and its short cut for headers without
    parameters (internal/server/prepared_select.go). */
module PreparedEncoding {
  import opened Basics
  import opened Accept
  import opened Sorting
  import opened AcceptEncoding
  import opened AcceptEncodingProofs

  /** The response of the first coding in the list that has one. */
  function FirstAvailable<R>(encodings: seq<string>, responses: map<string, R>): Option<R> {
    if encodings == [] then None
    else if encodings[0] in responses then Some(responses[encodings[0]])
    else FirstAvailable(encodings[1..], responses)
  }

  predicate ListsToken(header: string, token: string) {
    exists i :: 0 <= i < |Split(header, ',')| && EqualFold(TrimSpace(Split(header, ',')[i]), token)
  }

  method AcceptEncodingContainsToken(header: string, token: string) returns (found: bool)
    ensures found <==> ListsToken(header, token)
  {
    var remaining := header;
    ghost var parts, n := Split(header, ','), 0;
    var more := true;
    while more
      invariant n <= |parts|
      invariant forall i :: 0 <= i < n ==> !EqualFold(TrimSpace(parts[i]), token)
      invariant if more then parts[n..] == Split(remaining, ',') else n == |parts|
      decreases more, |remaining|
    {
      SplitStep(remaining, ',');
      var cut := Cut(remaining, ',');
      assert parts[n] == cut.before;
      if EqualFold(TrimSpace(cut.before), token) {
        return true;
      }
      assert parts[n + 1..] == parts[n..][1..];
      more, remaining, n := cut.found, cut.after, n + 1;
    }
    found := false;
  }

  /** The listed codings among the first n supported ones. */
  function Listed(header: string, supported: seq<string>, n: nat): seq<string>
    requires n <= |supported|
  {
    if n == 0 then []
    else Listed(header, supported, n - 1) + if ListsToken(header, supported[n - 1]) then [supported[n - 1]] else []
  }

  predicate Simple(header: string) {
    !IsBlank(header) && ';' !in header && '*' !in header
  }

  lemma {:induction false} FirstAvailableAppend<R>(a: seq<string>, b: seq<string>, responses: map<string, R>)
    ensures FirstAvailable(a + b, responses)
         == if FirstAvailable(a, responses).Some? then FirstAvailable(a, responses) else FirstAvailable(b, responses)
    decreases |a|
  {
    if a == [] {
      assert a + b == b;
    } else {
      assert (a + b)[1..] == a[1..] + b;
      FirstAvailableAppend(a[1..], b, responses);
    }
  }

  method SelectSimpleEncodingResponse<R>(header: string, responses: map<string, R>) returns (picked: Option<R>)
    ensures picked == if Simple(header) then FirstAvailable(Listed(header, DEFAULT_ENCODINGS, |DEFAULT_ENCODINGS|), responses) else None
  {
    if IsBlank(header) || ';' in header || '*' in header {
      return None;
    }
    picked := None;
    for i := 0 to 3
      invariant picked == FirstAvailable(Listed(header, DEFAULT_ENCODINGS, i), responses)
    {
      ghost var before := Listed(header, DEFAULT_ENCODINGS, i);
      var encoding := DEFAULT_ENCODINGS[i];
      FirstAvailableAppend(before, [encoding], responses);
      FirstAvailableAppend(before, [], responses);
      assert before + [] == before;
      assert [encoding][1..] == [];
      if picked == None {
        var listed := AcceptEncodingContainsToken(header, encoding);
        if listed && encoding in responses {
          picked := Some(responses[encoding]);
        }
      }
    }
  }

  // ---- The short cut answers as the full parse does ---------------------------

  lemma {:induction false} PresentMembers<T>(values: seq<Option<T>>)
    ensures forall x :: x in Present(values) <==> Some(x) in values
  {
    if values != [] {
      PresentMembers(values[1..]);
      assert values == [values[0]] + values[1..];
    }
  }

  lemma TrimTwice(s: string)
    ensures TrimSpace(TrimSpace(s)) == TrimSpace(s)
  {
    TrimSpaceIsTrimmed(s);
    TrimmedIsFixed(TrimSpace(s));
  }

  lemma TrimKeepsCharacters(s: string, c: char)
    requires c in TrimSpace(s)
    ensures c in s
  {
    var l := TrimLeft(s);
    TrimLeftMeaning(s);
    TrimRightMeaning(l);
    assert c in l;
  }

  lemma LowerStar(s: string)
    requires ToLower(s) == "*"
    ensures '*' in s
  {
    assert ToLower(s)[0] == LowerChar(s[0]);
    assert s[0] in s;
  }

  /** What ParseAcceptEntry makes of a part without parameters: the lower-case token
      with weight one. */
  function PlainEntry(part: string): Option<AcceptEntry> {
    if TrimSpace(part) == "" then None else Some(AcceptEntry(ToLower(TrimSpace(part)), 1.0))
  }

  ghost predicate PlainParts(parseEntry: EntryParser) {
    forall part: string :: ';' !in part ==> parseEntry(part) == PlainEntry(part)
  }

  lemma PlainEntryMeaning(part: string, parse: FloatParser)
    requires ';' !in part
    ensures Entry(part, parse) == PlainEntry(part)
  {
    var t := TrimSpace(part);
    if ';' in t {
      TrimKeepsCharacters(part, ';');
    }
    TrimTwice(part);
    assert Cut(t, ';') == Parts(t, "", false);
    SplitWhole("", ';');
    NoWeightWithoutEquals("", parse);
    LastWeightSingle("", 1.0, parse);
  }

  lemma EntryParserIsPlain(parse: FloatParser)
    ensures PlainParts(EntryParserFor(parse))
  {
    forall part: string | ';' !in part
      ensures EntryParserFor(parse)(part) == PlainEntry(part)
    {
      PlainEntryMeaning(part, parse);
    }
  }

  lemma {:induction false} PartsKeepCharacters(s: string, sep: char, c: char)
    requires c !in s
    ensures Free(Split(s, sep), c)
    decreases |s|
  {
    var cut := Cut(s, sep);
    SplitStep(s, sep);
    if cut.found {
      PartsKeepCharacters(cut.after, sep, c);
    }
  }

  lemma EntryMembers(parts: seq<string>, f: EntryParser)
    ensures forall e :: e in Present(Mapped(parts, f)) <==> exists i :: 0 <= i < |parts| && f(parts[i]) == Some(e)
  {
    var values := Mapped(parts, f);
    PresentMembers(values);
    forall e
      ensures Some(e) in values <==> exists i :: 0 <= i < |parts| && f(parts[i]) == Some(e)
    {
      if Some(e) in values {
        var i :| 0 <= i < |values| && values[i] == Some(e);
        assert f(parts[i]) == Some(e);
      }
      if i :| 0 <= i < |parts| && f(parts[i]) == Some(e) {
        assert values[i] == Some(e);
      }
    }
  }

  lemma SimpleEntriesWeigh(header: string, f: EntryParser, e: AcceptEntry)
    requires Simple(header) && PlainParts(f) && e in Entries(header, f)
    ensures e.quality == 1.0 && e.token != "*" && ListsToken(header, e.token)
  {
    var parts := Split(header, ',');
    PartsKeepCharacters(header, ',', ';');
    PartsKeepCharacters(header, ',', '*');
    EntryMembers(parts, f);
    var i :| 0 <= i < |parts| && f(parts[i]) == Some(e);
    assert parts[i] in parts;
    var t := TrimSpace(parts[i]);
    assert e == AcceptEntry(ToLower(t), 1.0);
    if '*' in t {
      TrimKeepsCharacters(parts[i], '*');
    }
    LowerTwice(t);
    if e.token == "*" {
      LowerStar(t);
    }
  }

  lemma LowerTwice(s: string)
    ensures ToLower(ToLower(s)) == ToLower(s)
  {
  }

  lemma ListedTokenIsEntry(header: string, f: EntryParser, t: string)
    requires ';' !in header && PlainParts(f)
    requires t != "" && ToLower(t) == t && ListsToken(header, t)
    ensures AcceptEntry(t, 1.0) in Entries(header, f)
  {
    var parts := Split(header, ',');
    var i :| 0 <= i < |parts| && EqualFold(TrimSpace(parts[i]), t);
    PartsKeepCharacters(header, ',', ';');
    assert parts[i] in parts;
    MatchingPart(parts[i], f, t);
    EntryMembers(parts, f);
  }

  lemma MatchingPart(part: string, f: EntryParser, t: string)
    requires ';' !in part && PlainParts(f)
    requires t != "" && ToLower(t) == t && EqualFold(TrimSpace(part), t)
    ensures f(part) == Some(AcceptEntry(t, 1.0))
  {
    assert |ToLower(TrimSpace(part))| == |TrimSpace(part)|;
    assert f(part) == PlainEntry(part);
  }

  /** When every entry weighs one and none is a wildcard, a coding weighs one or nothing. */
  lemma UniformWeight(entries: seq<AcceptEntry>, supported: seq<string>, e: string)
    requires forall i :: 0 <= i < |entries| ==> entries[i].quality == 1.0 && entries[i].token != "*"
    requires e in supported && e != "*"
    ensures Effective(Collect(entries, supported), e) == if AcceptEntry(e, 1.0) in entries then Some(1.0) else None
  {
    CollectMeaning(entries, supported);
    assert Mentions(entries, e) <==> AcceptEntry(e, 1.0) in entries;
  }

  lemma SimpleEntriesAreUniform(header: string, f: EntryParser)
    requires Simple(header) && PlainParts(f)
    ensures forall e :: e in Entries(header, f) ==> e.quality == 1.0 && e.token != "*" && ListsToken(header, e.token)
  {
    forall e | e in Entries(header, f)
      ensures e.quality == 1.0 && e.token != "*" && ListsToken(header, e.token)
    {
      SimpleEntriesWeigh(header, f, e);
    }
  }

  lemma SimpleWeight(header: string, f: EntryParser, supported: seq<string>, e: string)
    requires Simple(header) && PlainParts(f)
    requires e in supported && e != "" && e != "*" && ToLower(e) == e
    ensures Effective(Collect(Entries(header, f), supported), e) == if ListsToken(header, e) then Some(1.0) else None
  {
    SimpleEntriesAreUniform(header, f);
    UniformWeight(Entries(header, f), supported, e);
    if ListsToken(header, e) {
      ListedTokenIsEntry(header, f, e);
    }
  }

  /** A support list in the form the parser compares tokens with. */
  predicate PlainNames(supported: seq<string>) {
    supported != [] && Distinct(supported)
    && forall e :: e in supported ==> e != "" && e != "*" && ToLower(e) == e
  }

  lemma DefaultsArePlain()
    ensures PlainNames(DEFAULT_ENCODINGS)
  {
    assert ToLower("br") == "br" && ToLower("zstd") == "zstd" && ToLower("gzip") == "gzip";
  }

  lemma {:induction false} ListedMeaning(header: string, supported: seq<string>, n: nat)
    requires n <= |supported| && Distinct(supported)
    ensures var r := Listed(header, supported, n);
            && (forall e :: e in r <==> e in supported[..n] && ListsToken(header, e))
            && (forall i, j :: 0 <= i < j < |r| ==> Position(supported, r[i]) < Position(supported, r[j]))
  {
    if n > 0 {
      var before, r := Listed(header, supported, n - 1), Listed(header, supported, n);
      ListedMeaning(header, supported, n - 1);
      assert supported[..n] == supported[..n - 1] + [supported[n - 1]];
      assert Position(supported, supported[n - 1]) == n - 1;
      forall i | 0 <= i < |before|
        ensures Position(supported, before[i]) < n - 1
      {
        assert before[i] in before;
        assert before[i] in supported[..n - 1];
      }
    }
  }

  /** Codings of one weight in the supported order are a negotiated list. */
  lemma UniformOrder(r: seq<string>, w: Weights, supported: seq<string>)
    requires forall e :: e in r ==> e in supported
    requires forall e :: e in supported ==> Effective(w, e) == if e in r then Some(1.0) else None
    requires forall i, j :: 0 <= i < j < |r| ==> Position(supported, r[i]) < Position(supported, r[j])
    ensures IsNegotiated(r, w, supported)
  {
    assert forall i :: 0 <= i < |r| ==> r[i] in r;
  }

  lemma SimpleNegotiated(header: string, f: EntryParser, supported: seq<string>)
    requires Simple(header) && PlainParts(f) && PlainNames(supported)
    ensures IsNegotiated(Listed(header, supported, |supported|), Collect(Entries(header, f), supported), supported)
  {
    var w := Collect(Entries(header, f), supported);
    var r := Listed(header, supported, |supported|);
    ListedMeaning(header, supported, |supported|);
    assert supported[..|supported|] == supported;
    forall e | e in supported
      ensures Effective(w, e) == if e in r then Some(1.0) else None
    {
      SimpleWeight(header, f, supported, e);
    }
    UniformOrder(r, w, supported);
  }

  lemma NegotiatedHeader(header: string, f: EntryParser, supported: seq<string>, r: seq<string>)
    requires !IsBlank(header) && supported != [] && Distinct(supported)
    requires IsNegotiated(r, Collect(Entries(header, f), supported), supported)
    ensures NegotiateHeader(header, supported, f) == r
  {
    var w := Collect(Entries(header, f), supported);
    NegotiateMeaning(w, supported);
    NegotiatedIsUnique(r, Negotiate(w, supported), w, supported);
  }

  /** For a header without parameters or wildcard the full parse returns the listed
      codings in the supported order. */
  lemma SimpleNegotiation(header: string, f: EntryParser, supported: seq<string>)
    requires Simple(header) && PlainParts(f) && PlainNames(supported)
    ensures NegotiateHeader(header, supported, f) == Listed(header, supported, |supported|)
  {
    SimpleNegotiated(header, f, supported);
    NegotiatedHeader(header, f, supported, Listed(header, supported, |supported|));
  }

  /** selectEncodingResponse: range requests get the identity, else the short cut and
      then the full parse. */
  method SelectEncodingResponse<R>(header: string, rangeRequested: bool, responses: map<string, R>, parseEntry: EntryParser)
    returns (picked: Option<R>)
    requires PlainParts(parseEntry)
    ensures picked == if rangeRequested then None
                      else FirstAvailable(NegotiateHeader(header, DEFAULT_ENCODINGS, parseEntry), responses)
  {
    if rangeRequested || responses == map[] {
      NothingAvailable(NegotiateHeader(header, DEFAULT_ENCODINGS, parseEntry), responses);
      return None;
    }
    picked := SelectSimpleEncodingResponse(header, responses);
    if Simple(header) {
      DefaultsArePlain();
      SimpleNegotiation(header, parseEntry, DEFAULT_ENCODINGS);
    }
    if picked.Some? {
      return;
    }
    var encodings := ParseAcceptEncoding(header, DEFAULT_ENCODINGS, parseEntry);
    picked := PickFirst(encodings, responses);
  }

  method PickFirst<R>(encodings: seq<string>, responses: map<string, R>) returns (picked: Option<R>)
    ensures picked == FirstAvailable(encodings, responses)
  {
    for i := 0 to |encodings|
      invariant FirstAvailable(encodings[i..], responses) == FirstAvailable(encodings, responses)
    {
      assert encodings[i..][1..] == encodings[i + 1..];
      if encodings[i] in responses {
        return Some(responses[encodings[i]]);
      }
    }
    picked := None;
  }

  lemma {:induction false} NothingAvailable<R>(encodings: seq<string>, responses: map<string, R>)
    ensures responses == map[] ==> FirstAvailable(encodings, responses) == None
    decreases |encodings|
  {
    if encodings != [] {
      NothingAvailable(encodings[1..], responses);
    }
  }
}
