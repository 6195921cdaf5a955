/** Accept-Encoding negotiation (internal/resolver/accept_encoding.go).

    The source keeps the weights of the known codings in a record with a bit mask
    and the others in a map. Weights below is what that record means: a map from
    codings to weights, and the wildcard. */
module AcceptEncoding {
  import opened Basics
  import opened Accept
  import opened Sorting

  // ---- The meaning: a map of weights ---------------------------------------

  datatype Weights = Weights(explicit: map<string, real>, wildcard: Option<real>)

  const NO_WEIGHTS := Weights(map[], None)

  function Heavier(explicit: map<string, real>, token: string, q: real): map<string, real> {
    if token !in explicit || q > explicit[token] then explicit[token := q] else explicit
  }

  function Take(w: Weights, entry: AcceptEntry, supported: seq<string>): Weights {
    if entry.token == "*" then w.(wildcard := Some(entry.quality))
    else if entry.token in supported then w.(explicit := Heavier(w.explicit, entry.token, entry.quality))
    else w
  }

  function Collect(entries: seq<AcceptEntry>, supported: seq<string>): Weights {
    if entries == [] then NO_WEIGHTS
    else Take(Collect(entries[..|entries| - 1], supported), entries[|entries| - 1], supported)
  }

  /** The positive weight a header gives a coding: its own, else the wildcard's. */
  function Effective(w: Weights, encoding: string): Option<real> {
    var q := if encoding in w.explicit then Some(w.explicit[encoding]) else w.wildcard;
    if q.Some? && q.value > 0.0 then q else None
  }

  predicate Mentions(entries: seq<AcceptEntry>, token: string) {
    exists i :: 0 <= i < |entries| && entries[i].token == token
  }

  /** q is the largest weight an entry gives token. */
  predicate Largest(entries: seq<AcceptEntry>, token: string, q: real) {
    && (exists i :: 0 <= i < |entries| && entries[i] == AcceptEntry(token, q))
    && (forall i :: 0 <= i < |entries| && entries[i].token == token ==> entries[i].quality <= q)
  }

  /** q is the weight the last entry for token gives. */
  predicate Last(entries: seq<AcceptEntry>, token: string, q: real) {
    exists i :: 0 <= i < |entries| && entries[i] == AcceptEntry(token, q)
      && forall j :: i < j < |entries| ==> entries[j].token != token
  }

  lemma MentionsStep(before: seq<AcceptEntry>, last: AcceptEntry, t: string)
    ensures Mentions(before + [last], t) <==> Mentions(before, t) || last.token == t
  {
    var entries := before + [last];
    assert entries[|before|] == last;
    assert forall i :: 0 <= i < |before| ==> entries[i] == before[i];
    if Mentions(before, t) {
      var i :| 0 <= i < |before| && before[i].token == t;
      assert entries[i].token == t;
    }
  }

  lemma LargestStep(before: seq<AcceptEntry>, last: AcceptEntry, v: map<string, real>, t: string)
    requires t in v <==> Mentions(before, t)
    requires t in v ==> Largest(before, t, v[t])
    requires t in v || t == last.token
    ensures var w := if t == last.token then Heavier(v, t, last.quality) else v;
            Largest(before + [last], t, w[t])
  {
    var entries := before + [last];
    assert entries[|before|] == last;
    assert forall i :: 0 <= i < |before| ==> entries[i] == before[i];
    if t in v {
      var i :| 0 <= i < |before| && before[i] == AcceptEntry(t, v[t]);
      assert entries[i] == AcceptEntry(t, v[t]);
    } else {
      assert forall i :: 0 <= i < |before| ==> before[i].token != t;
    }
  }

  lemma LastStep(before: seq<AcceptEntry>, last: AcceptEntry, t: string, q: real)
    requires if last.token == t then last.quality == q else Last(before, t, q)
    ensures Last(before + [last], t, q)
  {
    var entries := before + [last];
    assert entries[|before|] == last;
    assert forall i :: 0 <= i < |before| ==> entries[i] == before[i];
    if last.token != t {
      var i :| 0 <= i < |before| && before[i] == AcceptEntry(t, q)
        && forall j :: i < j < |before| ==> before[j].token != t;
      assert entries[i] == AcceptEntry(t, q);
    }
  }

  lemma {:induction false} CollectMeaning(entries: seq<AcceptEntry>, supported: seq<string>)
    ensures var w := Collect(entries, supported);
            && (forall t :: t in w.explicit <==> t != "*" && t in supported && Mentions(entries, t))
            && (forall t :: t in w.explicit ==> Largest(entries, t, w.explicit[t]))
            && (w.wildcard.Some? <==> Mentions(entries, "*"))
            && (w.wildcard.Some? ==> Last(entries, "*", w.wildcard.value))
  {
    if entries != [] {
      var n := |entries| - 1;
      var before, last := entries[..n], entries[n];
      assert entries == before + [last];
      CollectMeaning(before, supported);
      var v, w := Collect(before, supported), Collect(entries, supported);
      assert w == Take(v, last, supported);
      forall t
        ensures Mentions(entries, t) <==> Mentions(before, t) || last.token == t
      {
        MentionsStep(before, last, t);
      }
      forall t | t in w.explicit
        ensures Largest(entries, t, w.explicit[t])
      {
        LargestStep(before, last, v.explicit, t);
      }
      if w.wildcard.Some? {
        LastStep(before, last, "*", w.wildcard.value);
      }
    }
  }

  // ---- The record with the bit mask ---------------------------------------

  const MASK_BR: bv8 := 1
  const MASK_ZSTD: bv8 := 2
  const MASK_GZIP: bv8 := 4
  const MASK_IDENTITY: bv8 := 8

  const DEFAULT_ENCODINGS: seq<string> := ["br", "zstd", "gzip"]

  function KnownEncodingMask(token: string): Option<bv8> {
    if token == "br" then Some(MASK_BR)
    else if token == "zstd" then Some(MASK_ZSTD)
    else if token == "gzip" then Some(MASK_GZIP)
    else if token == "identity" then Some(MASK_IDENTITY)
    else None
  }

  predicate Has(mask: bv8, value: bv8) {
    mask & value != 0
  }

  datatype EncodingSupport = EncodingSupport(values: seq<string>, known: bv8) {
    /** The mask says exactly which known codings are in the list. */
    predicate Valid() {
      && values != []
      && (Has(known, MASK_BR) <==> "br" in values)
      && (Has(known, MASK_ZSTD) <==> "zstd" in values)
      && (Has(known, MASK_GZIP) <==> "gzip" in values)
      && (Has(known, MASK_IDENTITY) <==> "identity" in values)
    }
  }

  method NewEncodingSupport(supported: seq<string>) returns (support: EncodingSupport)
    ensures support.Valid()
    ensures support.values == if supported == [] then DEFAULT_ENCODINGS else supported
  {
    var values := if supported == [] then DEFAULT_ENCODINGS else supported;
    var known: bv8 := 0;
    for i := 0 to |values|
      invariant Has(known, MASK_BR) <==> "br" in values[..i]
      invariant Has(known, MASK_ZSTD) <==> "zstd" in values[..i]
      invariant Has(known, MASK_GZIP) <==> "gzip" in values[..i]
      invariant Has(known, MASK_IDENTITY) <==> "identity" in values[..i]
    {
      var mask := KnownEncodingMask(values[i]);
      if mask.Some? {
        known := known | mask.value;
      }
      assert values[..i + 1] == values[..i] + [values[i]];
    }
    assert values[..|values|] == values;
    support := EncodingSupport(values, known);
  }

  predicate SingleMask(mask: bv8) {
    mask == MASK_BR || mask == MASK_ZSTD || mask == MASK_GZIP || mask == MASK_IDENTITY
  }

  lemma HasAfterOr(known: bv8, mask: bv8, other: bv8)
    requires SingleMask(mask) && SingleMask(other)
    ensures Has(known | mask, other) <==> Has(known, other) || other == mask
  {
  }

  class EncodingPreferences {
    var brQ: real
    var zstdQ: real
    var gzipQ: real
    var identityQ: real
    var known: bv8
    var extra: map<string, real>
    var wildcardQ: real
    var hasWildcard: bool

    /** What the record means. */
    ghost var weights: Weights

    ghost predicate Slot(mask: bv8, name: string, q: real)
      reads this
    {
      && (name in weights.explicit <==> Has(known, mask))
      && (name in weights.explicit ==> weights.explicit[name] == q)
    }

    ghost predicate Valid()
      reads this
    {
      && Slot(MASK_BR, "br", brQ)
      && Slot(MASK_ZSTD, "zstd", zstdQ)
      && Slot(MASK_GZIP, "gzip", gzipQ)
      && Slot(MASK_IDENTITY, "identity", identityQ)
      && (forall t :: t in extra ==> KnownEncodingMask(t) == None && t in weights.explicit)
      && (forall t :: t in extra ==> weights.explicit[t] == extra[t])
      && (forall t :: t in weights.explicit ==> t in extra || KnownEncodingMask(t).Some?)
      && weights.wildcard == if hasWildcard then Some(wildcardQ) else None
    }

    constructor ()
      ensures Valid() && weights == NO_WEIGHTS
    {
      brQ, zstdQ, gzipQ, identityQ := 0.0, 0.0, 0.0, 0.0;
      known, extra, wildcardQ, hasWildcard := 0, map[], 0.0, false;
      weights := NO_WEIGHTS;
    }

    function KnownQuality(mask: bv8): real
      reads this
    {
      if mask == MASK_BR then brQ
      else if mask == MASK_ZSTD then zstdQ
      else if mask == MASK_GZIP then gzipQ
      else if mask == MASK_IDENTITY then identityQ
      else 0.0
    }

    method SetKnownQuality(mask: bv8, q: real)
      modifies this`brQ, this`zstdQ, this`gzipQ, this`identityQ
      ensures brQ == if mask == MASK_BR then q else old(brQ)
      ensures zstdQ == if mask == MASK_ZSTD then q else old(zstdQ)
      ensures gzipQ == if mask == MASK_GZIP then q else old(gzipQ)
      ensures identityQ == if mask == MASK_IDENTITY then q else old(identityQ)
    {
      if mask == MASK_BR {
        brQ := q;
      } else if mask == MASK_ZSTD {
        zstdQ := q;
      } else if mask == MASK_GZIP {
        gzipQ := q;
      } else if mask == MASK_IDENTITY {
        identityQ := q;
      }
    }

    method MarkKnown(mask: bv8)
      requires SingleMask(mask)
      modifies this`known
      ensures Has(known, MASK_BR) <==> old(Has(known, MASK_BR)) || mask == MASK_BR
      ensures Has(known, MASK_ZSTD) <==> old(Has(known, MASK_ZSTD)) || mask == MASK_ZSTD
      ensures Has(known, MASK_GZIP) <==> old(Has(known, MASK_GZIP)) || mask == MASK_GZIP
      ensures Has(known, MASK_IDENTITY) <==> old(Has(known, MASK_IDENTITY)) || mask == MASK_IDENTITY
    {
      HasAfterOr(known, mask, MASK_BR);
      HasAfterOr(known, mask, MASK_ZSTD);
      HasAfterOr(known, mask, MASK_GZIP);
      HasAfterOr(known, mask, MASK_IDENTITY);
      known := known | mask;
    }

    method SetKnown(token: string, q: real)
      requires Valid() && KnownEncodingMask(token).Some?
      modifies this
      ensures Valid()
      ensures weights == old(weights).(explicit := Heavier(old(weights).explicit, token, q))
    {
      var mask := KnownEncodingMask(token).value;
      if Has(known, mask) && !(q > KnownQuality(mask)) {
        return;
      }
      MarkKnown(mask);
      SetKnownQuality(mask, q);
      weights := weights.(explicit := weights.explicit[token := q]);
    }

    method ApplyExtra(token: string, q: real)
      requires Valid() && KnownEncodingMask(token) == None
      modifies this
      ensures Valid()
      ensures weights == old(weights).(explicit := Heavier(old(weights).explicit, token, q))
    {
      if token !in extra || q > extra[token] {
        extra := extra[token := q];
        weights := weights.(explicit := weights.explicit[token := q]);
      }
    }

    method Apply(entry: AcceptEntry, support: EncodingSupport)
      requires Valid() && support.Valid()
      modifies this
      ensures Valid()
      ensures weights == Take(old(weights), entry, support.values)
    {
      var mask := KnownEncodingMask(entry.token);
      if entry.token == "*" {
        hasWildcard := true;
        wildcardQ := entry.quality;
        weights := weights.(wildcard := Some(wildcardQ));
      } else if mask.Some? {
        if Has(support.known, mask.value) {
          SetKnown(entry.token, entry.quality);
        }
      } else if entry.token in support.values {
        ApplyExtra(entry.token, entry.quality);
      }
    }

    function Quality(encoding: string): (q: Option<real>)
      requires Valid()
      reads this
      ensures q == Effective(weights, encoding)
    {
      var mask := KnownEncodingMask(encoding);
      if mask.Some? && Has(known, mask.value) then
        var q := KnownQuality(mask.value);
        if q > 0.0 then Some(q) else None
      else if encoding in extra then
        if extra[encoding] > 0.0 then Some(extra[encoding]) else None
      else if !hasWildcard || wildcardQ <= 0.0 then None
      else Some(wildcardQ)
    }
  }

  method CollectEncodingPreferences(entries: seq<AcceptEntry>, support: EncodingSupport)
    returns (prefs: EncodingPreferences)
    requires support.Valid()
    ensures fresh(prefs) && prefs.Valid()
    ensures prefs.weights == Collect(entries, support.values)
  {
    prefs := new EncodingPreferences();
    for i := 0 to |entries|
      invariant prefs.Valid() && fresh(prefs)
      invariant prefs.weights == Collect(entries[..i], support.values)
    {
      prefs.Apply(entries[i], support);
      assert entries[..i + 1][..i] == entries[..i];
    }
    assert entries[..|entries|] == entries;
  }

  // ---- Candidates in order --------------------------------------------------

  datatype Candidate = Candidate(encoding: string, q: real, priority: int)

  /** CompareQualityPriority(left, right) <= 0. */
  predicate Before(left: Candidate, right: Candidate) {
    if left.q == right.q then left.priority <= right.priority else left.q > right.q
  }

  function Names(candidates: seq<Candidate>): seq<string> {
    seq(|candidates|, i requires 0 <= i < |candidates| => candidates[i].encoding)
  }

  /** The candidates among the first n supported codings. */
  function Candidates(w: Weights, supported: seq<string>, n: nat): seq<Candidate>
    requires n <= |supported|
  {
    if n == 0 then []
    else
      var q := Effective(w, supported[n - 1]);
      Candidates(w, supported, n - 1)
      + if q.Some? then [Candidate(supported[n - 1], q.value, n - 1)] else []
  }

  function Negotiate(w: Weights, supported: seq<string>): seq<string> {
    Names(SortBy(Candidates(w, supported, |supported|), Before))
  }

  method BuildEncodingCandidates(prefs: EncodingPreferences, support: EncodingSupport) returns (encodings: seq<string>)
    requires prefs.Valid() && support.Valid()
    ensures encodings == Negotiate(prefs.weights, support.values)
  {
    var choices: seq<Candidate> := [];
    for i := 0 to |support.values|
      invariant choices == Candidates(prefs.weights, support.values, i)
    {
      var q := prefs.Quality(support.values[i]);
      if q.Some? {
        choices := choices + [Candidate(support.values[i], q.value, i)];
      }
    }
    if choices == [] {
      return [];
    }
    var sorted := SortBy(choices, Before);
    encodings := [];
    for i := 0 to |sorted|
      invariant encodings == Names(sorted[..i])
    {
      encodings := encodings + [sorted[i].encoding];
    }
    assert sorted[..|sorted|] == sorted;
  }

  function NegotiateHeader(header: string, supported: seq<string>, parseEntry: EntryParser): seq<string> {
    if IsBlank(header) then []
    else
      var values := if supported == [] then DEFAULT_ENCODINGS else supported;
      Negotiate(Collect(Entries(header, parseEntry), values), values)
  }

  /** parseAcceptEncodingWithSupport: nil and the empty list are both the empty sequence. */
  method ParseAcceptEncoding(header: string, supported: seq<string>, parseEntry: EntryParser)
    returns (encodings: seq<string>)
    ensures encodings == NegotiateHeader(header, supported, parseEntry)
  {
    if IsBlank(header) {
      return [];
    }
    var support := NewEncodingSupport(supported);
    var entries := ForEachAcceptEntry(header, parseEntry);
    var prefs := CollectEncodingPreferences(entries, support);
    encodings := BuildEncodingCandidates(prefs, support);
  }
}
