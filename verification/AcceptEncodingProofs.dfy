/** What Accept-Encoding negotiation returns, in terms of the header's entries
    (RFC 9110, sections 12.4.2 and 12.5.3), and that this determines the answer. */
module AcceptEncodingProofs {
  import opened Basics
  import opened Accept
  import opened Sorting
  import opened AcceptEncoding

  // ---- The rank of a coding ------------------------------------------------

  function Position(values: seq<string>, name: string): (i: nat)
    ensures i <= |values|
    ensures i < |values| ==> values[i] == name
    ensures forall k :: 0 <= k < i ==> values[k] != name
  {
    if values == [] || values[0] == name then 0 else 1 + Position(values[1..], name)
  }

  /** a is offered before b: heavier, or as heavy and earlier in the supported list. */
  predicate Precedes(w: Weights, supported: seq<string>, a: string, b: string) {
    var p, q := Effective(w, a), Effective(w, b);
    p.Some? && q.Some? && (p.value > q.value || (p.value == q.value && Position(supported, a) < Position(supported, b)))
  }

  ghost predicate IsNegotiated(r: seq<string>, w: Weights, supported: seq<string>) {
    && (forall e :: e in r <==> e in supported && Effective(w, e).Some?)
    && (forall i, j :: 0 <= i < j < |r| ==> Precedes(w, supported, r[i], r[j]))
  }

  /** The weight the header fields give a coding: the largest of its own entries,
      else the last wildcard's. */
  ghost predicate Weighs(entries: seq<AcceptEntry>, encoding: string, q: real) {
    if encoding != "*" && Mentions(entries, encoding) then Largest(entries, encoding, q)
    else Last(entries, "*", q)
  }

  lemma LargestIsUnique(entries: seq<AcceptEntry>, t: string, p: real, q: real)
    requires Largest(entries, t, p) && Largest(entries, t, q)
    ensures p == q
  {
  }

  lemma LastIsUnique(entries: seq<AcceptEntry>, t: string, p: real, q: real)
    requires Last(entries, t, p) && Last(entries, t, q)
    ensures p == q
  {
  }

  /** The weights the bit-mask record holds are the ones the entries give. */
  lemma EffectiveIsWeight(entries: seq<AcceptEntry>, supported: seq<string>, encoding: string, q: real)
    requires encoding in supported
    ensures Effective(Collect(entries, supported), encoding) == Some(q) <==> q > 0.0 && Weighs(entries, encoding, q)
  {
    CollectMeaning(entries, supported);
    var w := Collect(entries, supported);
    if encoding in w.explicit {
      if Largest(entries, encoding, q) {
        LargestIsUnique(entries, encoding, q, w.explicit[encoding]);
      }
    } else if Last(entries, "*", q) {
      var i :| 0 <= i < |entries| && entries[i] == AcceptEntry("*", q);
      assert Mentions(entries, "*");
      LastIsUnique(entries, "*", q, w.wildcard.value);
    }
  }

  // ---- The candidates --------------------------------------------------------

  predicate IsCandidate(c: Candidate, w: Weights, supported: seq<string>, n: nat)
    requires n <= |supported|
  {
    0 <= c.priority < n && c.encoding == supported[c.priority] && Effective(w, c.encoding) == Some(c.q)
  }

  lemma {:induction false} CandidatesMeaning(w: Weights, supported: seq<string>, n: nat)
    requires n <= |supported|
    ensures var cs := Candidates(w, supported, n);
            && (forall c :: c in cs <==> IsCandidate(c, w, supported, n))
            && Distinct(cs)
  {
    if n > 0 {
      CandidatesMeaning(w, supported, n - 1);
      var before, cs := Candidates(w, supported, n - 1), Candidates(w, supported, n);
      var q := Effective(w, supported[n - 1]);
      forall c
        ensures c in cs <==> IsCandidate(c, w, supported, n)
      {
        assert c in cs <==> c in before || (q.Some? && c == Candidate(supported[n - 1], q.value, n - 1));
      }
      assert forall i :: 0 <= i < |before| ==> before[i] in before;
    }
  }

  lemma BeforeIsTotal()
    ensures TotalPreorder(Before)
  {
  }

  lemma NegotiateMeaning(w: Weights, supported: seq<string>)
    requires Distinct(supported)
    ensures IsNegotiated(Negotiate(w, supported), w, supported)
  {
    var n := |supported|;
    var s := SortBy(Candidates(w, supported, n), Before);
    SortedCandidates(w, supported);
    NamesAreNegotiated(w, supported, s);
  }

  lemma SortedCandidates(w: Weights, supported: seq<string>)
    ensures AreCandidates(SortBy(Candidates(w, supported, |supported|), Before), w, supported)
  {
    var cs := Candidates(w, supported, |supported|);
    var s := SortBy(cs, Before);
    CandidatesMeaning(w, supported, |supported|);
    BeforeIsTotal();
    SortIsSortedPermutation(cs, Before);
    SameElements(s, cs);
    DistinctPermutation(cs, s);
  }

  ghost predicate AreCandidates(s: seq<Candidate>, w: Weights, supported: seq<string>) {
    SortedBy(s, Before) && Distinct(s) && forall c :: c in s <==> IsCandidate(c, w, supported, |supported|)
  }

  lemma NamesAreNegotiated(w: Weights, supported: seq<string>, s: seq<Candidate>)
    requires Distinct(supported) && AreCandidates(s, w, supported)
    ensures IsNegotiated(Names(s), w, supported)
  {
    var n := |supported|;
    var r := Names(s);
    forall e
      ensures e in r <==> e in supported && Effective(w, e).Some?
    {
      if e in r {
        var i :| 0 <= i < |r| && r[i] == e;
        assert s[i] in s;
      }
      if e in supported && Effective(w, e).Some? {
        var c := Candidate(e, Effective(w, e).value, Position(supported, e));
        assert IsCandidate(c, w, supported, n);
        assert c in s;
        var i :| 0 <= i < |s| && s[i] == c;
        assert r[i] == e;
      }
    }
    forall i, j | 0 <= i < j < |r|
      ensures Precedes(w, supported, r[i], r[j])
    {
      assert s[i] in s && s[j] in s;
      assert s[i].priority == Position(supported, r[i]) && s[j].priority == Position(supported, r[j]);
      assert Before(s[i], s[j]) && s[i] != s[j];
    }
  }

  lemma NegotiatedIsDistinct(r: seq<string>, w: Weights, supported: seq<string>)
    requires IsNegotiated(r, w, supported)
    ensures Distinct(r)
  {
    forall i, j | 0 <= i < j < |r|
      ensures r[i] != r[j]
    {
      assert Precedes(w, supported, r[i], r[j]);
    }
  }

  /** Membership and order leave one answer, whatever computed it. */
  lemma NegotiatedIsUnique(a: seq<string>, b: seq<string>, w: Weights, supported: seq<string>)
    requires IsNegotiated(a, w, supported) && IsNegotiated(b, w, supported)
    ensures a == b
  {
    NegotiatedIsDistinct(a, w, supported);
    NegotiatedIsDistinct(b, w, supported);
    DistinctSameElements(a, b);
    var leq := (x: string, y: string) => x == y || Precedes(w, supported, x, y);
    SortedIsUnique(a, b, leq);
  }

  /** The answer for a header is exactly the supported codings of positive weight,
      heavier first and the supported order among equals; a blank header gets none, and
      without configured codings the default ones are supported. */
  lemma HeaderNegotiation(header: string, configured: seq<string>, parseEntry: EntryParser)
    requires Distinct(configured)
    ensures var supported := if configured == [] then DEFAULT_ENCODINGS else configured;
            var entries := Entries(header, parseEntry);
            var w := Collect(entries, supported);
            var r := NegotiateHeader(header, configured, parseEntry);
            if IsBlank(header) then r == []
            else
              && IsNegotiated(r, w, supported)
              && (forall e :: e in r <==> e in supported && exists q :: q > 0.0 && Weighs(entries, e, q))
              && (forall e, q :: e in supported ==> (Effective(w, e) == Some(q) <==> q > 0.0 && Weighs(entries, e, q)))
  {
    var supported := if configured == [] then DEFAULT_ENCODINGS else configured;
    assert Distinct(DEFAULT_ENCODINGS);
    var entries := Entries(header, parseEntry);
    var w := Collect(entries, supported);
    NegotiateMeaning(w, supported);
    forall e, q | e in supported
      ensures Effective(w, e) == Some(q) <==> q > 0.0 && Weighs(entries, e, q)
    {
      EffectiveIsWeight(entries, supported, e, q);
    }
    forall e | e in supported
      ensures Effective(w, e).Some? <==> exists q :: q > 0.0 && Weighs(entries, e, q)
    {
      if Effective(w, e).Some? {
        assert Weighs(entries, e, Effective(w, e).value);
      }
    }
  }
}
