/** Sorting by a total order. The Go sources sort with comparators whose ties are
    only ever between equal elements, so the sorted list is determined by its
    elements (SortedIsUnique) and the algorithm behind it does not matter. */
module Sorting {

  predicate SortedBy<T>(s: seq<T>, leq: (T, T) -> bool) {
    forall i, j :: 0 <= i < j < |s| ==> leq(s[i], s[j])
  }

  ghost predicate TotalPreorder<T(!new)>(leq: (T, T) -> bool) {
    && (forall a, b :: leq(a, b) || leq(b, a))
    && (forall a, b, c :: leq(a, b) && leq(b, c) ==> leq(a, c))
  }

  /** Elements of s that tie are equal. */
  predicate Antisymmetric<T(==)>(s: seq<T>, leq: (T, T) -> bool) {
    forall i, j :: 0 <= i < |s| && 0 <= j < |s| && leq(s[i], s[j]) && leq(s[j], s[i]) ==> s[i] == s[j]
  }

  function Insert<T>(x: T, s: seq<T>, leq: (T, T) -> bool): seq<T> {
    if s == [] || leq(x, s[0]) then [x] + s else [s[0]] + Insert(x, s[1..], leq)
  }

  function SortBy<T>(s: seq<T>, leq: (T, T) -> bool): seq<T> {
    if s == [] then [] else Insert(s[0], SortBy(s[1..], leq), leq)
  }

  lemma {:induction false} InsertElements<T>(x: T, s: seq<T>, leq: (T, T) -> bool)
    ensures multiset(Insert(x, s, leq)) == multiset(s) + multiset{x}
  {
    if s != [] && !leq(x, s[0]) {
      InsertElements(x, s[1..], leq);
      assert s == [s[0]] + s[1..];
    }
  }

  lemma {:induction false} InsertSorted<T(!new)>(x: T, s: seq<T>, leq: (T, T) -> bool)
    requires TotalPreorder(leq) && SortedBy(s, leq)
    ensures SortedBy(Insert(x, s, leq), leq)
  {
    if s != [] && !leq(x, s[0]) {
      var rest := Insert(x, s[1..], leq);
      InsertSorted(x, s[1..], leq);
      InsertElements(x, s[1..], leq);
      forall i | 0 <= i < |rest|
        ensures leq(s[0], rest[i])
      {
        assert rest[i] in multiset(rest);
        if rest[i] != x {
          assert rest[i] in s[1..];
        }
      }
    } else if s != [] {
      forall i | 0 <= i < |s|
        ensures leq(x, s[i])
      {
        assert leq(s[0], s[i]) || i == 0;
      }
    }
  }

  lemma {:induction false} SortIsSortedPermutation<T(!new)>(s: seq<T>, leq: (T, T) -> bool)
    requires TotalPreorder(leq)
    ensures SortedBy(SortBy(s, leq), leq)
    ensures multiset(SortBy(s, leq)) == multiset(s)
  {
    if s != [] {
      SortIsSortedPermutation(s[1..], leq);
      InsertSorted(s[0], SortBy(s[1..], leq), leq);
      InsertElements(s[0], SortBy(s[1..], leq), leq);
      assert s == [s[0]] + s[1..];
    }
  }

  lemma SameElements<T>(a: seq<T>, b: seq<T>)
    requires multiset(a) == multiset(b)
    ensures |a| == |b|
    ensures forall x :: x in a <==> x in b
  {
    assert |multiset(a)| == |a| && |multiset(b)| == |b|;
    forall x ensures x in a <==> x in b {
      assert x in multiset(a) <==> x in multiset(b);
    }
  }

  lemma SameHead<T>(a: seq<T>, b: seq<T>, leq: (T, T) -> bool)
    requires a != [] && b != [] && a[0] in b && b[0] in a
    requires SortedBy(a, leq) && SortedBy(b, leq) && Antisymmetric(a, leq)
    ensures a[0] == b[0]
  {
    var i :| 0 <= i < |b| && b[i] == a[0];
    var j :| 0 <= j < |a| && a[j] == b[0];
    if i != 0 && j != 0 {
      assert leq(b[0], b[i]) && leq(a[0], a[j]);
    }
  }

  lemma DropHead<T>(a: seq<T>)
    requires a != []
    ensures multiset(a[1..]) == multiset(a) - multiset{a[0]}
  {
    assert a == [a[0]] + a[1..];
  }

  lemma {:induction false} SortedIsUnique<T>(a: seq<T>, b: seq<T>, leq: (T, T) -> bool)
    requires multiset(a) == multiset(b)
    requires SortedBy(a, leq) && SortedBy(b, leq) && Antisymmetric(a, leq)
    ensures a == b
    decreases |a|
  {
    SameElements(a, b);
    if a != [] {
      SameHead(a, b, leq);
      DropHead(a);
      DropHead(b);
      SortedIsUnique(a[1..], b[1..], leq);
      assert a == [a[0]] + a[1..] && b == [b[0]] + b[1..];
    }
  }

  // ---- Lists without repetition ------------------------------------------

  predicate Distinct<T(==)>(s: seq<T>) {
    forall i, j :: 0 <= i < j < |s| ==> s[i] != s[j]
  }

  lemma {:induction false} DistinctCounts<T>(s: seq<T>)
    requires Distinct(s)
    ensures forall x :: multiset(s)[x] == if x in s then 1 else 0
  {
    if s != [] {
      DistinctCounts(s[1..]);
      assert s == [s[0]] + s[1..];
      assert s[0] !in s[1..];
    }
  }

  lemma DistinctSameElements<T>(a: seq<T>, b: seq<T>)
    requires Distinct(a) && Distinct(b)
    requires forall x :: x in a <==> x in b
    ensures multiset(a) == multiset(b)
  {
    DistinctCounts(a);
    DistinctCounts(b);
  }

  lemma RepeatedCounts<T>(s: seq<T>, i: nat, j: nat)
    requires i < j < |s|
    ensures s[i] == s[j] ==> multiset(s)[s[i]] >= 2
  {
    assert s == s[..i] + [s[i]] + s[i + 1..j] + [s[j]] + s[j + 1..];
  }

  lemma DistinctPermutation<T>(a: seq<T>, b: seq<T>)
    requires Distinct(a) && multiset(a) == multiset(b)
    ensures Distinct(b)
  {
    DistinctCounts(a);
    forall i, j | 0 <= i < j < |b|
      ensures b[i] != b[j]
    {
      RepeatedCounts(b, i, j);
    }
  }
}
