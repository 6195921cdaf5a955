/** Adding up the sizes in a map. */
module SizedMaps {
  ghost function AnyKey<V>(m: map<string, V>): (k: string)
    requires |m| > 0
    ensures k in m
  {
    var k :| k in m;
    k
  }

  lemma WithoutOne<V>(m: map<string, V>, k: string)
    requires k in m
    ensures |m - {k}| == |m| - 1
  {
    assert (m - {k}).Keys == m.Keys - {k};
    assert |m.Keys| == |m|;
    assert |(m - {k}).Keys| == |m - {k}|;
  }

  ghost function Sum<V>(m: map<string, V>, size: V -> nat): nat {
    if |m| == 0 then 0
    else
      var k := AnyKey(m);
      WithoutOne(m, k);
      size(m[k]) + Sum(m - {k}, size)
  }

  /** The order of adding does not matter. */
  lemma {:induction false} SumWithout<V>(m: map<string, V>, size: V -> nat, k: string)
    requires k in m
    ensures |m - {k}| == |m| - 1
    ensures Sum(m, size) == size(m[k]) + Sum(m - {k}, size)
    decreases |m|
  {
    WithoutOne(m, k);
    var q := AnyKey(m);
    if q != k {
      WithoutOne(m, q);
      SumWithout(m - {q}, size, k);
      SumWithout(m - {k}, size, q);
      assert m - {q} - {k} == m - {k} - {q};
    }
  }

  /** What is left when some entries went. */
  ghost predicate Remains<V>(later: map<string, V>, earlier: map<string, V>) {
    later.Keys <= earlier.Keys && forall k :: k in later ==> later[k] == earlier[k]
  }

  lemma {:induction false} SumOfLess<V>(later: map<string, V>, earlier: map<string, V>, size: V -> nat)
    requires Remains(later, earlier)
    ensures |later| <= |earlier|
    ensures Sum(later, size) <= Sum(earlier, size)
    decreases |earlier|
  {
    if k :| k in earlier && k !in later {
      SumWithout(earlier, size, k);
      SumOfLess(later, earlier - {k}, size);
    } else {
      assert later == earlier;
    }
  }

  /** The entries of a map under these keys. */
  function Among<V>(m: map<string, V>, keys: set<string>): map<string, V> {
    map k | k in m && k in keys :: m[k]
  }

  function KeySet(keys: seq<string>): set<string> {
    set k | k in keys
  }

  predicate DistinctKeys(keys: seq<string>) {
    forall i, j :: 0 <= i < j < |keys| ==> keys[i] != keys[j]
  }

  function SumAt<V>(m: map<string, V>, size: V -> nat, keys: seq<string>): nat
    requires forall i :: 0 <= i < |keys| ==> keys[i] in m
  {
    if keys == [] then 0
    else SumAt(m, size, keys[..|keys| - 1]) + size(m[keys[|keys| - 1]])
  }

  /** Adding up at different keys, one after the other, adds up their entries. */
  lemma {:induction false} SumAtIsSum<V>(m: map<string, V>, size: V -> nat, keys: seq<string>)
    requires DistinctKeys(keys) && forall i :: 0 <= i < |keys| ==> keys[i] in m
    ensures SumAt(m, size, keys) == Sum(Among(m, KeySet(keys)), size)
    ensures |Among(m, KeySet(keys))| == |keys|
  {
    if keys == [] {
      assert |Among(m, KeySet(keys))| == 0;
    } else {
      var front, last := keys[..|keys| - 1], keys[|keys| - 1];
      SumAtIsSum(m, size, front);
      LastKey(keys);
      AmongOneMore(m, size, KeySet(front), last);
    }
  }

  lemma LastKey(keys: seq<string>)
    requires keys != [] && DistinctKeys(keys)
    ensures var front, last := keys[..|keys| - 1], keys[|keys| - 1];
            DistinctKeys(front) && last !in KeySet(front) && KeySet(keys) == KeySet(front) + {last}
  {
    var front, last := keys[..|keys| - 1], keys[|keys| - 1];
    assert forall k :: k in keys <==> k in front || k == last;
  }

  lemma AmongOneMore<V>(m: map<string, V>, size: V -> nat, keys: set<string>, last: string)
    requires last in m && last !in keys
    ensures |Among(m, keys + {last})| == |Among(m, keys)| + 1
    ensures Sum(Among(m, keys + {last}), size) == Sum(Among(m, keys), size) + size(m[last])
  {
    var all := Among(m, keys + {last});
    SumWithout(all, size, last);
    assert all - {last} == Among(m, keys);
  }

  lemma AmongIsLess<V>(m: map<string, V>, keys: set<string>, size: V -> nat)
    ensures |Among(m, keys)| <= |m| && Sum(Among(m, keys), size) <= Sum(m, size)
    ensures keys == m.Keys ==> Among(m, keys) == m
  {
    SumOfLess(Among(m, keys), m, size);
  }
}
