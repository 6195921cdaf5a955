/** Choosing an image variant by width: the prepared picker's binary search
    (internal/server/prepared_model.go) and the resolver's linear scan
    (internal/resolver/variant_selection.go). */
module ImagePicker {
  import opened Basics
  import opened Sorting
  import opened CatalogRecords

  /** v is the narrowest at least as wide as asked, or the widest when none is. */
  ghost predicate Closest(vs: set<Variant>, width: int, v: Variant) {
    && v in vs
    && (if exists u :: u in vs && u.width >= width
        then v.width >= width && forall u :: u in vs && u.width >= width ==> v.width <= u.width
        else forall u :: u in vs ==> u.width <= v.width)
  }

  ghost predicate DistinctWidths(vs: set<Variant>) {
    forall u, v :: u in vs && v in vs && u.width == v.width ==> u == v
  }

  lemma ClosestIsUnique(vs: set<Variant>, width: int, u: Variant, v: Variant)
    requires DistinctWidths(vs) && Closest(vs, width, u) && Closest(vs, width, v)
    ensures u == v
  {
  }

  lemma {:induction false} NarrowestExists(vs: set<Variant>) returns (v: Variant)
    requires vs != {}
    ensures v in vs && forall u :: u in vs ==> v.width <= u.width
    decreases vs
  {
    v :| v in vs;
    if vs - {v} != {} {
      var u := NarrowestExists(vs - {v});
      v := if u.width < v.width then u else v;
    }
  }

  lemma {:induction false} WidestExists(vs: set<Variant>) returns (v: Variant)
    requires vs != {}
    ensures v in vs && forall u :: u in vs ==> u.width <= v.width
    decreases vs
  {
    v :| v in vs;
    if vs - {v} != {} {
      var u := WidestExists(vs - {v});
      v := if u.width > v.width then u else v;
    }
  }

  lemma ClosestExists(vs: set<Variant>, width: int)
    requires vs != {}
    ensures exists v :: Closest(vs, width, v)
  {
    var above := set u | u in vs && u.width >= width;
    if above != {} {
      var v := NarrowestExists(above);
      assert Closest(vs, width, v);
    } else {
      var v := WidestExists(vs);
      assert forall u :: u in vs ==> u !in above;
      assert Closest(vs, width, v);
    }
  }

  // ---- The linear scan ---------------------------------------------------------

  function UpdateWidthMatches(candidate: Variant, width: int, above: Option<Variant>, below: Option<Variant>)
    : (Option<Variant>, Option<Variant>)
  {
    if candidate.width >= width then
      (if above == None || candidate.width < above.value.width then Some(candidate) else above, below)
    else
      (above, if below == None || candidate.width > below.value.width then Some(candidate) else below)
  }

  ghost predicate SmallestAbove(vs: set<Variant>, width: int, above: Option<Variant>) {
    if above == None then forall u :: u in vs ==> u.width < width
    else above.value in vs && above.value.width >= width
         && forall u :: u in vs && u.width >= width ==> above.value.width <= u.width
  }

  ghost predicate LargestBelow(vs: set<Variant>, width: int, below: Option<Variant>) {
    if below == None then forall u :: u in vs ==> u.width >= width
    else below.value in vs && below.value.width < width
         && forall u :: u in vs && u.width < width ==> u.width <= below.value.width
  }

  /** The scan's two variables after the candidates vs. */
  ghost predicate Scanned(vs: set<Variant>, width: int, above: Option<Variant>, below: Option<Variant>) {
    SmallestAbove(vs, width, above) && LargestBelow(vs, width, below)
  }

  lemma ScanStep(vs: set<Variant>, width: int, above: Option<Variant>, below: Option<Variant>, v: Variant)
    requires Scanned(vs, width, above, below)
    ensures var next := UpdateWidthMatches(v, width, above, below);
            Scanned(vs + {v}, width, next.0, next.1)
  {
  }

  lemma ScanPicksClosest(vs: set<Variant>, width: int, above: Option<Variant>, below: Option<Variant>)
    requires Scanned(vs, width, above, below)
    ensures var picked := if above.Some? then above else below;
            (picked == None <==> vs == {}) && (picked.Some? ==> Closest(vs, width, picked.value))
  {
  }

  function Elements(s: seq<Variant>): set<Variant> {
    set v | v in s
  }

  // ---- The sorted list and its binary search ------------------------------------

  /** comparePreparedImageResponses(left, right) <= 0. */
  predicate ImageLeq(a: Variant, b: Variant) {
    if a.format != b.format then StringLeq(a.format, b.format)
    else if a.width != b.width then a.width < b.width
    else StringLeq(a.id, b.id)
  }

  datatype Picker = Picker(widths: seq<int>, responses: seq<Variant>)

  function NonNegative(responses: seq<Variant>): seq<Variant> {
    if responses == [] then []
    else (if responses[0].width < 0 then [] else [responses[0]]) + NonNegative(responses[1..])
  }

  /** The first response of each width. */
  function UniqueByWidth(responses: seq<Variant>): seq<Variant> {
    if responses == [] then []
    else
      var before := UniqueByWidth(responses[..|responses| - 1]);
      var last := responses[|responses| - 1];
      if exists i :: 0 <= i < |before| && before[i].width == last.width then before else before + [last]
  }

  function Widths(responses: seq<Variant>): seq<int> {
    seq(|responses|, i requires 0 <= i < |responses| => responses[i].width)
  }

  function NewImagePicker(responses: seq<Variant>): Option<Picker> {
    var candidates := UniqueByWidth(NonNegative(responses));
    if candidates == [] then None else Some(Picker(Widths(candidates), candidates))
  }

  /** sort.SearchInts between i and j. */
  function Search(widths: seq<int>, x: int, i: nat, j: nat): nat
    requires i <= j <= |widths|
    decreases j - i
  {
    if i == j then i
    else
      var h := (i + j) / 2;
      if widths[h] < x then Search(widths, x, h + 1, j) else Search(widths, x, i, h)
  }

  function PickClosest(p: Picker, width: int): Option<Variant>
    requires |p.widths| == |p.responses|
  {
    if width <= 0 || p.widths == [] then None
    else
      var index := Search(p.widths, width, 0, |p.widths|);
      if index < |p.responses| then Some(p.responses[index]) else Some(p.responses[|p.responses| - 1])
  }

  // ---- The search finds the right width exactly on increasing lists -----------------

  predicate Increasing(widths: seq<int>) {
    forall i, j :: 0 <= i < j < |widths| ==> widths[i] < widths[j]
  }

  /** On any list, the search stops between a smaller and a no smaller element. */
  lemma {:induction false} SearchBoundary(widths: seq<int>, x: int, i: nat, j: nat)
    requires i <= j <= |widths|
    ensures var r := Search(widths, x, i, j);
            i <= r <= j && (i < r ==> widths[r - 1] < x) && (r < j ==> widths[r] >= x)
    decreases j - i
  {
    if i < j {
      var h := (i + j) / 2;
      if widths[h] < x {
        SearchBoundary(widths, x, h + 1, j);
      } else {
        SearchBoundary(widths, x, i, h);
      }
    }
  }

  lemma {:induction false} AdjacentIncreasing(widths: seq<int>, i: nat, j: nat)
    requires forall k :: 0 < k < |widths| ==> widths[k - 1] < widths[k]
    requires i < j < |widths|
    ensures widths[i] < widths[j]
  {
    assert widths[j - 1] < widths[j];
    if i < j - 1 {
      AdjacentIncreasing(widths, i, j - 1);
    }
  }

  /** Every element is found at its own place if and only if the list is increasing. */
  lemma SearchFindsAllIffIncreasing(widths: seq<int>)
    ensures (forall k :: 0 <= k < |widths| ==> Search(widths, widths[k], 0, |widths|) == k) <==> Increasing(widths)
  {
    if Increasing(widths) {
      forall k | 0 <= k < |widths|
        ensures Search(widths, widths[k], 0, |widths|) == k
      {
        SearchBoundary(widths, widths[k], 0, |widths|);
      }
    }
    if forall k :: 0 <= k < |widths| ==> Search(widths, widths[k], 0, |widths|) == k {
      forall k | 0 < k < |widths|
        ensures widths[k - 1] < widths[k]
      {
        SearchBoundary(widths, widths[k], 0, |widths|);
        assert Search(widths, widths[k], 0, |widths|) == k;
      }
      forall i, j | 0 <= i < j < |widths|
        ensures widths[i] < widths[j]
      {
        AdjacentIncreasing(widths, i, j);
      }
    }
  }

  /** The response at the boundary of an increasing list is the closest one. */
  lemma BoundaryIsClosest(responses: seq<Variant>, width: int, at: nat)
    requires at < |responses|
    requires forall k :: 0 <= k < at ==> responses[k].width < width
    requires forall k :: at < k < |responses| ==> responses[at].width < responses[k].width
    requires responses[at].width >= width || (at == |responses| - 1 && forall k :: 0 <= k < at ==> responses[k].width < responses[at].width)
    ensures Closest(Elements(responses), width, responses[at])
  {
    var vs := Elements(responses);
    assert responses[at] in vs;
    forall u | u in vs
      ensures if responses[at].width >= width then u.width >= width ==> responses[at].width <= u.width
              else u.width <= responses[at].width && u.width < width
    {
      var k :| 0 <= k < |responses| && responses[k] == u;
    }
  }

  lemma IncreasingPicksClosest(responses: seq<Variant>, width: int)
    requires responses != [] && width > 0 && Increasing(Widths(responses))
    ensures Closest(Elements(responses), width, PickClosest(Picker(Widths(responses), responses), width).value)
  {
    var widths := Widths(responses);
    var index := Search(widths, width, 0, |widths|);
    SearchBoundary(widths, width, 0, |widths|);
    IncreasingBoundary(responses, width, index);
  }

  lemma IncreasingBoundary(responses: seq<Variant>, width: int, index: nat)
    requires responses != [] && Increasing(Widths(responses)) && index <= |responses|
    requires index > 0 ==> Widths(responses)[index - 1] < width
    requires index < |responses| ==> Widths(responses)[index] >= width
    ensures Closest(Elements(responses), width, responses[if index < |responses| then index else |responses| - 1])
  {
    var widths := Widths(responses);
    assert forall k :: 0 <= k < |responses| ==> widths[k] == responses[k].width;
    assert forall j, k :: 0 <= j < k < |responses| ==> widths[j] < widths[k];
    BoundaryIsClosest(responses, width, if index < |responses| then index else |responses| - 1);
  }

  /** For distinct positive widths, the search answers every request as the linear scan
      does if and only if the list is increasing. */
  lemma PickerIsClosestIffIncreasing(responses: seq<Variant>)
    requires responses != [] && Distinct(Widths(responses))
    requires forall i :: 0 <= i < |responses| ==> responses[i].width > 0
    ensures (forall width :: width > 0 ==>
               Closest(Elements(responses), width, PickClosest(Picker(Widths(responses), responses), width).value))
            <==> Increasing(Widths(responses))
  {
    var p := Picker(Widths(responses), responses);
    if Increasing(Widths(responses)) {
      forall width | width > 0
        ensures Closest(Elements(responses), width, PickClosest(p, width).value)
      {
        IncreasingPicksClosest(responses, width);
      }
    } else {
      SearchFindsAllIffIncreasing(p.widths);
      var k :| 0 <= k < |p.widths| && Search(p.widths, p.widths[k], 0, |p.widths|) != k;
      SearchBoundary(p.widths, p.widths[k], 0, |p.widths|);
      MissedWidth(responses, k);
    }
  }

  lemma MissedWidth(responses: seq<Variant>, k: nat)
    requires k < |responses| && Distinct(Widths(responses)) && responses[k].width > 0
    requires Search(Widths(responses), responses[k].width, 0, |responses|) != k
    ensures !Closest(Elements(responses), responses[k].width,
                     PickClosest(Picker(Widths(responses), responses), responses[k].width).value)
  {
    var widths, x := Widths(responses), responses[k].width;
    var index := Search(widths, x, 0, |widths|);
    SearchBoundary(widths, x, 0, |widths|);
    var at := if index < |widths| then index else |widths| - 1;
    assert at != k;
    assert widths[at] != widths[k];
    assert responses[k] in Elements(responses);
  }

  // ---- The prepared list is increasing ---------------------------------------------

  lemma ImageLeqIsTotal()
    ensures TotalPreorder(ImageLeq)
  {
    forall a, b ensures ImageLeq(a, b) || ImageLeq(b, a) {
      StringLeqTotal(a.format, b.format);
      StringLeqTotal(a.id, b.id);
    }
    forall a, b, c | ImageLeq(a, b) && ImageLeq(b, c) ensures ImageLeq(a, c) {
      ImageLeqTransitive(a, b, c);
    }
  }

  lemma ImageLeqTransitive(a: Variant, b: Variant, c: Variant)
    requires ImageLeq(a, b) && ImageLeq(b, c)
    ensures ImageLeq(a, c)
  {
    StringLeqTotal(a.format, b.format);
    StringLeqTotal(b.format, c.format);
    StringLeqTotal(a.format, c.format);
    if a.format != b.format && b.format != c.format {
      StringLeqTransitive(a.format, b.format, c.format);
    }
    if a.format == b.format == c.format && a.width == b.width == c.width {
      StringLeqTransitive(a.id, b.id, c.id);
    }
  }

  ghost predicate UniformList(vs: seq<Variant>) {
    && Distinct(vs)
    && DistinctWidths(Elements(vs))
    && (forall u, v :: u in vs && v in vs ==> u.format == v.format)
    && (forall v :: v in vs ==> v.width >= 0)
  }

  lemma SortedUniformIsIncreasing(vs: seq<Variant>)
    requires UniformList(vs)
    ensures var s := SortBy(vs, ImageLeq);
            Increasing(Widths(s)) && Elements(s) == Elements(vs) && |s| == |vs| && forall v :: v in s ==> v.width >= 0
  {
    var s := SortBy(vs, ImageLeq);
    ImageLeqIsTotal();
    SortIsSortedPermutation(vs, ImageLeq);
    SameElements(s, vs);
    DistinctPermutation(vs, s);
    forall i, j | 0 <= i < j < |s|
      ensures s[i].width < s[j].width
    {
      assert s[i] in vs && s[j] in vs && s[i] in Elements(vs) && s[j] in Elements(vs);
      assert ImageLeq(s[i], s[j]) && s[i] != s[j];
    }
  }

  lemma {:induction false} NonNegativeKeeps(s: seq<Variant>)
    requires forall v :: v in s ==> v.width >= 0
    ensures NonNegative(s) == s
  {
    if s != [] {
      assert s[0] in s;
      NonNegativeKeeps(s[1..]);
    }
  }

  lemma {:induction false} UniqueByWidthKeeps(s: seq<Variant>)
    requires Increasing(Widths(s))
    ensures UniqueByWidth(s) == s
    decreases |s|
  {
    if s != [] {
      var before := s[..|s| - 1];
      assert forall i :: 0 <= i < |before| ==> Widths(before)[i] == Widths(s)[i];
      UniqueByWidthKeeps(before);
      forall i | 0 <= i < |before|
        ensures before[i].width < s[|s| - 1].width
      {
        assert Widths(s)[i] < Widths(s)[|s| - 1];
      }
      assert s == before + [s[|s| - 1]];
    }
  }

  lemma PickerOfUniform(vs: seq<Variant>)
    requires UniformList(vs) && vs != []
    ensures var s := SortBy(vs, ImageLeq);
            NewImagePicker(s) == Some(Picker(Widths(s), s)) && Elements(s) == Elements(vs) && Increasing(Widths(s)) && s != []
  {
    var s := SortBy(vs, ImageLeq);
    SortedUniformIsIncreasing(vs);
    NonNegativeKeeps(s);
    UniqueByWidthKeeps(s);
  }

  /** Sorting, dropping repeated widths and searching picks the variant the linear scan
      picks, for every list of one format with distinct widths and every request. */
  lemma PickerIsLinearScan(vs: seq<Variant>, width: int, scanned: Variant)
    requires UniformList(vs) && vs != [] && width > 0
    requires Closest(Elements(vs), width, scanned)
    ensures var p := NewImagePicker(SortBy(vs, ImageLeq));
            p.Some? && |p.value.widths| == |p.value.responses| && PickClosest(p.value, width) == Some(scanned)
  {
    PickerOfUniform(vs);
    var s := SortBy(vs, ImageLeq);
    IncreasingPicksClosest(s, width);
    ClosestIsUnique(Elements(vs), width, scanned, PickClosest(Picker(Widths(s), s), width).value);
  }

  /** A list of mixed formats sorts by format first, and the search then misses: asked
      for 500, the scan gives the 800-wide variant and the picker the 400-wide one. */
  lemma MixedFormatsMiss(wide: Variant, narrow: Variant)
    requires wide.format == "" && wide.width == 800
    requires narrow.format == "png" && narrow.width == 400
    ensures var p := NewImagePicker(SortBy([narrow, wide], ImageLeq));
            p.Some? && |p.value.widths| == |p.value.responses|
            && PickClosest(p.value, 500) == Some(narrow) && Closest({wide, narrow}, 500, wide)
  {
    assert ImageLeq(wide, narrow) && !ImageLeq(narrow, wide);
    assert [narrow, wide][1..] == [wide];
    assert [wide][1..] == [];
    assert SortBy([wide], ImageLeq) == [wide];
    assert Insert(narrow, [wide], ImageLeq) == [wide] + Insert(narrow, [wide][1..], ImageLeq);
    assert SortBy([narrow, wide], ImageLeq) == [wide, narrow];
    var s := [wide, narrow];
    NonNegativeKeeps(s);
    assert s[..1] == [wide] && [wide][..0] == [];
    assert UniqueByWidth([wide]) == [wide];
    assert UniqueByWidth(s) == s;
    assert Widths(s) == [800, 400];
    assert Search(Widths(s), 500, 2, 2) == 2;
    assert Search(Widths(s), 500, 0, 2) == 2;
  }
}
