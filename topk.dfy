/**
 * `getTopKClasses`: the classifier's score vector is paired with class
 * indices, sorted by descending score, cut to the first `topK` entries and
 * labelled through the class table.
 */
module TopK {
  import opened Wrappers
  import opened Labels

  /** An entry of `valuesAndIndices`: a score and the position it came from. */
  datatype Scored = Scored(value: real, index: nat)

  /** An entry of the returned list. */
  datatype Prediction = Prediction(className: Option<string>, probability: real)

  /**
   * `x` is ranked ahead of `y`: a higher score, or the same score seen
   * earlier in the score vector (what a stable descending sort keeps).
   */
  predicate Ahead(x: Scored, y: Scored)
  {
    x.value > y.value || (x.value == y.value && x.index < y.index)
  }

  /** Every entry is ranked ahead of every later one. */
  ghost predicate Ranked(s: seq<Scored>)
  {
    forall i, j :: 0 <= i < j < |s| ==> Ahead(s[i], s[j])
  }

  /** The entries built from a score vector, in input order. */
  function Pairs(values: seq<real>): (s: seq<Scored>)
    ensures |s| == |values|
    ensures forall i :: 0 <= i < |s| ==> s[i] == Scored(values[i], i)
  {
    seq(|values|, i requires 0 <= i < |values| => Scored(values[i], i))
  }

  /** Class `i` is ranked ahead of class `j` in the score vector. */
  predicate AheadAt(values: seq<real>, i: nat, j: nat)
    requires i < |values| && j < |values|
  {
    Ahead(Scored(values[i], i), Scored(values[j], j))
  }

  /**
   * `indices` are the `topK` best classes of `values`, best first: valid
   * class indices, each ranked ahead of the ones after it, and each ranked
   * ahead of every class that was left out.
   */
  ghost predicate IsTopK(values: seq<real>, topK: nat, indices: seq<nat>)
  {
    && |indices| == topK
    && (forall k :: 0 <= k < topK ==> indices[k] < |values|)
    && (forall k, m :: 0 <= k < m < topK ==> AheadAt(values, indices[k], indices[m]))
    && (forall k, j :: 0 <= k < topK && 0 <= j < |values| && j !in indices ==>
          AheadAt(values, indices[k], j))
  }

  /** The predictions for the given class indices: label and score. */
  function Labelled(values: seq<real>, indices: seq<nat>): (top: seq<Prediction>)
    requires forall k :: 0 <= k < |indices| ==> indices[k] < |values|
    ensures |top| == |indices|
    ensures forall k :: 0 <= k < |top| ==>
      top[k].probability == values[indices[k]] && top[k].className == ClassName(indices[k])
  {
    seq(|indices|, k requires 0 <= k < |indices| =>
      Prediction(ClassName(indices[k]), values[indices[k]]))
  }

  /**
   * Sorts `valuesAndIndices` in place by descending score. Like the
   * comparator `b.value - a.value` under a stable sort, the insertion
   * compares scores only; because the entries arrive in index order, equal
   * scores keep the earlier index first.
   */
  method SortByScoreDescending(a: array<Scored>)
    requires forall i, j :: 0 <= i < j < a.Length ==> a[i].index < a[j].index
    modifies a
    ensures Ranked(a[..])
    ensures multiset(a[..]) == old(multiset(a[..]))
  {
    var i := 0;
    while i < a.Length
      invariant 0 <= i <= a.Length
      invariant forall k, m :: 0 <= k < m < i ==> Ahead(a[k], a[m])
      invariant i < a.Length ==> forall k :: 0 <= k < i ==> a[k].index < a[i].index
      invariant forall k, m :: i <= k < m < a.Length ==> a[k].index < a[m].index
      invariant multiset(a[..]) == old(multiset(a[..]))
    {
      InsertIntoRanked(a, i);
      i := i + 1;
    }
  }

  /**
   * One pass of the insertion sort: moves `a[i]` left past the entries of
   * the ranked prefix `a[..i]` that score lower than it.
   */
  method InsertIntoRanked(a: array<Scored>, i: nat)
    requires i < a.Length
    requires forall k, m :: 0 <= k < m < i ==> Ahead(a[k], a[m])
    requires forall k :: 0 <= k < i ==> a[k].index < a[i].index
    requires forall k, m :: i <= k < m < a.Length ==> a[k].index < a[m].index
    modifies a
    ensures forall k, m :: 0 <= k < m <= i ==> Ahead(a[k], a[m])
    ensures i + 1 < a.Length ==> forall k :: 0 <= k <= i ==> a[k].index < a[i + 1].index
    ensures forall m :: i < m < a.Length ==> a[m] == old(a[m])
    ensures multiset(a[..]) == old(multiset(a[..]))
  {
    var j := i;
    while j > 0 && a[j - 1].value < a[j].value
      invariant 0 <= j <= i
      invariant forall k, m :: 0 <= k < m <= i && k != j && m != j ==> Ahead(a[k], a[m])
      invariant forall m :: j < m <= i ==> Ahead(a[j], a[m])
      invariant forall k :: 0 <= k <= i && k != j ==> a[k].index < a[j].index
      invariant i + 1 < a.Length ==> forall k :: 0 <= k <= i ==> a[k].index < a[i + 1].index
      invariant forall m :: i < m < a.Length ==> a[m] == old(a[m])
      invariant multiset(a[..]) == old(multiset(a[..]))
    {
      Swap(a, j - 1, j);
      j := j - 1;
    }
  }

  /** Exchanges two entries of the array. */
  method Swap(a: array<Scored>, i: nat, j: nat)
    requires i < j < a.Length
    modifies a
    ensures a[i] == old(a[j]) && a[j] == old(a[i])
    ensures forall k :: 0 <= k < a.Length && k != i && k != j ==> a[k] == old(a[k])
    ensures multiset(a[..]) == old(multiset(a[..]))
  {
    a[i], a[j] := a[j], a[i];
  }

  /** Builds `valuesAndIndices` and sorts it. */
  method RankScores(values: seq<real>) returns (ranked: seq<Scored>)
    ensures multiset(ranked) == multiset(Pairs(values))
    ensures Ranked(ranked)
  {
    var valuesAndIndices := new Scored[|values|];
    for i := 0 to |values|
      invariant forall k :: 0 <= k < i ==> valuesAndIndices[k] == Scored(values[k], k)
    {
      valuesAndIndices[i] := Scored(values[i], i);
    }
    assert valuesAndIndices[..] == Pairs(values);
    SortByScoreDescending(valuesAndIndices);
    ranked := valuesAndIndices[..];
  }

  /**
   * The `topK` best classes with their labels and scores, best first.
   * `indices` is the content of `topkIndices`, which the source keeps
   * internal.
   */
  method GetTopKClasses(values: seq<real>, topK: nat)
    returns (top: seq<Prediction>, ghost indices: seq<nat>)
    requires topK <= |values|
    ensures IsTopK(values, topK, indices)
    ensures top == Labelled(values, indices)
    ensures |top| == topK
    ensures forall k, m :: 0 <= k < m < |top| ==> top[k].probability >= top[m].probability
    ensures forall k, m :: 0 <= k < m < |indices| ==> indices[k] != indices[m]  // TopKIsDistinct
  {
    var ranked := RankScores(values);
    RankedEntries(values, ranked);
    var topkValues := new real[topK];
    var topkIndices := new nat[topK];
    for i := 0 to topK
      invariant forall k :: 0 <= k < i ==>
        topkValues[k] == ranked[k].value && topkIndices[k] == ranked[k].index
    {
      topkValues[i] := ranked[i].value;
      topkIndices[i] := ranked[i].index;
    }
    top := [];
    for i := 0 to topkIndices.Length
      invariant |top| == i
      invariant forall k :: 0 <= k < i ==>
        top[k] == Prediction(ClassName(topkIndices[k]), topkValues[k])
    {
      top := top + [Prediction(ClassName(topkIndices[i]), topkValues[i])];
    }
    indices := topkIndices[..];
    TopOfRanking(values, ranked, topK, indices);
    TopKIsDistinct(values, topK, indices);
  }

  /**
   * Every entry of a ranking of `values` is a class index with its own
   * score, and every class appears in it.
   */
  lemma RankedEntries(values: seq<real>, ranked: seq<Scored>)
    requires multiset(ranked) == multiset(Pairs(values))
    ensures |ranked| == |values|
    ensures forall p :: 0 <= p < |ranked| ==>
      ranked[p].index < |values| && ranked[p].value == values[ranked[p].index]
    ensures forall j :: 0 <= j < |values| ==> Scored(values[j], j) in ranked
  {
    var pairs := Pairs(values);
    assert |ranked| == |multiset(ranked)| == |multiset(pairs)| == |values|;
    forall p | 0 <= p < |ranked|
      ensures ranked[p].index < |values| && ranked[p].value == values[ranked[p].index]
    {
      assert ranked[p] in multiset(pairs);
      var q :| 0 <= q < |pairs| && pairs[q] == ranked[p];
    }
    forall j | 0 <= j < |values|
      ensures Scored(values[j], j) in ranked
    {
      assert pairs[j] in multiset(ranked);
    }
  }

  /** The first `topK` classes of a ranking are the top `topK`. */
  lemma TopOfRanking(values: seq<real>, ranked: seq<Scored>, topK: nat, indices: seq<nat>)
    requires multiset(ranked) == multiset(Pairs(values)) && Ranked(ranked)
    requires topK <= |values| == |ranked|
    requires |indices| == topK
    requires forall k :: 0 <= k < topK ==> indices[k] == ranked[k].index
    ensures IsTopK(values, topK, indices)
  {
    RankedEntries(values, ranked);
    forall k, j | 0 <= k < topK && 0 <= j < |values| && j !in indices
      ensures AheadAt(values, indices[k], j)
    {
      var p :| 0 <= p < |ranked| && ranked[p] == Scored(values[j], j);
      assert p >= topK;
      assert Ahead(ranked[k], ranked[p]);
    }
  }

  /**
   * The top `topK` classes are determined by the scores: there is only one
   * answer, so the tie-break by first-seen index makes the ranking
   * deterministic.
   */
  lemma TopKIsUnique(values: seq<real>, topK: nat, first: seq<nat>, second: seq<nat>)
    requires IsTopK(values, topK, first) && IsTopK(values, topK, second)
    ensures first == second
  {
    SamePrefix(values, topK, first, second, topK);
  }

  lemma {:induction false} SamePrefix(values: seq<real>, topK: nat, first: seq<nat>, second: seq<nat>, n: nat)
    requires IsTopK(values, topK, first) && IsTopK(values, topK, second)
    requires n <= topK
    ensures first[..n] == second[..n]
  {
    if n > 0 {
      var k := n - 1;
      SamePrefix(values, topK, first, second, k);
      AheadOfOther(values, topK, first, second, k);
      AheadOfOther(values, topK, second, first, k);
      assert first[..n] == first[..k] + [first[k]];
      assert second[..n] == second[..k] + [second[k]];
    }
  }

  /**
   * Two top lists that agree before position `k`: at `k`, the first one's
   * class is the second one's or ranked ahead of it.
   */
  lemma AheadOfOther(values: seq<real>, topK: nat, s: seq<nat>, t: seq<nat>, k: nat)
    requires IsTopK(values, topK, s) && IsTopK(values, topK, t)
    requires k < topK && s[..k] == t[..k]
    ensures s[k] == t[k] || AheadAt(values, s[k], t[k])
  {
    var y := t[k];
    assert forall p :: 0 <= p < k ==> s[p] == t[p] by {
      forall p | 0 <= p < k ensures s[p] == t[p] {
        assert s[..k][p] == t[..k][p];
      }
    }
    if y != s[k] && y in s {
      var p :| 0 <= p < topK && s[p] == y;
      assert p >= k;
      assert AheadAt(values, s[k], s[p]);
    }
  }

  /** The indices of a top-`topK` list are pairwise distinct. */
  lemma TopKIsDistinct(values: seq<real>, topK: nat, indices: seq<nat>)
    requires IsTopK(values, topK, indices)
    ensures forall k, m :: 0 <= k < m < topK ==> indices[k] != indices[m]
  {
  }

  /** The set {0, ..., n - 1}. */
  function Below(n: nat): (s: set<nat>)
    ensures forall j: nat :: j in s <==> j < n
    ensures |s| == n
  {
    if n == 0 then {} else Below(n - 1) + {n - 1}
  }

  /** The classes that occur in a list of indices. */
  function Elements(s: seq<nat>): (r: set<nat>)
    ensures forall j :: j in r <==> j in s
  {
    set j | j in s
  }

  /** A list without repetitions has as many elements as entries. */
  lemma {:induction false} DistinctCardinality(s: seq<nat>)
    requires forall k, m :: 0 <= k < m < |s| ==> s[k] != s[m]
    ensures |Elements(s)| == |s|
  {
    if s != [] {
      var last := |s| - 1;
      DistinctCardinality(s[..last]);
      assert s == s[..last] + [s[last]];
      assert s[last] !in s[..last];
      assert Elements(s) == Elements(s[..last]) + {s[last]};
    }
  }

  /**
   * Asking for as many classes as there are scores ranks every class
   * exactly once: the indices are a permutation of 0 .. |values| - 1.
   */
  lemma FullRankingIsPermutation(values: seq<real>, indices: seq<nat>)
    requires IsTopK(values, |values|, indices)
    ensures forall j: nat :: j < |values| <==> j in indices
    ensures forall k, m :: 0 <= k < m < |indices| ==> indices[k] != indices[m]  // TopKIsDistinct
  {
    TopKIsDistinct(values, |values|, indices);
    CoversBelow(indices, |values|);
  }

  /**
   * Pigeonholes: `n` distinct indices below `n` take every value below `n`.
   */
  lemma CoversBelow(s: seq<nat>, n: nat)
    requires |s| == n
    requires forall k :: 0 <= k < n ==> s[k] < n
    requires forall k, m :: 0 <= k < m < n ==> s[k] != s[m]
    ensures forall j: nat :: j < n ==> j in s
  {
    var seen := Elements(s);
    var all := Below(n);
    DistinctCardinality(s);
    var missing := all - seen;
    assert all == seen + missing;
    assert seen * missing == {};
    assert |seen + missing| + |seen * missing| == |seen| + |missing|;
    assert |missing| == 0;
    forall j: nat | j < n
      ensures j in s
    {
      assert j in all;
      assert j in seen;
    }
  }

  /**
   * With two scores and two places, the order is the higher score first,
   * and on a tie class 0 first.
   */
  lemma TopTwoOfTwo(values: seq<real>, indices: seq<nat>)
    requires |values| == 2 && IsTopK(values, 2, indices)
    ensures indices == if values[1] > values[0] then [1, 0] else [0, 1]
  {
    var expected: seq<nat> := if values[1] > values[0] then [1, 0] else [0, 1];
    assert IsTopK(values, 2, expected);
    TopKIsUnique(values, 2, indices, expected);
  }
}
