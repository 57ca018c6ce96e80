/**
 * Top-K class selection of the image-classification demo: every logit is
 * paired with its position, the pairs are sorted by value, largest first,
 * the first K pairs are copied into two parallel buffers, and each selected
 * position is turned into a class name.
 */
module ImageClassifierTask {
  import opened Wrappers

  /** A logit together with its position in the logit vector (`topKClass`). */
  datatype Scored = Scored(value: real, index: int)

  /** One labelled prediction handed to the renderer (`Classes`). */
  datatype ClassProb = ClassProb(className: string, probability: real)

  /** The contents of the two parallel buffers `topkValues` and `topkIndices`. */
  datatype Selection = Selection(values: seq<real>, indices: seq<int>)

  /** The two ways the selection throws. */
  datatype TopKError =
    | InvalidLength  // K is not a valid typed-array length: allocating the buffers fails
    | MissingEntry   // K exceeds the number of logits: a missing pair is dereferenced

  /** The largest length a typed-array constructor accepts (2^53 - 1). */
  const MaxTypedArrayLength := 0x1F_FFFF_FFFF_FFFF

  /** `topK` passes the typed-array constructor's length check. */
  predicate IsValidLength(topK: int)
  {
    0 <= topK <= MaxTypedArrayLength
  }

  /** Values never increase from front to back. */
  predicate Descending(s: seq<Scored>)
  {
    forall i, j :: 0 <= i < j < |s| ==> s[i].value >= s[j].value
  }

  /** Entry i of `pairs` is logit i together with its position i. */
  predicate PairsOf(values: seq<real>, pairs: seq<Scored>)
  {
    |pairs| == |values| && forall i :: 0 <= i < |values| ==> pairs[i] == Scored(values[i], i)
  }

  /**
   * `sel` is a correct answer to "the k largest logits": k entries, each
   * value read at its own in-range index, pairwise distinct indices, values
   * in non-increasing order, and no logit left out is larger than any
   * selected one.
   */
  predicate IsTopK(values: seq<real>, k: nat, sel: Selection)
  {
    && |sel.values| == k
    && |sel.indices| == k
    && (forall i :: 0 <= i < k ==> 0 <= sel.indices[i] < |values| && sel.values[i] == values[sel.indices[i]])
    && (forall i, j :: 0 <= i < j < k ==> sel.indices[i] != sel.indices[j])
    && (forall i, j :: 0 <= i < j < k ==> sel.values[i] >= sel.values[j])
    && (forall j, i :: 0 <= j < |values| && j !in sel.indices && 0 <= i < k ==> values[j] <= sel.values[i])
  }

  /** Every selected index has a class name. */
  predicate NamesCover(sel: Selection, classNames: seq<string>)
  {
    |sel.values| == |sel.indices| && forall i :: 0 <= i < |sel.indices| ==> 0 <= sel.indices[i] < |classNames|
  }

  /** The list of labelled predictions built from a selection, entry by entry. */
  function Labelled(sel: Selection, classNames: seq<string>): seq<ClassProb>
    requires NamesCover(sel, classNames)
  {
    seq(|sel.indices|, i requires 0 <= i < |sel.indices| => ClassProb(classNames[sel.indices[i]], sel.values[i]))
  }

  /** Builds `valuesAndIndices` by pushing one pair per logit. */
  method PairWithIndices(values: seq<real>) returns (pairs: seq<Scored>)
    ensures PairsOf(values, pairs)
  {
    pairs := [];
    for i := 0 to |values|
      invariant |pairs| == i
      invariant forall j :: 0 <= j < i ==> pairs[j] == Scored(values[j], j)
    {
      pairs := pairs + [Scored(values[i], i)];
    }
  }

  /** The position of a largest value at or after `from`. */
  method IndexOfLargest(a: array<Scored>, from: int) returns (m: int)
    requires 0 <= from < a.Length
    ensures from <= m < a.Length
    ensures forall q :: from <= q < a.Length ==> a[q].value <= a[m].value
  {
    m := from;
    var j := from + 1;
    while j < a.Length
      invariant from <= m < a.Length && from + 1 <= j <= a.Length
      invariant forall q :: from <= q < j ==> a[q].value <= a[m].value
    {
      if a[j].value > a[m].value {
        m := j;
      }
      j := j + 1;
    }
  }

  /** Exchanges two entries; the contents stay the same multiset. */
  method Swap(a: array<Scored>, i: int, j: int)
    requires 0 <= i < a.Length && 0 <= j < a.Length
    modifies a
    ensures a[..] == old(a[..])[i := old(a[j])][j := old(a[i])]
    ensures multiset(a[..]) == old(multiset(a[..]))
  {
    a[i], a[j] := a[j], a[i];
  }

  /** The first i entries are in place: in descending order and no smaller than any later entry. */
  predicate SortedUpTo(s: seq<Scored>, i: int)
    requires 0 <= i <= |s|
  {
    && (forall p, q :: 0 <= p < q < i ==> s[p].value >= s[q].value)
    && (forall p, q :: 0 <= p < i <= q < |s| ==> s[p].value >= s[q].value)
  }

  /** Moving a largest remaining entry to position i puts one more entry in place. */
  lemma SelectionStep(s: seq<Scored>, i: int, m: int)
    requires 0 <= i <= m < |s| && SortedUpTo(s, i)
    requires forall q :: i <= q < |s| ==> s[q].value <= s[m].value
    ensures SortedUpTo(s[i := s[m]][m := s[i]], i + 1)
  {
    var t := s[i := s[m]][m := s[i]];
    forall p, q | 0 <= p < i + 1 <= q < |t| ensures t[p].value >= t[q].value {
      assert t[q] == s[q] || t[q] == s[i];
    }
  }

  /**
   * Sorts the pairs in place by value, largest first. The host's sort
   * algorithm is not part of the model; this selection sort meets the same
   * contract (a descending permutation), and the order of equal values is
   * left open.
   */
  method SortByValueDescending(a: array<Scored>)
    modifies a
    ensures Descending(a[..])
    ensures multiset(a[..]) == old(multiset(a[..]))
  {
    var i := 0;
    while i < a.Length
      invariant 0 <= i <= a.Length
      invariant SortedUpTo(a[..], i)
      invariant multiset(a[..]) == old(multiset(a[..]))
    {
      var m := IndexOfLargest(a, i);
      SelectionStep(a[..], i, m);
      Swap(a, i, m);
      i := i + 1;
    }
  }

  /**
   * The selection part of `getTopKClasses`: pair, sort, then copy the first
   * `topK` pairs into the value and index buffers.
   */
  method SelectTopK(values: seq<real>, topK: int) returns (r: Result<Selection, TopKError>)
    ensures !IsValidLength(topK) ==> r == Err(InvalidLength)
    ensures IsValidLength(topK) && topK > |values| ==> r == Err(MissingEntry)
    ensures IsValidLength(topK) && topK <= |values| ==> r.Ok? && IsTopK(values, topK, r.value)
  {
    var pairs := PairWithIndices(values);
    var valuesAndIndices := new Scored[|pairs|](i requires 0 <= i < |pairs| => pairs[i]);
    assert valuesAndIndices[..] == pairs;
    SortByValueDescending(valuesAndIndices);
    ghost var sorted := valuesAndIndices[..];

    if !IsValidLength(topK) {
      return Err(InvalidLength);
    }
    var topkValues := new real[topK];
    var topkIndices := new int[topK];
    for i := 0 to topK
      invariant valuesAndIndices[..] == sorted
      invariant i <= valuesAndIndices.Length
      invariant forall j :: 0 <= j < i ==> topkValues[j] == sorted[j].value && topkIndices[j] == sorted[j].index
    {
      if i >= valuesAndIndices.Length {
        return Err(MissingEntry);
      }
      topkValues[i] := valuesAndIndices[i].value;
      topkIndices[i] := valuesAndIndices[i].index;
    }
    var sel := Selection(topkValues[..], topkIndices[..]);
    SortedPairsGiveTopK(values, pairs, sorted, topK, sel);
    r := Ok(sel);
  }

  /**
   * `getTopKClasses`: selects the `topK` largest logits and names each one
   * through the class table.
   */
  method GetTopKClasses(values: seq<real>, topK: int, classNames: seq<string>)
    returns (r: Result<seq<ClassProb>, TopKError>)
    requires |values| <= |classNames|
    ensures !IsValidLength(topK) ==> r == Err(InvalidLength)
    ensures IsValidLength(topK) && topK > |values| ==> r == Err(MissingEntry)
    ensures IsValidLength(topK) && topK <= |values| ==>
              r.Ok? && exists sel :: IsTopK(values, topK, sel) && NamesCover(sel, classNames) && r.value == Labelled(sel, classNames)
  {
    var selected := SelectTopK(values, topK);
    if selected.Err? {
      return Err(selected.error);
    }
    var sel := selected.value;
    var topClassesAndProbs: seq<ClassProb> := [];
    for i := 0 to |sel.indices|
      invariant |topClassesAndProbs| == i
      invariant forall j :: 0 <= j < i ==> topClassesAndProbs[j] == ClassProb(classNames[sel.indices[j]], sel.values[j])
    {
      topClassesAndProbs := topClassesAndProbs + [ClassProb(classNames[sel.indices[i]], sel.values[i])];
    }
    assert NamesCover(sel, classNames);
    r := Ok(topClassesAndProbs);
  }

  // ---------------------------------------------------------------------
  // Why sorting the pairs answers the top-K question
  // ---------------------------------------------------------------------

  /** A sequence whose elements are pairwise distinct holds each at most once. */
  lemma {:induction false} DistinctAtMostOnce<T>(s: seq<T>, x: T)
    requires forall p, q :: 0 <= p < q < |s| ==> s[p] != s[q]
    ensures multiset(s)[x] <= 1
  {
    if s != [] {
      var n := |s| - 1;
      assert s == s[..n] + [s[n]];
      DistinctAtMostOnce(s[..n], x);
      if x == s[n] {
        assert x !in s[..n];
      }
    }
  }

  /** An element found at two positions is counted at least twice. */
  lemma TwiceAtLeastTwo<T>(s: seq<T>, p: int, q: int)
    requires 0 <= p < q < |s| && s[p] == s[q]
    ensures multiset(s)[s[p]] >= 2
  {
    assert s == s[..p] + [s[p]] + s[p + 1..q] + [s[q]] + s[q + 1..];
  }

  /**
   * The first k entries of any descending rearrangement of the pairs are a
   * correct top-K answer.
   */
  lemma SortedPairsGiveTopK(values: seq<real>, pairs: seq<Scored>, sorted: seq<Scored>, k: int, sel: Selection)
    requires PairsOf(values, pairs)
    requires multiset(sorted) == multiset(pairs) && Descending(sorted)
    requires |sorted| == |values| && 0 <= k <= |values|
    requires |sel.values| == k && |sel.indices| == k
    requires forall i :: 0 <= i < k ==> sel.values[i] == sorted[i].value && sel.indices[i] == sorted[i].index
    ensures IsTopK(values, k, sel)
  {
    assert |sorted| == |pairs| by {
      assert |multiset(sorted)| == |multiset(pairs)|;
    }
    // every sorted entry is one of the original pairs
    forall p | 0 <= p < |sorted|
      ensures 0 <= sorted[p].index < |values| && sorted[p] == Scored(values[sorted[p].index], sorted[p].index)
    {
      assert sorted[p] in multiset(sorted);
      assert sorted[p] in pairs;
    }
    // no two sorted entries share an index
    forall p, q | 0 <= p < q < k
      ensures sel.indices[p] != sel.indices[q]
    {
      if sorted[p].index == sorted[q].index {
        assert sorted[p] == sorted[q];
        TwiceAtLeastTwo(sorted, p, q);
        OriginalPairsOccurOnce(pairs, sorted[p]);
      }
    }
    // a logit left out sits at or after position k
    forall j, i | 0 <= j < |values| && j !in sel.indices && 0 <= i < k
      ensures values[j] <= sel.values[i]
    {
      assert pairs[j] in multiset(pairs);
      assert pairs[j] in sorted;
      var p :| 0 <= p < |sorted| && sorted[p] == pairs[j];
      assert p >= k;
    }
  }

  /** The original pairs have pairwise distinct positions, so each occurs once. */
  lemma OriginalPairsOccurOnce(pairs: seq<Scored>, x: Scored)
    requires forall i :: 0 <= i < |pairs| ==> pairs[i].index == i
    ensures multiset(pairs)[x] <= 1
  {
    forall p, q | 0 <= p < q < |pairs| ensures pairs[p] != pairs[q] {
      assert pairs[p].index != pairs[q].index;
    }
    DistinctAtMostOnce(pairs, x);
  }

  // ---------------------------------------------------------------------
  // The selected values do not depend on how ties are broken
  // ---------------------------------------------------------------------

  /** p distinct positions cannot all be found among fewer than p entries. */
  lemma {:induction false} Pigeonhole(s: seq<int>, t: seq<int>)
    requires forall p, q :: 0 <= p < q < |s| ==> s[p] != s[q]
    requires forall p :: 0 <= p < |s| ==> s[p] in t
    ensures |s| <= |t|
  {
    if s != [] {
      var n := |s| - 1;
      var i :| 0 <= i < |t| && t[i] == s[n];
      var rest := t[..i] + t[i + 1..];
      forall p | 0 <= p < n ensures s[p] in rest {
        var j :| 0 <= j < |t| && t[j] == s[p];
        assert j != i;
        if j < i {
          assert rest[j] == s[p];
        } else {
          assert rest[j - 1] == s[p];
        }
      }
      Pigeonhole(s[..n], rest);
    }
  }

  /**
   * Position by position, one correct answer's values are no larger than
   * another's: p + 1 distinct logits above the other's p-th value would have
   * to fit into its first p positions.
   */
  lemma TopKValuesBounded(values: seq<real>, k: nat, s1: Selection, s2: Selection, p: int)
    requires IsTopK(values, k, s1) && IsTopK(values, k, s2)
    requires 0 <= p < k
    ensures s1.values[p] <= s2.values[p]
  {
    if s1.values[p] > s2.values[p] {
      var above := s1.indices[..p + 1];
      var before := s2.indices[..p];
      forall t | 0 <= t <= p ensures above[t] in before {
        var a := above[t];
        assert values[a] == s1.values[t] >= s1.values[p] > s2.values[p];
        assert a in s2.indices;
        var q :| 0 <= q < k && s2.indices[q] == a;
        assert s2.values[q] > s2.values[p];
        assert before[q] == a;
      }
      Pigeonhole(above, before);
    }
  }

  /**
   * Any two correct answers list the same values: the probabilities
   * reported never depend on the order the host sort leaves equal logits in.
   */
  lemma TopKValuesUnique(values: seq<real>, k: nat, s1: Selection, s2: Selection)
    requires IsTopK(values, k, s1) && IsTopK(values, k, s2)
    ensures s1.values == s2.values
  {
    forall p | 0 <= p < k ensures s1.values[p] == s2.values[p] {
      TopKValuesBounded(values, k, s1, s2, p);
      TopKValuesBounded(values, k, s2, s1, p);
    }
  }

  /** The first selected value is the largest logit of all. */
  lemma TopOneIsMaximum(values: seq<real>, k: nat, sel: Selection, j: int)
    requires IsTopK(values, k, sel) && k > 0
    requires 0 <= j < |values|
    ensures values[j] <= sel.values[0]
  {
    if j in sel.indices {
      var q :| 0 <= q < k && sel.indices[q] == j;
      assert q == 0 || sel.values[0] >= sel.values[q];
    }
  }
}
