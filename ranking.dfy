/** Ordering the combinations: the comparator of the final sort, the sort
    itself (stable, in place) and the priority numbering. */
module Ranking {
  import opened Types

  /** The comparator handed to Array.prototype.sort: negative when `a` goes
      first. Higher score first, then fewer warnings, then more courses, then
      fewer total minutes. */
  function Compare(a: Combination, b: Combination): int {
    if a.compatibilityScore != b.compatibilityScore then b.compatibilityScore - a.compatibilityScore
    else if |a.warnings| != |b.warnings| then |a.warnings| - |b.warnings|
    else if |a.courses| != |b.courses| then |b.courses| - |a.courses|
    else a.totalMinutes - b.totalMinutes
  }

  /** Reference definition of the ranking: `a` is strictly better than `b`
      in the lexicographic order of the four criteria. */
  predicate Better(a: Combination, b: Combination) {
    a.compatibilityScore > b.compatibilityScore
    || (a.compatibilityScore == b.compatibilityScore && |a.warnings| < |b.warnings|)
    || (a.compatibilityScore == b.compatibilityScore && |a.warnings| == |b.warnings|
        && |a.courses| > |b.courses|)
    || (a.compatibilityScore == b.compatibilityScore && |a.warnings| == |b.warnings|
        && |a.courses| == |b.courses| && a.totalMinutes < b.totalMinutes)
  }

  /** Equal on all four criteria. */
  predicate Tied(a: Combination, b: Combination) {
    a.compatibilityScore == b.compatibilityScore && |a.warnings| == |b.warnings|
    && |a.courses| == |b.courses| && a.totalMinutes == b.totalMinutes
  }

  /** The comparator is a consistent comparison: its sign is the
      lexicographic ranking, and swapping the arguments negates it. */
  lemma CompareMeaning(a: Combination, b: Combination)
    ensures Compare(a, b) < 0 <==> Better(a, b)
    ensures Compare(a, b) > 0 <==> Better(b, a)
    ensures Compare(a, b) == 0 <==> Tied(a, b)
    ensures Compare(a, b) == -Compare(b, a)
  {
  }

  /** Where two combinations end up relative to each other after the
      (stable) sort: by the comparator, ties kept in enumeration order. */
  predicate InOrder(a: Combination, b: Combination) {
    Compare(a, b) < 0 || (Compare(a, b) == 0 && a.index < b.index)
  }

  lemma InOrderTransitive(a: Combination, b: Combination, c: Combination)
    requires InOrder(a, b) && InOrder(b, c)
    ensures InOrder(a, c)
  {
    CompareMeaning(a, b);
    CompareMeaning(b, c);
    CompareMeaning(a, c);
  }

  /** Between combinations with different indices exactly one goes first. */
  lemma InOrderTotal(a: Combination, b: Combination)
    requires a.index != b.index
    ensures InOrder(a, b) != InOrder(b, a)
  {
    CompareMeaning(a, b);
  }

  predicate SortedBy(s: seq<Combination>, lo: int, hi: int)
    requires 0 <= lo <= hi <= |s|
  {
    forall p, q :: lo <= p < q < hi ==> InOrder(s[p], s[q])
  }

  /** The indices of 0..i-1 are below those of i.., which increase. */
  predicate IndexedFrom(s: seq<Combination>, i: int)
    requires 0 <= i <= |s|
  {
    (forall p, q :: 0 <= p < i <= q < |s| ==> s[p].index < s[q].index)
    && (forall p, q :: i <= p < q < |s| ==> s[p].index < s[q].index)
  }

  /** The in-place sort: insertion by adjacent swaps, which, like the
      engine's stable sort, keeps tied combinations in index order. */
  method SortCombinations(a: array<Combination>)
    modifies a
    requires forall p, q :: 0 <= p < q < a.Length ==> a[p].index < a[q].index
    ensures forall p, q :: 0 <= p < q < a.Length ==> InOrder(a[p], a[q])
    ensures multiset(a[..]) == multiset(old(a[..]))
  {
    var i := 0;
    while i < a.Length
      invariant 0 <= i <= a.Length
      invariant SortedBy(a[..], 0, i) && IndexedFrom(a[..], i)
      invariant multiset(a[..]) == multiset(old(a[..]))
    {
      InsertAt(a, i);
      i := i + 1;
    }
  }

  /** What holds while the element `x` taken from position `i` travels left
      and now sits at `j`: the other elements of 0..i are in order, `x` goes
      before everything it has passed, x's index is the largest of 0..i, and
      the indices of 0..i are below those of i+1.., which increase. */
  predicate Inserting(s: seq<Combination>, i: int, j: int, x: Combination) {
    0 <= j <= i < |s| && s[j] == x
    && (forall p, q :: 0 <= p < q <= i && p != j && q != j ==> InOrder(s[p], s[q]))
    && (forall q :: j < q <= i ==> InOrder(x, s[q]))
    && (forall p :: 0 <= p <= i && p != j ==> s[p].index < x.index)
    && (forall p, q :: 0 <= p <= i < q < |s| ==> s[p].index < s[q].index)
    && (forall p, q :: i < p < q < |s| ==> s[p].index < s[q].index)
  }

  lemma InsertingStart(s: seq<Combination>, i: int)
    requires 0 <= i < |s| && SortedBy(s, 0, i) && IndexedFrom(s, i)
    ensures Inserting(s, i, i, s[i])
  {
  }

  /** One adjacent swap keeps the travelling invariant. */
  lemma InsertingSwap(s: seq<Combination>, i: int, j: int, x: Combination)
    requires Inserting(s, i, j, x) && j > 0 && Compare(s[j - 1], s[j]) > 0
    ensures Inserting(s[j - 1 := s[j]][j := s[j - 1]], i, j - 1, x)
  {
    var t := s[j - 1 := s[j]][j := s[j - 1]];
    CompareMeaning(s[j - 1], x);
    forall p, q | 0 <= p < q <= i && p != j - 1 && q != j - 1
      ensures InOrder(t[p], t[q])
    {
      if q == j {
        assert t[q] == s[j - 1] && t[p] == s[p];
      } else if p == j {
        assert t[p] == s[j - 1] && t[q] == s[q];
      } else {
        assert t[p] == s[p] && t[q] == s[q];
      }
    }
    forall q | j - 1 < q <= i
      ensures InOrder(x, t[q])
    {
      if q > j {
        assert t[q] == s[q];
      }
    }
    forall p, q | 0 <= p <= i < q < |t|
      ensures t[p].index < t[q].index
    {
      assert t[q] == s[q];
      if p == j - 1 {
        assert t[p] == s[j];
      } else if p == j {
        assert t[p] == s[j - 1];
      } else {
        assert t[p] == s[p];
      }
    }
    assert forall p :: i < p < |t| ==> t[p] == s[p];
  }

  /** When `x` stops, 0..i is in order. */
  lemma InsertingDone(s: seq<Combination>, i: int, j: int, x: Combination)
    requires Inserting(s, i, j, x) && (j == 0 || Compare(s[j - 1], s[j]) <= 0)
    ensures SortedBy(s, 0, i + 1) && IndexedFrom(s, i + 1)
  {
    if j > 0 {
      CompareMeaning(s[j - 1], x);
      assert InOrder(s[j - 1], x);
      forall p | 0 <= p < j - 1
        ensures InOrder(s[p], x)
      {
        InOrderTransitive(s[p], s[j - 1], x);
      }
    }
  }

  /** `s` rearranges 0..i of `s0` and keeps the rest in place. */
  predicate PrefixShuffled(s: seq<Combination>, s0: seq<Combination>, i: int) {
    0 <= i < |s| == |s0| && s[i + 1..] == s0[i + 1..]
    && multiset(s[..i + 1]) == multiset(s0[..i + 1])
  }

  /** A swap at or below `i` is such a rearrangement. */
  lemma SwapShuffles(s: seq<Combination>, s0: seq<Combination>, i: int, j: int)
    requires PrefixShuffled(s, s0, i) && 0 < j <= i
    ensures PrefixShuffled(s[j - 1 := s[j]][j := s[j - 1]], s0, i)
  {
    var t := s[j - 1 := s[j]][j := s[j - 1]];
    assert t[i + 1..] == s[i + 1..];
    assert t[..i + 1] == s[..i + 1][j - 1 := s[j]][j := s[j - 1]];
  }

  /** Same prefix multiset and same suffix: the same multiset overall. */
  lemma ShuffledMultiset(s: seq<Combination>, s0: seq<Combination>, i: int)
    requires PrefixShuffled(s, s0, i)
    ensures multiset(s) == multiset(s0)
  {
    assert s == s[..i + 1] + s[i + 1..];
    assert s0 == s0[..i + 1] + s0[i + 1..];
  }

  /** Exchanges a[j - 1] and a[j]. */
  method Swap(a: array<Combination>, j: int)
    modifies a
    requires 0 < j < a.Length
    ensures a[..] == old(a[..])[j - 1 := old(a[j])][j := old(a[j - 1])]
  {
    a[j - 1], a[j] := a[j], a[j - 1];
  }

  /** Moves a[i] left past every element that the comparator puts after it. */
  method InsertAt(a: array<Combination>, i: int)
    modifies a
    requires 0 <= i < a.Length
    requires SortedBy(a[..], 0, i) && IndexedFrom(a[..], i)
    ensures SortedBy(a[..], 0, i + 1) && IndexedFrom(a[..], i + 1)
    ensures multiset(a[..]) == multiset(old(a[..]))
    ensures a[i + 1..] == old(a[i + 1..])
    ensures multiset(a[..i + 1]) == multiset(old(a[..i + 1]))
  {
    ghost var x := a[i];
    ghost var s0 := a[..];
    InsertingStart(a[..], i);
    var j := i;
    while j > 0 && Compare(a[j - 1], a[j]) > 0
      invariant Inserting(a[..], i, j, x)
      invariant PrefixShuffled(a[..], s0, i)
    {
      InsertingSwap(a[..], i, j, x);
      SwapShuffles(a[..], s0, i, j);
      Swap(a, j);
      j := j - 1;
    }
    InsertingDone(a[..], i, j, x);
    ShuffledMultiset(a[..], s0, i);
  }

  /** No two records share an index. */
  predicate DistinctIndices(s: seq<Combination>) {
    forall p, q :: 0 <= p < q < |s| ==> s[p].index != s[q].index
  }

  /** The order the sort produces is determined: two orderings of the same
      records, with pairwise different indices, that both satisfy InOrder
      throughout are equal. So every stable sort with this comparator gives
      this result. */
  lemma {:induction false} SortedPermutationUnique(s: seq<Combination>, t: seq<Combination>)
    requires multiset(s) == multiset(t) && DistinctIndices(s)
    requires SortedBy(s, 0, |s|) && SortedBy(t, 0, |t|)
    ensures s == t
    decreases |s|
  {
    assert |s| == |multiset(s)| == |multiset(t)| == |t|;
    if |s| > 0 {
      SortedHeadsEqual(s, t);
      TailsAgree(s, t);
      SortedPermutationUnique(s[1..], t[1..]);
      assert s == [s[0]] + s[1..] && t == [t[0]] + t[1..];
    }
  }

  /** Both orderings start with the same record. */
  lemma SortedHeadsEqual(s: seq<Combination>, t: seq<Combination>)
    requires multiset(s) == multiset(t) && DistinctIndices(s) && |s| > 0
    requires SortedBy(s, 0, |s|) && SortedBy(t, 0, |t|)
    ensures |t| > 0 && s[0] == t[0]
  {
    assert s[0] in multiset(t);
    assert t[0] in multiset(s);
    if s[0] != t[0] {
      var p :| 0 <= p < |s| && s[p] == t[0];
      var q :| 0 <= q < |t| && t[q] == s[0];
      assert InOrder(s[0], s[p]) && InOrder(t[0], t[q]);
      InOrderTotal(s[0], s[p]);
      assert false;
    }
  }

  /** Dropping the common first record keeps the remaining hypotheses. */
  lemma TailsAgree(s: seq<Combination>, t: seq<Combination>)
    requires multiset(s) == multiset(t) && DistinctIndices(s) && |s| > 0 && |t| > 0 && s[0] == t[0]
    requires SortedBy(s, 0, |s|) && SortedBy(t, 0, |t|)
    ensures multiset(s[1..]) == multiset(t[1..]) && DistinctIndices(s[1..])
    ensures SortedBy(s[1..], 0, |s| - 1) && SortedBy(t[1..], 0, |t| - 1)
  {
    TailMultiset(s);
    TailMultiset(t);
    SortedTail(s);
    SortedTail(t);
    forall p, q | 0 <= p < q < |s| - 1
      ensures s[1..][p].index != s[1..][q].index
    {
      assert s[1..][p] == s[p + 1] && s[1..][q] == s[q + 1];
    }
  }

  lemma TailMultiset(s: seq<Combination>)
    requires |s| > 0
    ensures multiset(s[1..]) == multiset(s) - multiset{s[0]}
  {
    assert s == [s[0]] + s[1..];
  }

  lemma SortedTail(s: seq<Combination>)
    requires |s| > 0 && SortedBy(s, 0, |s|)
    ensures SortedBy(s[1..], 0, |s| - 1)
  {
    forall p, q | 0 <= p < q < |s| - 1
      ensures InOrder(s[1..][p], s[1..][q])
    {
      assert s[1..][p] == s[p + 1] && s[1..][q] == s[q + 1];
    }
  }

  /** priority := position + 1, nothing else changes. */
  method AssignPriorities(a: array<Combination>)
    modifies a
    ensures forall k :: 0 <= k < a.Length ==> a[k] == old(a[k]).(priority := k + 1)
  {
    for k := 0 to a.Length
      invariant forall m :: 0 <= m < k ==> a[m] == old(a[m]).(priority := m + 1)
      invariant forall m :: k <= m < a.Length ==> a[m] == old(a[m])
    {
      a[k] := a[k].(priority := k + 1);
    }
  }
}
