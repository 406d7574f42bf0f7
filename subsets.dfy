/** generateCombinations: every in-order subset of size 1 .. maxSize. */
module Subsets {

  /** What the backtracking appends from state (start, current): `current`
      itself when it is non-empty, then, unless `current` already holds
      maxSize items, its extensions by items[start], ..., items[n-1]. */
  function Gen<T>(items: seq<T>, maxSize: nat, start: nat, current: seq<T>): seq<seq<T>>
    requires start <= |items|
    decreases |items| - start, 1, 0
  {
    (if |current| > 0 then [current] else [])
    + (if |current| == maxSize then [] else Extensions(items, maxSize, start, |items|, current))
  }

  /** What the loop appends for items[start], ..., items[i-1], in that order. */
  function Extensions<T>(items: seq<T>, maxSize: nat, start: nat, i: nat, current: seq<T>): seq<seq<T>>
    requires start <= i <= |items|
    decreases |items| - start, 0, i - start
  {
    if i == start then []
    else Extensions(items, maxSize, start, i - 1, current) + Gen(items, maxSize, i, current + [items[i - 1]])
  }

  /** The result of generateCombinations(items, maxSize). */
  function Combinations<T>(items: seq<T>, maxSize: nat): seq<seq<T>> {
    Gen(items, maxSize, 0, [])
  }

  /** The recursion of generateCombinations; `current` and `result` are passed by value,
      and each recursive call returns the extended result. */
  method GenerateCombinations<T>(items: seq<T>, maxSize: nat, start: nat, current: seq<T>, result: seq<seq<T>>)
    returns (out: seq<seq<T>>)
    requires start <= |items|
    ensures out == result + Gen(items, maxSize, start, current)
    decreases |items| - start
  {
    out := result;
    if |current| > 0 {
      out := out + [current];
    }
    if |current| == maxSize {
      return;
    }
    for i := start to |items|
      invariant out == result + (if |current| > 0 then [current] else []) + Extensions(items, maxSize, start, i, current)
    {
      out := GenerateCombinations(items, maxSize, i + 1, current + [items[i]], out);
    }
  }

  /* ---------- counting ---------- */

  /** Binomial coefficient by Pascal's rule. */
  function Binom(n: nat, k: nat): nat {
    if k == 0 then 1 else if n == 0 then 0 else Binom(n - 1, k - 1) + Binom(n - 1, k)
  }

  /** C(n,1) + ... + C(n,k). */
  function SumBinom(n: nat, k: nat): nat {
    if k == 0 then 0 else SumBinom(n, k - 1) + Binom(n, k)
  }

  lemma {:induction false} SumBinomStep(n: nat, b: nat)
    requires n >= 1 && b >= 1
    ensures SumBinom(n, b) == 1 + SumBinom(n - 1, b - 1) + SumBinom(n - 1, b)
  {
    assert Binom(n, b) == Binom(n - 1, b - 1) + Binom(n - 1, b);
    if b > 1 {
      SumBinomStep(n, b - 1);
      assert SumBinom(n - 1, b - 1) == SumBinom(n - 1, b - 2) + Binom(n - 1, b - 1);
    } else {
      assert SumBinom(n - 1, 1) == Binom(n - 1, 1);
    }
  }

  lemma {:induction false} SumBinomOfZero(k: nat)
    ensures SumBinom(0, k) == 0
  {
    if k > 0 {
      SumBinomOfZero(k - 1);
    }
  }

  lemma {:induction false} BinomAboveN(n: nat, k: nat)
    requires k > n
    ensures Binom(n, k) == 0
  {
    if n > 0 {
      BinomAboveN(n - 1, k - 1);
      BinomAboveN(n - 1, k);
    }
  }

  /** Sizes above n add nothing: the sum runs to min(k, n). */
  lemma {:induction false} SumBinomCapped(n: nat, k: nat)
    ensures SumBinom(n, k) == SumBinom(n, if k < n then k else n)
  {
    if k > n {
      SumBinomCapped(n, k - 1);
      BinomAboveN(n, k);
    }
  }

  lemma {:induction false} GenCount<T>(items: seq<T>, maxSize: nat, start: nat, current: seq<T>)
    requires start <= |items| && |current| <= maxSize
    ensures |Gen(items, maxSize, start, current)|
            == (if |current| > 0 then 1 else 0) + SumBinom(|items| - start, maxSize - |current|)
    decreases |items| - start, 1, 0
  {
    if |current| < maxSize {
      ExtensionsCount(items, maxSize, start, |items|, current);
      SumBinomOfZero(maxSize - |current|);
    }
  }

  lemma {:induction false} ExtensionsCount<T>(items: seq<T>, maxSize: nat, start: nat, i: nat, current: seq<T>)
    requires start <= i <= |items| && |current| < maxSize
    ensures |Extensions(items, maxSize, start, i, current)| + SumBinom(|items| - i, maxSize - |current|)
            == SumBinom(|items| - start, maxSize - |current|)
    decreases |items| - start, 0, i - start
  {
    if i > start {
      var next := current + [items[i - 1]];
      var b := maxSize - |current|;
      ExtensionsCount(items, maxSize, start, i - 1, current);
      GenCount(items, maxSize, i, next);
      SumBinomStep(|items| - i + 1, b);
      assert |Extensions(items, maxSize, start, i, current)|
             == |Extensions(items, maxSize, start, i - 1, current)| + |Gen(items, maxSize, i, next)|;
      assert |Gen(items, maxSize, i, next)| == 1 + SumBinom(|items| - i, b - 1);
    }
  }

  /** There are exactly C(n,1) + ... + C(n,min(maxSize,n)) subsets. */
  lemma CombinationsCount<T>(items: seq<T>, maxSize: nat)
    ensures |Combinations(items, maxSize)| == SumBinom(|items|, maxSize)
    ensures |Combinations(items, maxSize)| == SumBinom(|items|, if maxSize < |items| then maxSize else |items|)
  {
    GenCount(items, maxSize, 0, []);
    SumBinomCapped(|items|, maxSize);
  }

  /* ---------- shape ---------- */

  /** Strictly increasing positions, all in [lo, n). */
  predicate IndexPath(ix: seq<nat>, lo: nat, n: nat) {
    (forall p :: 0 <= p < |ix| ==> lo <= ix[p] < n)
    && (forall p, q :: 0 <= p < q < |ix| ==> ix[p] < ix[q])
  }

  /** The items at the given positions. */
  function Pick<T>(items: seq<T>, ix: seq<nat>): (r: seq<T>)
    requires forall p :: 0 <= p < |ix| ==> ix[p] < |items|
    ensures |r| == |ix| && forall p :: 0 <= p < |ix| ==> r[p] == items[ix[p]]
  {
    seq(|ix|, p requires 0 <= p < |ix| => items[ix[p]])
  }

  lemma {:induction false} GenShape<T>(items: seq<T>, maxSize: nat, start: nat, current: seq<T>, e: seq<T>)
    returns (ix: seq<nat>)
    requires start <= |items| && |current| <= maxSize
    requires e in Gen(items, maxSize, start, current)
    ensures IndexPath(ix, start, |items|) && e == current + Pick(items, ix)
    ensures 1 <= |e| <= maxSize
    decreases |items| - start, 1, 0
  {
    if |current| > 0 && e == current {
      ix := [];
      assert e == current + Pick(items, ix);
    } else {
      ix := ExtensionsShape(items, maxSize, start, |items|, current, e);
    }
  }

  lemma {:induction false} ExtensionsShape<T>(items: seq<T>, maxSize: nat, start: nat, i: nat, current: seq<T>, e: seq<T>)
    returns (ix: seq<nat>)
    requires start <= i <= |items| && |current| < maxSize
    requires e in Extensions(items, maxSize, start, i, current)
    ensures IndexPath(ix, start, |items|) && |ix| >= 1 && ix[0] < i && e == current + Pick(items, ix)
    ensures |e| <= maxSize
    decreases |items| - start, 0, i - start
  {
    var next := current + [items[i - 1]];
    var earlier := Extensions(items, maxSize, start, i - 1, current);
    assert Extensions(items, maxSize, start, i, current) == earlier + Gen(items, maxSize, i, next);
    if e in earlier {
      ix := ExtensionsShape(items, maxSize, start, i - 1, current, e);
    } else {
      assert e in Gen(items, maxSize, i, next);
      var rest := GenShape(items, maxSize, i, next, e);
      ix := [i - 1] + rest;
      IndexPathCons(i - 1, rest, start, |items|);
      PickCons(items, i - 1, rest);
      AppendAssoc(current, [items[i - 1]], Pick(items, rest));
      assert e == current + Pick(items, ix);
    }
  }

  lemma IndexPathCons(j: nat, rest: seq<nat>, lo: nat, n: nat)
    requires lo <= j < n && IndexPath(rest, j + 1, n)
    ensures IndexPath([j] + rest, lo, n)
  {
  }

  lemma IndexPathTail(ix: seq<nat>, lo: nat, n: nat)
    requires IndexPath(ix, lo, n) && |ix| >= 1
    ensures IndexPath(ix[1..], ix[0] + 1, n)
  {
    forall p | 0 <= p < |ix| - 1
      ensures ix[0] + 1 <= ix[1..][p]
    {
      assert ix[0] < ix[p + 1];
    }
  }

  lemma AppendAssoc<T>(a: seq<T>, b: seq<T>, c: seq<T>)
    ensures a + (b + c) == (a + b) + c
  {
  }

  lemma PickCons<T>(items: seq<T>, j: nat, rest: seq<nat>)
    requires j < |items| && forall p :: 0 <= p < |rest| ==> rest[p] < |items|
    ensures Pick(items, [j] + rest) == [items[j]] + Pick(items, rest)
  {
  }

  /** Every subset lists items of strictly increasing input position and has
      between 1 and maxSize items. */
  lemma CombinationShape<T>(items: seq<T>, maxSize: nat, e: seq<T>) returns (ix: seq<nat>)
    requires e in Combinations(items, maxSize)
    ensures IndexPath(ix, 0, |items|) && e == Pick(items, ix)
    ensures 1 <= |e| <= maxSize
  {
    ix := GenShape(items, maxSize, 0, [], e);
  }

  /* ---------- no duplicates ---------- */

  ghost predicate Distinct<T>(s: seq<T>) {
    forall p, q :: 0 <= p < q < |s| ==> s[p] != s[q]
  }

  lemma DistinctConcat<T>(a: seq<T>, b: seq<T>)
    requires Distinct(a) && Distinct(b)
    requires forall x, y :: x in a && y in b ==> x != y
    ensures Distinct(a + b)
  {
    forall p, q | 0 <= p < q < |a + b|
      ensures (a + b)[p] != (a + b)[q]
    {
      if q >= |a| && p < |a| {
        assert (a + b)[p] in a && (a + b)[q] in b;
      }
    }
  }

  lemma {:induction false} GenDistinct<T>(items: seq<T>, maxSize: nat, start: nat, current: seq<T>)
    requires Distinct(items) && start <= |items| && |current| <= maxSize
    ensures Distinct(Gen(items, maxSize, start, current))
    decreases |items| - start, 1, 0
  {
    if |current| < maxSize {
      var ext := Extensions(items, maxSize, start, |items|, current);
      ExtensionsDistinct(items, maxSize, start, |items|, current);
      var head := if |current| > 0 then [current] else [];
      forall x, y | x in head && y in ext
        ensures x != y
      {
        var ix := ExtensionsShape(items, maxSize, start, |items|, current, y);
      }
      DistinctConcat(head, ext);
    }
  }

  lemma {:induction false} ExtensionsDistinct<T>(items: seq<T>, maxSize: nat, start: nat, i: nat, current: seq<T>)
    requires Distinct(items) && start <= i <= |items| && |current| < maxSize
    ensures Distinct(Extensions(items, maxSize, start, i, current))
    decreases |items| - start, 0, i - start
  {
    if i > start {
      var earlier := Extensions(items, maxSize, start, i - 1, current);
      var next := current + [items[i - 1]];
      var later := Gen(items, maxSize, i, next);
      ExtensionsDistinct(items, maxSize, start, i - 1, current);
      GenDistinct(items, maxSize, i, next);
      forall x, y | x in earlier && y in later
        ensures x != y
      {
        var ix := ExtensionsShape(items, maxSize, start, i - 1, current, x);
        var iy := GenShape(items, maxSize, i, next, y);
        assert x[|current|] == items[ix[0]];
        assert y[|current|] == items[i - 1];
      }
      DistinctConcat(earlier, later);
    }
  }

  /** From distinct items no subset is produced twice. */
  lemma CombinationsDistinct<T>(items: seq<T>, maxSize: nat)
    requires Distinct(items)
    ensures Distinct(Combinations(items, maxSize))
  {
    GenDistinct(items, maxSize, 0, []);
  }

  /* ---------- every subset is produced ---------- */

  lemma {:induction false} GenComplete<T>(items: seq<T>, maxSize: nat, start: nat, current: seq<T>, ix: seq<nat>)
    requires start <= |items| && IndexPath(ix, start, |items|)
    requires 1 <= |current| + |ix| <= maxSize
    ensures current + Pick(items, ix) in Gen(items, maxSize, start, current)
    decreases |items| - start, 1, 0
  {
    if |ix| == 0 {
      assert current + Pick(items, ix) == current;
    } else {
      ExtensionsComplete(items, maxSize, start, |items|, current, ix);
    }
  }

  lemma {:induction false} ExtensionsComplete<T>(items: seq<T>, maxSize: nat, start: nat, i: nat, current: seq<T>, ix: seq<nat>)
    requires start <= i <= |items| && IndexPath(ix, start, |items|)
    requires |ix| >= 1 && ix[0] < i && |current| + |ix| <= maxSize
    ensures current + Pick(items, ix) in Extensions(items, maxSize, start, i, current)
    decreases |items| - start, 0, i - start
  {
    var next := current + [items[i - 1]];
    var earlier := Extensions(items, maxSize, start, i - 1, current);
    assert Extensions(items, maxSize, start, i, current) == earlier + Gen(items, maxSize, i, next);
    if ix[0] == i - 1 {
      var rest := ix[1..];
      IndexPathTail(ix, start, |items|);
      GenComplete(items, maxSize, i, next, rest);
      assert ix == [i - 1] + rest;
      PickCons(items, i - 1, rest);
      AppendAssoc(current, [items[i - 1]], Pick(items, rest));
    } else {
      ExtensionsComplete(items, maxSize, start, i - 1, current, ix);
    }
  }

  /** Every choice of 1 .. maxSize items in input order is produced. */
  lemma CombinationsComplete<T>(items: seq<T>, maxSize: nat, ix: seq<nat>)
    requires IndexPath(ix, 0, |items|) && 1 <= |ix| <= maxSize
    ensures Pick(items, ix) in Combinations(items, maxSize)
  {
    GenComplete(items, maxSize, 0, [], ix);
    assert [] + Pick(items, ix) == Pick(items, ix);
  }
}
