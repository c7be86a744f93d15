/** Sums of the entries of a sequence over a set of indices. */
module IndexedSums {

  function Sum(x: seq<int>, K: set<nat>): int {
    if |x| == 0 then 0
    else Sum(x[..|x| - 1], K) + if |x| - 1 in K then x[|x| - 1] else 0
  }

  lemma {:induction false} SumUnion(x: seq<int>, A: set<nat>, B: set<nat>)
    requires A !! B
    ensures Sum(x, A + B) == Sum(x, A) + Sum(x, B)
  {
    if |x| > 0 {
      SumUnion(x[..|x| - 1], A, B);
    }
  }

  lemma {:induction false} SumSingle(x: seq<int>, m: nat)
    requires m < |x|
    ensures Sum(x, {m}) == x[m]
  {
    if m == |x| - 1 {
      SumZero(x[..m], {m});
    } else {
      SumSingle(x[..|x| - 1], m);
    }
  }

  /** Indices outside the sequence do not contribute. */
  lemma {:induction false} SumZero(x: seq<int>, K: set<nat>)
    requires forall k :: k in K && k < |x| ==> x[k] == 0
    ensures Sum(x, K) == 0
  {
    if |x| > 0 {
      SumZero(x[..|x| - 1], K);
    }
  }

  lemma SumSplit(x: seq<int>, K: set<nat>, m: nat)
    requires m < |x| && m in K
    ensures Sum(x, K) == Sum(x, K - {m}) + x[m]
  {
    SumUnion(x, K - {m}, {m});
    SumSingle(x, m);
    assert K - {m} + {m} == K;
  }

  lemma {:induction false} SumNonNegative(x: seq<int>, K: set<nat>)
    requires forall k :: k in K && k < |x| ==> x[k] >= 0
    ensures Sum(x, K) >= 0
  {
    if |x| > 0 {
      SumNonNegative(x[..|x| - 1], K);
    }
  }

  lemma {:induction false} SumNonPositive(x: seq<int>, K: set<nat>)
    requires forall k :: k in K && k < |x| ==> x[k] <= 0
    ensures Sum(x, K) <= 0
  {
    if |x| > 0 {
      SumNonPositive(x[..|x| - 1], K);
    }
  }

  /** A member is at most the sum of non-negative entries. */
  lemma SumAtLeast(x: seq<int>, K: set<nat>, m: nat)
    requires m in K && m < |x|
    requires forall k :: k in K && k < |x| ==> x[k] >= 0
    ensures x[m] <= Sum(x, K)
  {
    SumSplit(x, K, m);
    SumNonNegative(x, K - {m});
  }

  lemma SumAtLeastTwo(x: seq<int>, K: set<nat>, m: nat, n: nat)
    requires m in K && n in K && m != n && m < |x| && n < |x|
    requires forall k :: k in K && k < |x| ==> x[k] >= 0
    ensures x[m] + x[n] <= Sum(x, K)
  {
    SumSplit(x, K, m);
    SumAtLeast(x, K - {m}, n);
  }

  lemma {:induction false} SumAtLeastSize(x: seq<int>, K: set<nat>)
    requires forall k :: k in K ==> k < |x| && x[k] >= 1
    ensures |K| <= Sum(x, K)
    decreases |K|
  {
    if K == {} {
      SumZero(x, K);
    } else {
      var m :| m in K;
      SumSplit(x, K, m);
      SumAtLeastSize(x, K - {m});
    }
  }

  lemma {:induction false} SumOfOnes(x: seq<int>, K: set<nat>)
    requires forall k :: k in K ==> k < |x| && x[k] == 1
    ensures |K| == Sum(x, K)
    decreases |K|
  {
    if K == {} {
      SumZero(x, K);
    } else {
      var m :| m in K;
      SumSplit(x, K, m);
      SumOfOnes(x, K - {m});
    }
  }

  lemma SumOfParts(x: seq<int>, A: set<nat>, B: set<nat>, K: set<nat>)
    requires A !! B && A + B <= K
    requires forall k :: k in K && k < |x| ==> x[k] >= 0
    ensures Sum(x, A) + Sum(x, B) <= Sum(x, K)
  {
    SumUnion(x, A, B);
    SumUnion(x, A + B, K - A - B);
    SumNonNegative(x, K - A - B);
    assert A + B + (K - A - B) == K;
  }

  lemma SumOfThree(x: seq<int>, K: set<nat>, A: set<nat>, Z: set<nat>, D: set<nat>)
    requires A <= K && D <= K && A !! D && Z == K - A - D
    requires forall k :: k in Z && k < |x| ==> x[k] == 0
    ensures Sum(x, K) == Sum(x, A) + Sum(x, D)
  {
    SumZero(x, Z);
    SumUnion(x, A, Z);
    SumUnion(x, A + Z, D);
    assert A + Z + D == K;
  }

  /** A positive sum has a positive entry. */
  lemma SumPositive(x: seq<int>, K: set<nat>) returns (m: nat)
    requires Sum(x, K) >= 1
    ensures m in K && m < |x| && x[m] >= 1
  {
    if forall k :: k in K && k < |x| ==> x[k] <= 0 {
      SumNonPositive(x, K);
      assert false;
    }
    m :| m in K && m < |x| && x[m] > 0;
  }
}
