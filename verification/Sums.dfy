/** Weighted counts over a sequence of threads. */
module Sums {

  /** The total weight of all elements of `s`. */
  function Sum<T>(s: seq<T>, weight: T -> nat): (total: nat)
  {
    if |s| == 0 then 0 else Sum(s[..|s| - 1], weight) + weight(s[|s| - 1])
  }

  /** Replacing one element changes the total by the difference of two weights. */
  lemma {:induction false} SumUpdate<T>(s: seq<T>, weight: T -> nat, i: nat, v: T)
    requires i < |s|
    ensures Sum(s[i := v], weight) + weight(s[i]) == Sum(s, weight) + weight(v)
  {
    var n := |s| - 1;
    if i == n {
      assert s[i := v][..n] == s[..n];
    } else {
      assert s[i := v][..n] == s[..n][i := v];
      SumUpdate(s[..n], weight, i, v);
    }
  }

  /** One element weighs no more than the whole. */
  lemma {:induction false} SumAtLeast<T>(s: seq<T>, weight: T -> nat, i: nat)
    requires i < |s|
    ensures weight(s[i]) <= Sum(s, weight)
  {
    if i < |s| - 1 {
      SumAtLeast(s[..|s| - 1], weight, i);
    }
  }

  /** Two different elements together weigh no more than the whole. */
  lemma {:induction false} SumAtLeastTwo<T>(s: seq<T>, weight: T -> nat, i: nat, j: nat)
    requires i < j < |s|
    ensures weight(s[i]) + weight(s[j]) <= Sum(s, weight)
  {
    if j < |s| - 1 {
      SumAtLeastTwo(s[..|s| - 1], weight, i, j);
    } else {
      SumAtLeast(s[..|s| - 1], weight, i);
    }
  }

  /** A positive total has a witness. */
  lemma {:induction false} SumWitness<T>(s: seq<T>, weight: T -> nat) returns (i: nat)
    requires Sum(s, weight) > 0
    ensures i < |s| && weight(s[i]) > 0
  {
    i := |s| - 1;
    if weight(s[i]) == 0 {
      i := SumWitness(s[..|s| - 1], weight);
    }
  }

  /** If every element of `s` weighs nothing, so does `s`. */
  lemma {:induction false} SumZero<T>(s: seq<T>, weight: T -> nat)
    requires forall i :: 0 <= i < |s| ==> weight(s[i]) == 0
    ensures Sum(s, weight) == 0
  {
    if |s| > 0 {
      SumZero(s[..|s| - 1], weight);
    }
  }

  /** A pointwise larger weight has a larger total. */
  lemma {:induction false} SumMonotone<T>(s: seq<T>, small: T -> nat, large: T -> nat)
    requires forall i :: 0 <= i < |s| ==> small(s[i]) <= large(s[i])
    ensures Sum(s, small) <= Sum(s, large)
  {
    if |s| > 0 {
      SumMonotone(s[..|s| - 1], small, large);
    }
  }

  /** Weights that add up pointwise add up in total. */
  lemma {:induction false} SumSplit<T>(s: seq<T>, whole: T -> nat, left: T -> nat, right: T -> nat)
    requires forall i :: 0 <= i < |s| ==> whole(s[i]) == left(s[i]) + right(s[i])
    ensures Sum(s, whole) == Sum(s, left) + Sum(s, right)
  {
    if |s| > 0 {
      SumSplit(s[..|s| - 1], whole, left, right);
    }
  }

  /** With weights of at most one, the total is at most the number of elements. */
  lemma {:induction false} SumAtMostOneEach<T>(s: seq<T>, weight: T -> nat)
    requires forall i :: 0 <= i < |s| ==> weight(s[i]) <= 1
    ensures Sum(s, weight) <= |s|
  {
    if |s| > 0 {
      SumAtMostOneEach(s[..|s| - 1], weight);
    }
  }
}
