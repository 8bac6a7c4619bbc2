/** Roulette-wheel selection: scan the weights in index order, accumulating them, and stop at
    the first index whose running sum reaches the drawn value. */
module Roulette {

  /** Sum of a weight vector, accumulated left to right as the source's loops do. */
  function Sum(w: seq<real>): real
  {
    if w == [] then 0.0 else Sum(w[..|w| - 1]) + w[|w| - 1]
  }

  /** The running sum of the scan once it has added the weight of index i. */
  function RunningSum(w: seq<real>, i: nat): real
    requires i < |w|
  {
    Sum(w[..i + 1])
  }

  lemma {:induction false} SumSnoc(w: seq<real>, k: nat)
    requires k < |w|
    ensures Sum(w[..k + 1]) == Sum(w[..k]) + w[k]
  {
    assert w[..k + 1][..k] == w[..k];
  }

  /** A sum of non-negative weights is non-negative, and positive as soon as one weight is. */
  lemma {:induction false} SumSign(w: seq<real>)
    requires forall k :: 0 <= k < |w| ==> w[k] >= 0.0
    ensures Sum(w) >= 0.0
    ensures (exists k :: 0 <= k < |w| && w[k] > 0.0) ==> Sum(w) > 0.0
  {
    if w != [] {
      var t := w[..|w| - 1];
      SumSign(t);
      if exists k :: 0 <= k < |w| && w[k] > 0.0 {
        var k :| 0 <= k < |w| && w[k] > 0.0;
        if k < |w| - 1 {
          assert t[k] == w[k];
        }
      }
    }
  }

  /** The value drawn for a fraction u of the total weight: the source's
      uniform_real_distribution(0, total) draw, written as a fraction of total. */
  function Draw(u: real, w: seq<real>): real
  {
    u * Sum(w)
  }

  /** The scan from index k with running sum acc: the first index j >= k at which the running
      sum reaches r, or the sentinel -1 when the scan runs off the end. */
  function PickFrom(w: seq<real>, r: real, k: nat, acc: real): int
    requires k <= |w|
    decreases |w| - k
  {
    if k == |w| then -1
    else if acc + w[k] >= r then k
    else PickFrom(w, r, k + 1, acc + w[k])
  }

  /** The index the roulette wheel selects for draw r. */
  function Pick(w: seq<real>, r: real): int
  {
    PickFrom(w, r, 0, 0.0)
  }

  /** The scan started at k with the true running sum selects the first index from k on whose
      prefix sum reaches r, and -1 exactly when no such index exists. */
  lemma {:induction false} PickFromFirstReaching(w: seq<real>, r: real, k: nat)
    requires k <= |w|
    ensures var j := PickFrom(w, r, k, Sum(w[..k]));
      && -1 <= j < |w|
      && (j == -1 <==> forall i :: k <= i < |w| ==> RunningSum(w, i) < r)
      && (j != -1 ==> k <= j && RunningSum(w, j) >= r && forall i :: k <= i < j ==> RunningSum(w, i) < r)
    decreases |w| - k
  {
    if k < |w| {
      SumSnoc(w, k);
      PickFromFirstReaching(w, r, k + 1);
    }
  }

  /** Pick selects the smallest index whose prefix sum is at least r, and returns the sentinel
      -1 exactly when no prefix sum reaches r. */
  lemma {:induction false} PickIsFirstReaching(w: seq<real>, r: real)
    ensures -1 <= Pick(w, r) < |w|
    ensures Pick(w, r) == -1 <==> forall i :: 0 <= i < |w| ==> RunningSum(w, i) < r
    ensures Pick(w, r) != -1 ==>
      RunningSum(w, Pick(w, r)) >= r && forall i :: 0 <= i < Pick(w, r) ==> RunningSum(w, i) < r
  {
    assert w[..0] == [];
    PickFromFirstReaching(w, r, 0);
  }

  /** For a draw with 0 < r <= Sum(w) the wheel never returns the sentinel, and the index it
      selects carries a strictly positive weight. */
  lemma {:induction false} PickPositiveWeight(w: seq<real>, r: real)
    requires 0.0 < r <= Sum(w)
    ensures 0 <= Pick(w, r) < |w|
    ensures w[Pick(w, r)] > 0.0
  {
    PickIsFirstReaching(w, r);
    var j := Pick(w, r);
    assert w != [];
    assert w[..|w|] == w;
    assert RunningSum(w, |w| - 1) >= r;
    SumSnoc(w, j);
    if j > 0 {
      assert RunningSum(w, j - 1) < r;
    } else {
      assert w[..0] == [];
    }
  }

  /** A fraction in (0, 1) of a positive total lies strictly between 0 and the total. */
  lemma ScaledDrawInRange(u: real, total: real, r: real)
    requires 0.0 < u < 1.0 && total > 0.0 && r == u * total
    ensures 0.0 < r
    ensures r < total
  {
    var v := 1.0 - u;
    assert v > 0.0;
    assert v * total > 0.0;
    assert total - r == v * total;
  }

  /** A fraction in [0, 1) of a non-negative total lies between 0 and the total. */
  lemma ScaledDrawAtMostTotal(u: real, total: real, r: real)
    requires 0.0 <= u < 1.0 && total >= 0.0 && r == u * total
    ensures 0.0 <= r <= total
  {
    var v := 1.0 - u;
    if total > 0.0 {
      assert v * total > 0.0;
    } else {
      assert v * total == 0.0;
    }
    assert total - r == v * total;
  }

  /** Over non-negative weights the scan never runs off the end: a draw of a fraction in
      [0, 1) of the total always selects an index, so the sentinel -1 never comes back. */
  lemma {:induction false} DrawNeverMisses(w: seq<real>, u: real)
    requires |w| > 0 && forall k :: 0 <= k < |w| ==> w[k] >= 0.0
    requires 0.0 <= u < 1.0
    ensures 0 <= Pick(w, Draw(u, w)) < |w|
  {
    SumSign(w);
    ScaledDrawAtMostTotal(u, Sum(w), Draw(u, w));
    PickIsFirstReaching(w, Draw(u, w));
    assert w[..|w|] == w;
    assert RunningSum(w, |w| - 1) >= Draw(u, w);
  }

  /** Over non-negative weights with at least one positive weight, a non-zero draw never
      leaves the wheel and always lands on an index of positive weight. */
  lemma {:induction false} DrawLandsOnPositiveWeight(w: seq<real>, u: real)
    requires forall k :: 0 <= k < |w| ==> w[k] >= 0.0
    requires exists k :: 0 <= k < |w| && w[k] > 0.0
    requires 0.0 < u < 1.0
    ensures 0 <= Pick(w, Draw(u, w)) < |w|
    ensures w[Pick(w, Draw(u, w))] > 0.0
  {
    SumSign(w);
    ScaledDrawInRange(u, Sum(w), Draw(u, w));
    PickPositiveWeight(w, Draw(u, w));
  }

  /** The weakness of the source's ">=" test: a draw of 0 selects index 0 whatever its weight,
      in particular a zero-weight (already visited) city 0. */
  lemma {:induction false} ZeroDrawPicksFirst(w: seq<real>)
    requires |w| > 0 && w[0] >= 0.0
    ensures Pick(w, 0.0) == 0
  {
  }

  /** The scan of the source (the inner loop with its early break): accumulates the weights
      and stops at the first index whose running sum reaches r, or leaves the sentinel -1. */
  method Spin(w: seq<real>, r: real) returns (chosen: int)
    ensures chosen == Pick(w, r)
    ensures -1 <= chosen < |w|
  {
    PickIsFirstReaching(w, r);
    var sum := 0.0;
    chosen := -1;
    var j := 0;
    while j < |w|
      invariant 0 <= j <= |w|
      invariant Pick(w, r) == PickFrom(w, r, j, sum)
    {
      sum := sum + w[j];
      if sum >= r {
        chosen := j;
        break;
      }
      j := j + 1;
    }
  }
}
