/** The distance between two feature rows (`euclidean`), without the final square root. */
module Distance {
  import opened KnnTypes

  /** The squared differences (x2[i] - x1[i])^2, summed in index order; never negative. */
  function SquaredSum(x1: Point, x2: Point): (r: int)
    requires |x1| == |x2|
    ensures r >= 0
    decreases |x1|
  {
    if |x1| == 0 then 0
    else
      var n := |x1| - 1;
      SquareNonNegative(x2[n] - x1[n]);
      SquaredSum(x1[..n], x2[..n]) + (x2[n] - x1[n]) * (x2[n] - x1[n])
  }

  /** `euclidean`: rows of different length are rejected; otherwise the squared distance,
      which is never negative and is zero exactly for identical rows. */
  function Euclidean(x1: Point, x2: Point): (r: Result<int>)
    ensures r.Failure? <==> |x1| != |x2|
    ensures r.Failure? ==> r.error == DimensionMismatch
    ensures r.Success? ==> r.value >= 0
    ensures r.Success? ==> (r.value == 0 <==> x1 == x2)
  {
    if |x1| != |x2| then Failure(DimensionMismatch)
    else
      SquaredSumZeroIff(x1, x2);
      Success(SquaredSum(x1, x2))
  }

  /** The accumulating loop of `euclidean`, which agrees with the recursive definition. */
  method ComputeEuclidean(x1: Point, x2: Point) returns (r: Result<int>)
    ensures r == Euclidean(x1, x2)
  {
    if |x1| != |x2| {
      return Failure(DimensionMismatch);
    }
    var distance := 0;
    var i := 0;
    while i < |x1|
      invariant 0 <= i <= |x1|
      invariant distance == SquaredSum(x1[..i], x2[..i])
    {
      assert x1[..i + 1][..i] == x1[..i] && x2[..i + 1][..i] == x2[..i];
      distance := distance + (x2[i] - x1[i]) * (x2[i] - x1[i]);
      i := i + 1;
    }
    assert x1[..i] == x1 && x2[..i] == x2;
    r := Success(distance);
  }

  /** The accumulated sum is at least each single squared difference. */
  lemma {:induction false} SquaredSumBoundsTerms(x1: Point, x2: Point, i: nat)
    requires |x1| == |x2| && i < |x1|
    ensures (x2[i] - x1[i]) * (x2[i] - x1[i]) <= SquaredSum(x1, x2)
    decreases |x1|
  {
    var n := |x1| - 1;
    if i < n {
      SquaredSumBoundsTerms(x1[..n], x2[..n], i);
      SquareNonNegative(x2[n] - x1[n]);
    }
  }

  lemma SquareNonNegative(d: int)
    ensures d * d >= 0
    ensures d != 0 ==> d * d > 0
  {
  }

  /** The squared distance vanishes exactly on identical rows. */
  lemma {:induction false} SquaredSumZeroIff(x1: Point, x2: Point)
    requires |x1| == |x2|
    ensures SquaredSum(x1, x2) == 0 <==> x1 == x2
    decreases |x1|
  {
    if |x1| > 0 {
      var n := |x1| - 1;
      SquaredSumZeroIff(x1[..n], x2[..n]);
      var d := x2[n] - x1[n];
      SquareNonNegative(d);
      assert SquaredSum(x1, x2) == SquaredSum(x1[..n], x2[..n]) + d * d;
      assert x1 == x1[..n] + [x1[n]];
      assert x2 == x2[..n] + [x2[n]];
      if SquaredSum(x1, x2) == 0 {
        assert d * d == 0;
        assert d == 0;
        assert x1[n] == x2[n];
      }
    }
  }

  /** Swapping the rows does not change the squared distance. */
  lemma {:induction false} SquaredSumSymmetric(x1: Point, x2: Point)
    requires |x1| == |x2|
    ensures SquaredSum(x1, x2) == SquaredSum(x2, x1)
    decreases |x1|
  {
    if |x1| > 0 {
      var n := |x1| - 1;
      SquaredSumSymmetric(x1[..n], x2[..n]);
      assert (x2[n] - x1[n]) * (x2[n] - x1[n]) == (x1[n] - x2[n]) * (x1[n] - x2[n]);
    }
  }

  /** `euclidean` is symmetric, including in the rows it rejects. */
  lemma EuclideanSymmetric(x1: Point, x2: Point)
    ensures Euclidean(x1, x2) == Euclidean(x2, x1)
  {
    if |x1| == |x2| {
      SquaredSumSymmetric(x1, x2);
    }
  }
}
