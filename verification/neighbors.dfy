/** `getkneighbors`: for every test row, the indices of the training rows ordered by distance,
    cut to the first k. */
module Neighbors {
  import opened KnnTypes
  import opened Distance
  import opened StableSort

  /** Every training row has the length of q. */
  predicate Conformant(q: Point, train: seq<Point>) {
    forall j :: 0 <= j < |train| ==> |train[j]| == |q|
  }

  /** Every test row has the length of every training row. */
  predicate Uniform(train: seq<Point>, test: seq<Point>) {
    forall i :: 0 <= i < |test| ==> Conformant(test[i], train)
  }

  /** The dict of lines 57-58: for each training row j, in row order, the (squared) `euclidean`
      distance from q to row j, as a sort key. */
  function Distances(q: Point, train: seq<Point>): (r: seq<real>)
    requires Conformant(q, train)
    ensures |r| == |train|
  {
    seq(|train|, j requires 0 <= j < |train| => SquaredSum(q, train[j]) as real)
  }

  /** Key j is what `euclidean` (before the square root) gives for q and training row j. */
  lemma DistancesAreEuclidean(q: Point, train: seq<Point>)
    requires Conformant(q, train)
    ensures forall j :: 0 <= j < |train| ==>
      Euclidean(q, train[j]).Success? && Distances(q, train)[j] == Euclidean(q, train[j]).value as real
  {
  }

  /** The length of the Python slice s[:k] of a list s of length n; a negative k counts from the end. */
  function SliceLength(k: int, n: nat): (m: nat)
    ensures m <= n
    ensures k >= n ==> m == n
    ensures 0 <= k <= n ==> m == k
    ensures -(n as int) < k < 0 ==> m == n + k
    ensures k <= -(n as int) ==> m == 0
  {
    if k >= 0 then (if k < n then k else n)
    else if n + k > 0 then n + k else 0
  }

  /** r is the neighbour list for the distance vector dist: as long as the slice [:k] allows,
      in ascending distance with ties in ascending index, every index left out lying
      behind every index kept. */
  predicate IsKNearest(r: seq<nat>, dist: seq<real>, k: int) {
    && |r| == SliceLength(k, |dist|)
    && InBounds(r, |dist|)
    && Ranked(r, dist)
    && forall i, j :: 0 <= i < |r| && 0 <= j < |dist| && j !in r ==> Precedes(r[i], j, dist)
  }

  /** What a neighbour list guarantees, spelled out: for k >= 0 it has min(k, n) entries, its indices
      are distinct, their distances never decrease, and an index left out is at least as far as any
      index kept. */
  lemma KNearestFacts(r: seq<nat>, dist: seq<real>, k: int)
    requires IsKNearest(r, dist, k)
    ensures k >= 0 ==> |r| == if k < |dist| then k else |dist|
    ensures forall i, j :: 0 <= i < j < |r| ==> r[i] != r[j] && dist[r[i]] <= dist[r[j]]
    ensures forall i, j :: 0 <= i < |r| && 0 <= j < |dist| && j !in r ==> dist[r[i]] <= dist[j]
  {
    forall i, j | 0 <= i < j < |r|
      ensures r[i] != r[j] && dist[r[i]] <= dist[r[j]]
    {
      assert Precedes(r[i], r[j], dist);
    }
  }

  /** The inner loop of `getkneighbors`: `euclidean` from q to every training row, failing
      exactly when some training row has another length than q. */
  function RowDistances(q: Point, train: seq<Point>): (r: Result<seq<real>>)
    ensures r.Failure? <==> !Conformant(q, train)
    ensures r.Failure? ==> r.error == DimensionMismatch
    ensures r.Success? ==> r.value == Distances(q, train)
    decreases |train|
  {
    if |train| == 0 then Success([])
    else
      ConformantSplit(q, train);
      var d :- Euclidean(q, train[0]);
      var rest :- RowDistances(q, train[1..]);
      DistancesSplit(q, train);
      Success([d as real] + rest)
  }

  /** Every training row conforms exactly when the first one and the remaining ones do. */
  lemma ConformantSplit(q: Point, train: seq<Point>)
    requires |train| > 0
    ensures Conformant(q, train) <==> |train[0]| == |q| && Conformant(q, train[1..])
  {
    if |train[0]| == |q| && Conformant(q, train[1..]) {
      forall j | 0 < j < |train|
        ensures |train[j]| == |q|
      {
        assert train[j] == train[1..][j - 1];
      }
    }
  }

  /** The distance vector is the first row's distance followed by the others'. */
  lemma DistancesSplit(q: Point, train: seq<Point>)
    requires |train| > 0 && Conformant(q, train) && Conformant(q, train[1..])
    ensures Distances(q, train) == [SquaredSum(q, train[0]) as real] + Distances(q, train[1..])
  {
    var whole := Distances(q, train);
    var split := [SquaredSum(q, train[0]) as real] + Distances(q, train[1..]);
    forall j | 0 <= j < |train|
      ensures whole[j] == split[j]
    {
      if j > 0 {
        assert train[j] == train[1..][j - 1];
      }
    }
  }

  /** Sorting all indices 0..n-1 loses none of them. */
  lemma SortKeepsAllIndices(dist: seq<real>)
    ensures forall j :: 0 <= j < |dist| ==> j in SortByKey(Range(|dist|), dist)
  {
    var all := Range(|dist|);
    var f := SortByKey(all, dist);
    forall j | 0 <= j < |dist|
      ensures j in f
    {
      assert all[j] == j;
      assert j in multiset(all);
      assert j in multiset(f);
    }
  }

  /** A prefix of a ranking of every index is ranked, and keeps every index it leaves out
      behind every index it keeps. */
  lemma PrefixOfRanking(f: seq<nat>, dist: seq<real>, m: nat)
    requires InBounds(f, |dist|) && Ranked(f, dist)
    requires forall j :: 0 <= j < |dist| ==> j in f
    requires m <= |f|
    ensures InBounds(f[..m], |dist|) && Ranked(f[..m], dist)
    ensures forall i, j :: 0 <= i < m && 0 <= j < |dist| && j !in f[..m] ==> Precedes(f[..m][i], j, dist)
  {
    var r := f[..m];
    forall i, j | 0 <= i < m && 0 <= j < |dist|
      ensures j !in r ==> Precedes(r[i], j, dist)
    {
      assert j in f;
      var p :| 0 <= p < |f| && f[p] == j;
      if p < m {
        assert r[p] == j;
      } else {
        assert Precedes(f[i], f[p], dist);
      }
    }
  }

  /** The slice [:k] of any ranking of all indices is a neighbour list, and with k at least the
      number of rows it keeps every index. */
  lemma SliceOfRanking(f: seq<nat>, dist: seq<real>, k: int)
    requires |f| == |dist| && InBounds(f, |dist|) && Ranked(f, dist)
    requires forall j :: 0 <= j < |dist| ==> j in f
    ensures IsKNearest(f[..SliceLength(k, |dist|)], dist, k)
    ensures k >= |dist| ==> forall j :: 0 <= j < |dist| ==> j in f[..SliceLength(k, |dist|)]
  {
    var m := SliceLength(k, |dist|);
    PrefixOfRanking(f, dist, m);
    assert |f[..m]| == m;
    if k >= |dist| {
      assert f[..m] == f;
    }
  }

  /** A stably sorted prefix of all training indices satisfies the declarative neighbour-list
      reading, and with k at least the number of rows it holds every index. */
  lemma RankedPrefixIsKNearest(dist: seq<real>, k: int)
    ensures var n := |dist|;
      IsKNearest(SortByKey(Range(n), dist)[..SliceLength(k, n)], dist, k)
    ensures var n := |dist|;
      k >= n ==> forall j :: 0 <= j < n ==> j in SortByKey(Range(n), dist)[..SliceLength(k, n)]
  {
    var all := Range(|dist|);
    var f := SortByKey(all, dist);
    SortRanked(all, dist);
    SortKeepsAllIndices(dist);
    SliceOfRanking(f, dist, k);
  }

  /** One pass of the outer loop of `getkneighbors` (lines 55-62): the neighbour list of one test row. */
  function NearestOf(q: Point, train: seq<Point>, k: int): (r: Result<seq<nat>>)
    ensures r.Failure? <==> !Conformant(q, train)
    ensures r.Failure? ==> r.error == DimensionMismatch
    ensures r.Success? ==> IsKNearest(r.value, Distances(q, train), k)
    ensures r.Success? && k >= |train| ==> forall j :: 0 <= j < |train| ==> j in r.value
  {
    var dist :- RowDistances(q, train);
    RankedPrefixIsKNearest(dist, k);
    var order := SortByKey(Range(|train|), dist);
    Success(order[..SliceLength(k, |order|)])
  }

  /** `getkneighbors`: one neighbour list per test row, in test-row order; a dimension mismatch
      between any test row and any training row is an error. */
  function GetKNeighbors(train: seq<Point>, test: seq<Point>, k: int): (r: Result<seq<seq<nat>>>)
    ensures r.Failure? <==> !Uniform(train, test)
    ensures r.Failure? ==> r.error == DimensionMismatch
    ensures r.Success? ==> |r.value| == |test|
    ensures r.Success? ==> forall i :: 0 <= i < |test| ==> IsKNearest(r.value[i], Distances(test[i], train), k)
    ensures r.Success? && k >= |train| ==>
      forall i, j :: 0 <= i < |test| && 0 <= j < |train| ==> j in r.value[i]
    decreases |test|
  {
    if |test| == 0 then Success([])
    else
      UniformSplit(train, test);
      var row :- NearestOf(test[0], train, k);
      var rest :- GetKNeighbors(train, test[1..], k);
      PrependRow(train, test, k, row, rest);
      Success([row] + rest)
  }

  /** A batch of test rows conforms exactly when its first row and the remaining rows do. */
  lemma UniformSplit(train: seq<Point>, test: seq<Point>)
    requires |test| > 0
    ensures Uniform(train, test) <==> Conformant(test[0], train) && Uniform(train, test[1..])
  {
    if Conformant(test[0], train) && Uniform(train, test[1..]) {
      forall i | 0 < i < |test|
        ensures Conformant(test[i], train)
      {
        assert test[i] == test[1..][i - 1];
      }
    }
  }

  /** Putting the list of the first test row in front of the lists of the others gives a list per
      test row. */
  lemma PrependRow(train: seq<Point>, test: seq<Point>, k: int, row: seq<nat>, rest: seq<seq<nat>>)
    requires |test| > 0 && Uniform(train, test) && Uniform(train, test[1..])
    requires IsKNearest(row, Distances(test[0], train), k)
    requires k >= |train| ==> forall j :: 0 <= j < |train| ==> j in row
    requires |rest| == |test| - 1
    requires forall i :: 0 <= i < |rest| ==> IsKNearest(rest[i], Distances(test[1..][i], train), k)
    requires k >= |train| ==> forall i, j :: 0 <= i < |rest| && 0 <= j < |train| ==> j in rest[i]
    ensures forall i :: 0 <= i < |test| ==> IsKNearest(([row] + rest)[i], Distances(test[i], train), k)
    ensures k >= |train| ==>
      forall i, j :: 0 <= i < |test| && 0 <= j < |train| ==> j in ([row] + rest)[i]
  {
    forall i | 0 < i < |test|
      ensures test[i] == test[1..][i - 1] && ([row] + rest)[i] == rest[i - 1]
    {
    }
  }

  /** With agreement before position p, r1[p] cannot come strictly before r2[p]. */
  lemma NotAhead(r1: seq<nat>, r2: seq<nat>, dist: seq<real>, k: int, p: nat)
    requires IsKNearest(r1, dist, k) && IsKNearest(r2, dist, k)
    requires p < |r1|
    requires forall q :: 0 <= q < p ==> r1[q] == r2[q]
    ensures !Precedes(r1[p], r2[p], dist)
  {
    var a := r1[p];
    if a in r2 {
      var q :| 0 <= q < |r2| && r2[q] == a;
      if p < q {
        assert Precedes(r2[p], r2[q], dist);
      }
    }
  }

  lemma {:induction false} AgreeUpTo(r1: seq<nat>, r2: seq<nat>, dist: seq<real>, k: int, p: nat)
    requires IsKNearest(r1, dist, k) && IsKNearest(r2, dist, k)
    requires p < |r1|
    ensures forall q :: 0 <= q <= p ==> r1[q] == r2[q]
    decreases p
  {
    if p > 0 {
      AgreeUpTo(r1, r2, dist, k, p - 1);
    }
    NotAhead(r1, r2, dist, k, p);
    NotAhead(r2, r1, dist, k, p);
  }

  /** The declarative reading fixes the neighbour list completely, so every stable sort
      (not just the insertion sort used here) yields the same lists. */
  lemma KNearestUnique(r1: seq<nat>, r2: seq<nat>, dist: seq<real>, k: int)
    requires IsKNearest(r1, dist, k) && IsKNearest(r2, dist, k)
    ensures r1 == r2
  {
    if |r1| > 0 {
      AgreeUpTo(r1, r2, dist, k, |r1| - 1);
    }
  }

  /** A training row equal to the query is at distance zero, so the first neighbour is
      the lowest-indexed training row equal to the query. */
  lemma ExactMatchFirst(q: Point, train: seq<Point>, k: int, r: seq<nat>, j: nat)
    requires Conformant(q, train)
    requires IsKNearest(r, Distances(q, train), k)
    requires j < |train| && train[j] == q
    requires |r| > 0
    ensures train[r[0]] == q && r[0] <= j
  {
    var dist := Distances(q, train);
    SquaredSumZeroIff(q, train[j]);
    if j in r {
      var p :| 0 <= p < |r| && r[p] == j;
      if p > 0 {
        assert Precedes(r[0], r[p], dist);
      }
    }
    assert dist[r[0]] <= dist[j];
    SquaredSumZeroIff(q, train[r[0]]);
  }
}
