/** `KNN_train_predict`: the neighbour search followed by the aggregation. */
module Knn {
  import opened KnnTypes
  import opened Neighbors
  import opened Aggregate

  /** r is what the method makes of the targets that the neighbour list nb selects. */
  predicate PredictedFrom(r: real, y: seq<real>, nb: seq<nat>, mode: string) {
    && AllValid(y, nb)
    && |nb| > 0
    && (mode == "regression" ==> IsMean(r, Gather(y, nb)))
    && (mode == "classification" ==> IsMostFrequent(r, Gather(y, nb)))
  }

  /** `KNN_train_predict`: the neighbour search runs first, so a dimension mismatch is reported
      even for an unknown method; on success there is one prediction per test row, aggregated
      from that row's k nearest training rows. */
  function TrainPredict(xTrain: seq<Point>, yTrain: seq<real>, xTest: seq<Point>, k: int, mode: string)
    : (r: Result<seq<real>>)
    ensures !Uniform(xTrain, xTest) ==> r == Failure(DimensionMismatch)
    ensures Uniform(xTrain, xTest) && mode != "classification" && mode != "regression" ==>
      r == Failure(InvalidMethod)
    ensures r.Success? ==> |r.value| == |xTest|
    ensures r.Success? ==>
      forall i, nb :: 0 <= i < |xTest| && IsKNearest(nb, Distances(xTest[i], xTrain), k) ==>
        PredictedFrom(r.value[i], yTrain, nb, mode)
    ensures
      && Uniform(xTrain, xTest)
      && (mode == "classification" || mode == "regression")
      && |xTrain| <= |yTrain|
      && (|xTest| == 0 || SliceLength(k, |xTrain|) > 0)
      ==> r.Success?
  {
    match GetKNeighbors(xTrain, xTest, k)
    case Failure(e) => Failure(e)
    case Success(neighbors) =>
      NeighborsUsable(xTrain, yTrain, xTest, k, neighbors);
      PredictionsFollowNeighbors(xTrain, yTrain, xTest, k, mode, neighbors);
      PredictKnn(yTrain, neighbors, mode)
  }

  /** Each prediction is the aggregate over every list that reads as the row's k nearest
      neighbours; there is exactly one such list, the one the search produced. */
  lemma PredictionsFollowNeighbors(xTrain: seq<Point>, yTrain: seq<real>, xTest: seq<Point>, k: int, mode: string,
                                   neighbors: seq<seq<nat>>)
    requires Uniform(xTrain, xTest) && neighbors == GetKNeighbors(xTrain, xTest, k).value
    ensures var r := PredictKnn(yTrain, neighbors, mode);
      r.Success? ==>
        forall i, nb :: 0 <= i < |xTest| && IsKNearest(nb, Distances(xTest[i], xTrain), k) ==>
          PredictedFrom(r.value[i], yTrain, nb, mode)
  {
    var r := PredictKnn(yTrain, neighbors, mode);
    if r.Success? {
      forall i, nb | 0 <= i < |xTest| && IsKNearest(nb, Distances(xTest[i], xTrain), k)
        ensures PredictedFrom(r.value[i], yTrain, nb, mode)
      {
        KNearestUnique(nb, neighbors[i], Distances(xTest[i], xTrain), k);
      }
    }
  }

  /** Neighbour lists from the search index only training rows and are non-empty when the slice
      keeps something, so with enough targets the aggregation cannot fail. */
  lemma NeighborsUsable(xTrain: seq<Point>, yTrain: seq<real>, xTest: seq<Point>, k: int,
                        neighbors: seq<seq<nat>>)
    requires Uniform(xTrain, xTest) && neighbors == GetKNeighbors(xTrain, xTest, k).value
    ensures |xTrain| <= |yTrain| && (|xTest| == 0 || SliceLength(k, |xTrain|) > 0) ==>
      forall i :: 0 <= i < |neighbors| ==> AllValid(yTrain, neighbors[i]) && |neighbors[i]| > 0
  {
    if |xTrain| <= |yTrain| && (|xTest| == 0 || SliceLength(k, |xTrain|) > 0) {
      forall i | 0 <= i < |neighbors|
        ensures AllValid(yTrain, neighbors[i]) && |neighbors[i]| > 0
      {
        var dist := Distances(xTest[i], xTrain);
        assert IsKNearest(neighbors[i], dist, k);
      }
    }
  }
}
