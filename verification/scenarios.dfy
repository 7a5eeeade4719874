/** Worked cases of the estimator, each derived from the contracts rather than by evaluation. */
module Scenarios {
  import opened KnnTypes
  import opened Distance
  import opened Neighbors
  import opened Aggregate
  import opened Knn

  /** The squared distances from (1,1) to (0,0), (10,10) and (50,50). */
  lemma ScenarioDistances()
    ensures Uniform([[0, 0], [10, 10], [50, 50]], [[1, 1]])
    ensures Distances([1, 1], [[0, 0], [10, 10], [50, 50]]) == [2.0, 162.0, 4802.0]
  {
    var xTrain: seq<Point> := [[0, 0], [10, 10], [50, 50]];
    var xTest: seq<Point> := [[1, 1]];
    assert Uniform(xTrain, xTest);
    assert SquaredSum([1, 1], [0, 0]) == 2;
    assert SquaredSum([1, 1], [10, 10]) == 162;
    assert SquaredSum([1, 1], [50, 50]) == 4802;
  }

  /** Rows 0 and 1 are the two nearest to (1,1). */
  lemma ScenarioNearest()
    ensures Uniform([[0, 0], [10, 10], [50, 50]], [[1, 1]])
    ensures IsKNearest([0, 1], Distances([1, 1], [[0, 0], [10, 10], [50, 50]]), 2)
  {
    ScenarioDistances();
    var dist := [2.0, 162.0, 4802.0];
    var nb: seq<nat> := [0, 1];
    assert nb[0] == 0 && nb[1] == 1;
    assert IsKNearest(nb, dist, 2);
  }

  /** The prediction for (1,1) is the mean of the targets of rows 0 and 1. */
  lemma ScenarioPrediction()
    ensures var r := TrainPredict([[0, 0], [10, 10], [50, 50]], [10.0, 20.0, 90.0], [[1, 1]], 2, "regression");
      r.Success? && |r.value| == 1 && IsMean(r.value[0], [10.0, 20.0])
  {
    var xTest: seq<Point> := [[1, 1]];
    ScenarioNearest();
    assert xTest[0] == [1, 1];
    assert Gather([10.0, 20.0, 90.0], [0, 1]) == [10.0, 20.0];
  }

  lemma MeanOfTenAndTwenty(v: real)
    requires IsMean(v, [10.0, 20.0])
    ensures v == 15.0
  {
    assert Sum([10.0, 20.0]) == 30.0;
  }

  /** Three reference rows with targets 10, 20 and 90 and one query close to the first: the two
      nearest rows are 0 and 1, and the regression prediction is the mean of 10 and 20.
      (Coordinates are scaled by ten to keep them integral; scaling keeps the distance order.) */
  lemma TwoNearestRegression()
    ensures TrainPredict([[0, 0], [10, 10], [50, 50]], [10.0, 20.0, 90.0], [[1, 1]], 2, "regression")
            == Success([15.0])
  {
    var r := TrainPredict([[0, 0], [10, 10], [50, 50]], [10.0, 20.0, 90.0], [[1, 1]], 2, "regression");
    ScenarioPrediction();
    MeanOfTenAndTwenty(r.value[0]);
    assert r.value == [15.0];
  }

  /** The targets 1, 2 and 3 with neighbours [0, 1] average to 1.5. */
  lemma MeanOfTwoTargets()
    ensures PredictKnn([1.0, 2.0, 3.0], [[0, 1]], "regression") == Success([1.5])
  {
    var y := [1.0, 2.0, 3.0];
    var r := PredictKnn(y, [[0, 1]], "regression");
    assert AllValid(y, [0, 1]);
    assert r.Success? && |r.value| == 1;
    assert Gather(y, [0, 1]) == [1.0, 2.0];
    assert Sum([1.0, 2.0]) == 3.0;
    assert r.value == [1.5];
  }

  /** Labels A, A, B (coded 1, 1, 2): the majority label A is the classification. */
  lemma MajorityLabel()
    ensures PredictKnn([1.0, 1.0, 2.0], [[0, 1, 2]], "classification") == Success([1.0])
  {
    var r := PredictKnn([1.0, 1.0, 2.0], [[0, 1, 2]], "classification");
    ClassifyOneList();
    MajorityIsOnlyMode(r.value[0]);
    assert r.value == [1.0];
  }

  lemma ClassifyOneList()
    ensures var r := PredictKnn([1.0, 1.0, 2.0], [[0, 1, 2]], "classification");
      r.Success? && |r.value| == 1 && IsMostFrequent(r.value[0], [1.0, 1.0, 2.0])
  {
    var y := [1.0, 1.0, 2.0];
    var nbs: seq<seq<int>> := [[0, 1, 2]];
    assert AllValid(y, nbs[0]);
    assert Gather(y, nbs[0]) == y;
  }

  lemma MajorityIsOnlyMode(r: real)
    requires IsMostFrequent(r, [1.0, 1.0, 2.0])
    ensures r == 1.0
  {
    var xs := [1.0, 1.0, 2.0];
    assert multiset(xs) == multiset{1.0, 1.0, 2.0};
    assert multiset(xs)[1.0] == 2;
    assert multiset(xs)[2.0] == 1;
  }

  /** Both training rows (1,0) and (0,1) lie at squared distance 1 from the origin. */
  lemma TieDistances()
    ensures Uniform([[1, 0], [0, 1]], [[0, 0]])
    ensures Distances([0, 0], [[1, 0], [0, 1]]) == [1.0, 1.0]
  {
    var train: seq<Point> := [[1, 0], [0, 1]];
    var test: seq<Point> := [[0, 0]];
    assert Uniform(train, test);
    assert SquaredSum([0, 0], [1, 0]) == 1;
    assert SquaredSum([0, 0], [0, 1]) == 1;
  }

  lemma TieRanking()
    ensures IsKNearest([0], [1.0, 1.0], 1)
  {
    assert SliceLength(1, 2) == 1;
  }

  /** Two training rows at the same distance: the lower index wins the single neighbour slot. */
  lemma TieGoesToLowerIndex()
    ensures GetKNeighbors([[1, 0], [0, 1]], [[0, 0]], 1) == Success([[0]])
  {
    var test: seq<Point> := [[0, 0]];
    var r := GetKNeighbors([[1, 0], [0, 1]], test, 1);
    TieDistances();
    TieRanking();
    assert test[0] == [0, 0];
    KNearestUnique([0], r.value[0], [1.0, 1.0], 1);
    assert r.value == [[0]];
  }

  /** A dimension mismatch is reported before the method string is examined. */
  lemma MismatchBeforeMethod()
    ensures TrainPredict([[0, 0]], [1.0], [[1]], 1, "clustering") == Failure(DimensionMismatch)
  {
    var train: seq<Point> := [[0, 0]];
    var q: Point := [1];
    assert |train[0]| != |q|;
    assert !Conformant(q, train);
    var test := [q];
    assert test[0] == q;
    assert !Uniform(train, test);
  }

  /** With matching dimensions, an unknown method is rejected. */
  lemma UnknownMethodRejected()
    ensures TrainPredict([[0, 0]], [1.0], [[1, 1]], 1, "clustering") == Failure(InvalidMethod)
  {
    assert Uniform([[0, 0]], [[1, 1]]);
  }
}
