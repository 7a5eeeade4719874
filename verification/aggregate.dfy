/** `predictknn`: every neighbour list becomes one prediction, the mode or the mean of the
    targets it selects. */
module Aggregate {
  import opened KnnTypes

  /** The two aggregation methods `predictknn` accepts. */
  datatype Aggregation = Classification | Regression

  /** The method-string dispatch at the top of `predictknn`. */
  function ParseMethod(mode: string): (r: Result<Aggregation>)
    ensures r.Success? <==> mode == "classification" || mode == "regression"
    ensures r.Failure? ==> r.error == InvalidMethod
    ensures r.Success? ==> (r.value == Classification <==> mode == "classification")
  {
    if mode == "classification" then Success(Classification)
    else if mode == "regression" then Success(Regression)
    else Failure(InvalidMethod)
  }

  /** i addresses an element of a Python list of length n; a negative i counts from the end. */
  predicate ValidIndex(n: nat, i: int) {
    -(n as int) <= i < n
  }

  predicate AllValid(y: seq<real>, idx: seq<int>) {
    forall j :: 0 <= j < |idx| ==> ValidIndex(|y|, idx[j])
  }

  /** Python's y[i]: a negative i wraps around modulo the length. */
  function At(y: seq<real>, i: int): (r: real)
    requires ValidIndex(|y|, i)
    ensures r == y[i % |y|]
  {
    if i >= 0 then y[i] else y[|y| + i]
  }

  /** The list comprehension [y[i] for i in idx]. */
  function Gather(y: seq<real>, idx: seq<int>): (r: seq<real>)
    requires AllValid(y, idx)
    ensures |r| == |idx|
    ensures |idx| > 0 ==> |y| > 0
    ensures forall j :: 0 <= j < |idx| ==> r[j] == y[idx[j] % |y|]
    ensures forall x :: x in r ==> x in y
  {
    assert |idx| > 0 ==> ValidIndex(|y|, idx[0]);
    seq(|idx|, j requires 0 <= j < |idx| => At(y, idx[j]))
  }

  function Sum(xs: seq<real>): real {
    if |xs| == 0 then 0.0 else Sum(xs[..|xs| - 1]) + xs[|xs| - 1]
  }

  /** r is the arithmetic mean of the non-empty xs. */
  predicate IsMean(r: real, xs: seq<real>) {
    |xs| > 0 && r * (|xs| as real) == Sum(xs)
  }

  /** r occurs in xs and no value occurs in xs more often than r. */
  predicate IsMostFrequent<T(==)>(r: T, xs: seq<T>) {
    r in xs && forall x :: x in xs ==> multiset(xs)[x] <= multiset(xs)[r]
  }

  predicate Aggregates(agg: Aggregation, r: real, xs: seq<real>) {
    match agg
    case Classification => IsMostFrequent(r, xs)
    case Regression => IsMean(r, xs)
  }

  lemma {:induction false} SumAtLeast(xs: seq<real>, m: real)
    requires forall i :: 0 <= i < |xs| ==> m <= xs[i]
    ensures (|xs| as real) * m <= Sum(xs)
    decreases |xs|
  {
    if |xs| > 0 {
      var n := |xs| - 1;
      SumAtLeast(xs[..n], m);
      assert (|xs| as real) * m == (n as real) * m + m;
    }
  }

  lemma {:induction false} SumAtMost(xs: seq<real>, m: real)
    requires forall i :: 0 <= i < |xs| ==> xs[i] <= m
    ensures Sum(xs) <= (|xs| as real) * m
    decreases |xs|
  {
    if |xs| > 0 {
      var n := |xs| - 1;
      SumAtMost(xs[..n], m);
      assert (|xs| as real) * m == (n as real) * m + m;
    }
  }

  /** Positions of a smallest and of a largest element. */
  lemma {:induction false} Extremes(xs: seq<real>) returns (lo: nat, hi: nat)
    requires |xs| > 0
    ensures lo < |xs| && hi < |xs|
    ensures forall i :: 0 <= i < |xs| ==> xs[lo] <= xs[i] <= xs[hi]
    decreases |xs|
  {
    if |xs| == 1 {
      lo, hi := 0, 0;
    } else {
      var n := |xs| - 1;
      lo, hi := Extremes(xs[..n]);
      if xs[n] < xs[lo] {
        lo := n;
      }
      if xs[n] > xs[hi] {
        hi := n;
      }
    }
  }

  lemma MeanBetween(xs: seq<real>)
    requires |xs| > 0
    ensures exists i :: 0 <= i < |xs| && xs[i] <= Sum(xs) / (|xs| as real)
    ensures exists i :: 0 <= i < |xs| && Sum(xs) / (|xs| as real) <= xs[i]
  {
    var n := |xs| as real;
    var lo, hi := Extremes(xs);
    SumAtLeast(xs, xs[lo]);
    SumAtMost(xs, xs[hi]);
    QuotientBounds(Sum(xs), n, xs[lo], xs[hi]);
  }

  lemma QuotientBounds(s: real, n: real, lo: real, hi: real)
    requires n > 0.0 && n * lo <= s <= n * hi
    ensures lo <= s / n <= hi
  {
  }

  /** `statistics.mean`: the exact arithmetic mean, which lies between the smallest and the
      largest of the values. */
  function Mean(xs: seq<real>): (r: real)
    requires |xs| > 0
    ensures IsMean(r, xs)
    ensures exists i :: 0 <= i < |xs| && xs[i] <= r
    ensures exists i :: 0 <= i < |xs| && r <= xs[i]
  {
    MeanBetween(xs);
    Sum(xs) / (|xs| as real)
  }

  /** The candidate that occurs in xs most often, the earliest candidate on a tie. */
  function MostFrequent<T(==)>(xs: seq<T>, cands: seq<T>): (r: T)
    requires |cands| > 0
    ensures r in cands
    ensures forall c :: c in cands ==> multiset(xs)[c] <= multiset(xs)[r]
    decreases |cands|
  {
    if |cands| == 1 then cands[0]
    else
      var best := MostFrequent(xs, cands[..|cands| - 1]);
      var last := cands[|cands| - 1];
      assert cands == cands[..|cands| - 1] + [last];
      if multiset(xs)[last] > multiset(xs)[best] then last else best
  }

  /** `statistics.mode`: a most frequent value (the first one seen, as in Python 3.8 and later). */
  function Mode<T(==)>(xs: seq<T>): (r: T)
    requires |xs| > 0
    ensures IsMostFrequent(r, xs)
  {
    MostFrequent(xs, xs)
  }

  /** The labels xs renamed through f. */
  function Relabel<T, U>(f: T -> U, xs: seq<T>): (r: seq<U>)
    ensures |r| == |xs|
  {
    seq(|xs|, i requires 0 <= i < |xs| => f(xs[i]))
  }

  ghost predicate Injective<T(!new), U>(f: T -> U) {
    forall a, b :: f(a) == f(b) ==> a == b
  }

  /** Under an injective renaming a label occurs exactly as often as its new name. */
  lemma {:induction false} CountRelabel<T(!new), U>(f: T -> U, xs: seq<T>, x: T)
    requires Injective(f)
    ensures multiset(Relabel(f, xs))[f(x)] == multiset(xs)[x]
    decreases |xs|
  {
    if |xs| > 0 {
      var n := |xs| - 1;
      CountRelabel(f, xs[..n], x);
      assert xs == xs[..n] + [xs[n]];
      assert Relabel(f, xs) == Relabel(f, xs[..n]) + [f(xs[n])];
      if f(xs[n]) == f(x) {
        assert xs[n] == x;
      }
    }
  }

  /** The mode only compares labels for equality: encoding categorical labels injectively (as the
      real-valued targets of this model do) maps the most frequent labels to the most frequent
      codes and back. */
  lemma RelabelMostFrequent<T(!new), U>(f: T -> U, xs: seq<T>, r: T)
    requires Injective(f)
    ensures IsMostFrequent(r, xs) <==> IsMostFrequent(f(r), Relabel(f, xs))
  {
    var ys := Relabel(f, xs);
    CountRelabel(f, xs, r);
    if IsMostFrequent(r, xs) {
      var p :| 0 <= p < |xs| && xs[p] == r;
      assert ys[p] == f(r);
      forall y | y in ys
        ensures multiset(ys)[y] <= multiset(ys)[f(r)]
      {
        var q :| 0 <= q < |ys| && ys[q] == y;
        CountRelabel(f, xs, xs[q]);
        assert xs[q] in xs;
      }
    }
    if IsMostFrequent(f(r), ys) {
      var p :| 0 <= p < |ys| && ys[p] == f(r);
      assert xs[p] == r;
      forall x | x in xs
        ensures multiset(xs)[x] <= multiset(xs)[r]
      {
        var q :| 0 <= q < |xs| && xs[q] == x;
        CountRelabel(f, xs, x);
        assert ys[q] == f(x);
      }
    }
  }

  /** Line 85 for one neighbour list: an index that addresses no target raises IndexError while the
      list is built; mean and mode of an empty list raise StatisticsError. */
  function PredictOne(y: seq<real>, idx: seq<int>, agg: Aggregation): (r: Result<real>)
    ensures r.Success? <==> AllValid(y, idx) && |idx| > 0
    ensures !AllValid(y, idx) ==> r == Failure(IndexOutOfRange)
    ensures AllValid(y, idx) && |idx| == 0 ==> r == Failure(EmptyData)
    ensures r.Success? ==> Aggregates(agg, r.value, Gather(y, idx))
  {
    if !AllValid(y, idx) then Failure(IndexOutOfRange)
    else
      var xs := Gather(y, idx);
      if |xs| == 0 then Failure(EmptyData)
      else
        match agg
        case Classification => Success(Mode(xs))
        case Regression => Success(Mean(xs))
  }

  /** The loop of `predictknn`: one prediction per neighbour list, in order; the first list
      that fails decides the error. */
  function PredictAll(y: seq<real>, neighbors: seq<seq<int>>, agg: Aggregation): (r: Result<seq<real>>)
    ensures r.Success? <==> forall i :: 0 <= i < |neighbors| ==> AllValid(y, neighbors[i]) && |neighbors[i]| > 0
    ensures r.Success? ==> |r.value| == |neighbors|
    ensures r.Success? ==> forall i :: 0 <= i < |neighbors| ==> Aggregates(agg, r.value[i], Gather(y, neighbors[i]))
    ensures r.Failure? ==>
      exists i :: (0 <= i < |neighbors| && PredictOne(y, neighbors[i], agg) == Failure(r.error)
        && forall j :: 0 <= j < i ==> PredictOne(y, neighbors[j], agg).Success?)
    decreases |neighbors|
  {
    if |neighbors| == 0 then Success([])
    else
      var first :- PredictOne(y, neighbors[0], agg);
      var rest := PredictAll(y, neighbors[1..], agg);
      if rest.Failure? then
        var i :| 0 <= i < |neighbors[1..]| && PredictOne(y, neighbors[1..][i], agg) == Failure(rest.error)
          && forall j :: 0 <= j < i ==> PredictOne(y, neighbors[1..][j], agg).Success?;
        assert PredictOne(y, neighbors[i + 1], agg) == Failure(rest.error);
        Failure(rest.error)
      else
        Success([first] + rest.value)
  }

  /** `predictknn`: an unknown method is rejected before any neighbour list is looked at;
      otherwise one prediction per neighbour list, in order, the mean of the selected targets
      for regression and a most frequent one for classification. */
  function PredictKnn(y: seq<real>, neighbors: seq<seq<int>>, mode: string): (r: Result<seq<real>>)
    ensures mode != "classification" && mode != "regression" ==> r == Failure(InvalidMethod)
    ensures r.Success? <==>
      && (mode == "classification" || mode == "regression")
      && forall i :: 0 <= i < |neighbors| ==> AllValid(y, neighbors[i]) && |neighbors[i]| > 0
    ensures r.Success? ==> |r.value| == |neighbors|
    ensures r.Success? && mode == "regression" ==>
      forall i :: 0 <= i < |neighbors| ==> IsMean(r.value[i], Gather(y, neighbors[i]))
    ensures r.Success? && mode == "classification" ==>
      forall i :: 0 <= i < |neighbors| ==> IsMostFrequent(r.value[i], Gather(y, neighbors[i]))
    ensures r.Failure? && (mode == "classification" || mode == "regression") ==>
      r.error == IndexOutOfRange || r.error == EmptyData
  {
    var agg :- ParseMethod(mode);
    PredictAll(y, neighbors, agg)
  }
}
