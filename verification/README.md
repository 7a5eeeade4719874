# k-nearest-neighbour estimator, modelled in Dafny

This project models the brute-force k-nearest-neighbour pipeline of `knn_from_scratch.py`:

- `euclidean` compares two feature rows. It rejects rows of different length.
- `getkneighbors` finds, for every test row, the training rows ordered by distance and keeps the first `k`.
- `predictknn` turns every neighbour list into one prediction. Classification takes the mode of the selected targets and regression takes their mean. Any other method string is rejected.
- `KNN_train_predict` composes the two.

The model is functional: immutable sequences and pure functions, plus one method for the accumulation loop of `euclidean`.

| module | file | models |
|---|---|---|
| `KnnTypes` | `types.dfy` | feature rows, the four exceptions, a `Result` type |
| `Distance` | `distance.dfy` | `euclidean` |
| `StableSort` | `stable_sort.dfy` | `sorted(dict.items(), key=...)` over row indices |
| `Neighbors` | `neighbors.dfy` | `getkneighbors` and the declarative reading of a neighbour list |
| `Aggregate` | `aggregate.dfy` | `predictknn`, `statistics.mean`, `statistics.mode` |
| `Knn` | `knn.dfy` | `KNN_train_predict` |
| `Scenarios` | `scenarios.dfy` | worked cases, derived from the contracts |

Modelling choices:

- **Numbers.** Coordinates are exact integers and targets are exact reals. Categorical class labels are encoded injectively as reals; `Aggregate.RelabelMostFrequent` proves that such an encoding maps the most frequent labels exactly to the most frequent codes, because the mode compares labels only for equality. A finite set of rational coordinates can be scaled to integers. Scaling multiplies every squared distance by the same positive factor, so the neighbour order stays the same.
- **Distance.** The distance is the sum of squared differences. The final `math.sqrt` is left out. Neighbours are sorted by squared distance, while line 59 sorts by its square root. `StableSort.SortSameOrder` proves that the sort sees its keys only through comparisons. Any key vector that compares every pair of indices the same way gives the same order. The square root is strictly increasing on non-negative reals, so this holds for it. That property of the square root is assumed here, not proved.
- **Ties.** `sorted` is stable and the dict is filled in index order, so equal distances keep ascending index order. The model uses a stable insertion sort. `Neighbors.KNearestUnique` shows that the declarative reading `IsKNearest` fixes the neighbour list completely. Python's Timsort therefore yields the same lists.
- **`k`.** `k` is any integer, and line 61 is modelled with Python slice semantics. For `k >= 0` a list has `min(k, n)` entries. For a negative `k` it has `max(0, n + k)` entries.
- **Indices.** In `predictknn` neighbour indices are integers, and negative ones count from the end as in Python. An index outside the list raises `IndexError` (`IndexOutOfRange`). Mean and mode of an empty list raise `StatisticsError` (`EmptyData`).
- **Errors.** `ValueError("Lengths of instances must be equal!")` is `DimensionMismatch`. `ValueError('Invalid method.')` is `InvalidMethod`.

Two behaviours of the code are worth stating outright, and the model follows them:

- The code never validates `k`. A `k` larger than the number of training rows returns every index. `k = 0` returns empty lists, and `statistics.mode` or `statistics.mean` then raises `StatisticsError` on them.
- A classification tie does not fail. `statistics.mode` returns the first most frequent value (Python 3.8 and later). The contract promises only "a most frequent value".

## Model

| member | source | states |
|---|---|---|
| Distance.Euclidean | knn_from_scratch.py:30-43 | fails with a dimension mismatch exactly when the rows differ in length; otherwise the squared distance is non-negative and is zero exactly when the rows are identical |
| Distance.ComputeEuclidean | knn_from_scratch.py:38-43 | the length check and the accumulating loop compute the same result as `Euclidean`, error case included |
| Distance.SquaredSum | knn_from_scratch.py:40-42 | the accumulated sum of squared coordinate differences is never negative |
| Distance.SquaredSumBoundsTerms | knn_from_scratch.py:40-42 | the accumulated sum is at least each single squared difference |
| Distance.SquaredSumZeroIff | knn_from_scratch.py:40-42 | the sum of squared differences is zero if and only if the two rows are equal |
| Distance.SquaredSumSymmetric | knn_from_scratch.py:40-42 | swapping the two rows leaves the sum of squared differences unchanged |
| Distance.EuclideanSymmetric | knn_from_scratch.py:38-43 | `euclidean(a, b)` and `euclidean(b, a)` agree, on errors as well as on values |
| StableSort.Insert | knn_from_scratch.py:59 | inserting an index adds exactly that index and keeps every index in range |
| StableSort.SortByKey | knn_from_scratch.py:59 | the sort returns a permutation of its input |
| StableSort.SortRanked | knn_from_scratch.py:59-60 | sorting indices given in ascending order ranks them by key, with equal keys in ascending index order (stability on dict insertion order) |
| StableSort.SortSameOrder | knn_from_scratch.py:59 | the sorted order depends only on how keys compare, so an order-preserving change of keys such as the square root gives the same order |
| Neighbors.Distances | knn_from_scratch.py:57-58 | the dict holds one key per training row |
| Neighbors.DistancesAreEuclidean | knn_from_scratch.py:57-58 | key j is the `euclidean` result (before the square root) from the test row to training row j, which succeeds for every row of the test row's length |
| Neighbors.SliceLength | knn_from_scratch.py:61 | the length of Python's `s[:k]` for a list of n: n when k is at least n, k for k from 0 to n, n + k for k from -n to -1, and 0 below -n |
| Neighbors.RowDistances | knn_from_scratch.py:57-58 | distances to all training rows in row order; fails exactly when some training row's length differs from the test row's |
| Neighbors.SortKeepsAllIndices | knn_from_scratch.py:59-60 | sorting the dict's items loses no training index |
| Neighbors.PrefixOfRanking | knn_from_scratch.py:61 | a prefix of a ranking of all indices is ranked, and every index it omits comes after every index it keeps |
| Neighbors.SliceOfRanking | knn_from_scratch.py:61 | the slice `[:k]` of any ranking of all indices is a k-nearest list, and with `k` at least the number of rows it keeps every index |
| Neighbors.RankedPrefixIsKNearest | knn_from_scratch.py:59-61 | the sorted, sliced index list is a k-nearest list; with `k` at least the number of rows it holds every index |
| Neighbors.NearestOf | knn_from_scratch.py:55-62 | one test row's neighbour list is a k-nearest list; it fails exactly on a dimension mismatch; with `k` at least the number of training rows it contains every training index |
| Neighbors.GetKNeighbors | knn_from_scratch.py:46-63 | one neighbour list per test row, in test-row order, each a k-nearest list for its row; fails exactly when some test row and training row differ in length; with `k` at least the number of training rows every list holds all indices |
| Neighbors.KNearestFacts | knn_from_scratch.py:59-61 | a k-nearest list has `min(k, n)` entries for `k >= 0`; its indices are distinct with non-decreasing distance; an omitted index is at least as far as any kept one |
| Neighbors.KNearestUnique | knn_from_scratch.py:59-61 | at most one list is a k-nearest list for a given distance vector and `k`, so the result does not depend on which stable sort is used |
| Neighbors.ExactMatchFirst | knn_from_scratch.py:57-61 | if a training row equals the query, the first neighbour equals the query and has an index no larger than that row's |
| Aggregate.ParseMethod | knn_from_scratch.py:77-82 | "classification" selects the mode, "regression" the mean, and any other string raises the invalid-method error |
| Aggregate.At | knn_from_scratch.py:85 | Python indexing `train[i]` for i from -n to n-1: the element at position i modulo n |
| Aggregate.Gather | knn_from_scratch.py:85 | the list comprehension has one entry per neighbour index, entry j is the target at that index modulo the number of targets, and every entry is a target |
| Aggregate.MeanBetween | knn_from_scratch.py:80 | the sum divided by the count lies between the smallest and the largest value |
| Aggregate.Mean | knn_from_scratch.py:80 | the result times the count equals the sum, and it lies between the smallest and the largest value |
| Aggregate.MostFrequent | knn_from_scratch.py:78 | returns a candidate that occurs in the data at least as often as every other candidate |
| Aggregate.Mode | knn_from_scratch.py:78 | returns a value of the list that occurs at least as often as any other value |
| Aggregate.RelabelMostFrequent | knn_from_scratch.py:70-78 | for any injective renaming of labels, a label is a most frequent one exactly when its new name is a most frequent one among the renamed labels |
| Aggregate.PredictOne | knn_from_scratch.py:85 | for one neighbour list: `IndexError` if some index addresses no target, else `StatisticsError` if the list is empty, else the aggregate of the selected targets |
| Aggregate.PredictAll | knn_from_scratch.py:84-85 | one prediction per neighbour list, in order, each aggregating that list's targets; on failure the error is that of the first failing list |
| Aggregate.PredictKnn | knn_from_scratch.py:66-87 | an unknown method fails before any list is examined; otherwise success exactly when every list is non-empty with valid indices, giving the mean (regression) or a most frequent value (classification) of each list's targets |
| Knn.PredictionsFollowNeighbors | knn_from_scratch.py:94 | every prediction aggregates the targets of the row's unique k-nearest list |
| Knn.NeighborsUsable | knn_from_scratch.py:94 | with at least as many targets as training rows and a slice that keeps something, every neighbour list is non-empty with valid indices |
| Knn.TrainPredict | knn_from_scratch.py:90-94 | a dimension mismatch takes precedence over an invalid method; on success there is one prediction per test row, aggregated from that row's k nearest training rows; it succeeds whenever dimensions, method, targets and `k` allow |
| Scenarios.TwoNearestRegression | knn_from_scratch.py:90-94 | with references (0,0), (10,10), (50,50), targets 10, 20, 90, query (1,1) and `k = 2`, the prediction is 15 |
| Scenarios.MeanOfTwoTargets | knn_from_scratch.py:80-85 | targets 1, 2, 3 and neighbours [0, 1] give the mean 1.5 |
| Scenarios.MajorityLabel | knn_from_scratch.py:78-85 | labels A, A, B classify as A |
| Scenarios.TieGoesToLowerIndex | knn_from_scratch.py:59-61 | of two training rows at equal distance, the lower index fills a single neighbour slot |
| Scenarios.MismatchBeforeMethod | knn_from_scratch.py:90-94 | a length mismatch is reported even when the method string is invalid |
| Scenarios.UnknownMethodRejected | knn_from_scratch.py:81-82 | with matching lengths, an unknown method string is rejected |

## Left out

- `main` (lines 97-162): argument parsing, the log directory, CSV reading and writing with pandas, NaN detection, `np.round` of the predictions, and filling in the missing column. All of it is I/O and float handling.
- `scraper_sample.py`: HTTP fetching, HTML parsing, random user agents and delays, timestamps and CSV export. None of it is part of the estimator.
- Floating point: coordinates are exact integers and targets exact reals. Rounding in subtraction, squaring, summation and `math.sqrt` is not modelled. Rounding can make distinct squared distances share a float square root, which adds ties in Python that the exact model does not have. Rounding in the subtraction and the running sum can also reverse the order of two nearly equal distances, so Python may then pick a different neighbour than the exact model.
- Distance.Euclidean: returns the squared distance; the square root of line 43 is left out, and that it preserves order is assumed, not proved.
- Distance.Euclidean: never fails with `OverflowError`. In Python, `** 2` on line 42 raises it for a float difference above about 1.34e154, and `math.sqrt` on line 43 raises it for an integer sum above about 1.8e308. With unbounded integers the model returns `Success` in both cases.
- Aggregate.Mode: promises only some most frequent value. Which one `statistics.mode` picks among equally frequent values is library behaviour. Before Python 3.8 it raised on a tie. The function itself returns the first most frequent value.
- Aggregate.Mode: categorical labels (strings, say) are encoded injectively as reals in the targets; the mode compares them only for equality, so nothing of the classification is lost (`Aggregate.RelabelMostFrequent`).
- Aggregate.Mean: `statistics.mean` converts its exact result to a float; the model keeps the exact real.
- Python's dynamic typing: non-integer neighbour indices and non-numeric features (both `TypeError`s) cannot occur in the typed model. A method that is not a string is not a `TypeError`: lines 77-82 compare it with `==`, it equals neither accepted string, and it raises `ValueError('Invalid method.')` like any unknown string. The model's method is a string, so that case is covered by the unknown-string path (`InvalidMethod`).
