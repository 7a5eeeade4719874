/** Values shared by every stage of the nearest-neighbour estimator. */
module KnnTypes {

  /** A feature row. Coordinates are exact integers standing in for the script's floats. */
  type Point = seq<int>

  /** The exceptions the estimator can raise. */
  datatype Error =
    | DimensionMismatch  // two rows of different length were compared
    | InvalidMethod      // the aggregation flag is neither classification nor regression
    | IndexOutOfRange    // a neighbour index addresses no target
    | EmptyData          // mean or mode of an empty neighbour list

  /** Either a value or the error that was raised instead; usable with `:-`. */
  datatype Result<+T> = Success(value: T) | Failure(error: Error) {

    predicate IsFailure() {
      Failure?
    }

    function PropagateFailure<U>(): Result<U>
      requires Failure?
    {
      Failure(error)
    }

    function Extract(): T
      requires Success?
    {
      value
    }
  }
}
