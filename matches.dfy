/** Records produced by the feature matcher, and an Option for absent values. */
module Matches {

  datatype Option<+T> = None | Some(value: T) {
    predicate IsFailure() { None? }

    function PropagateFailure<U>(): Option<U>
      requires None?
    {
      None
    }

    function Extract(): T
      requires Some?
    {
      value
    }
  }

  /** One match of a query descriptor (or point) to its nearest train
      descriptor: the query row, the train row and their distance. */
  datatype DMatch = DMatch(queryIdx: nat, trainIdx: nat, distance: real)

  /** A k-nearest-neighbour result with k = 2: the best match `m` and the
      second-best match `n` of one query row. */
  datatype KnnPair = KnnPair(m: DMatch, n: DMatch)
}
