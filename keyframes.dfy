/** The matching and selection rules of the keyframe analyser: Lowe's ratio
    test, the choice of the most similar frame, the accumulating matcher that
    grows a descriptor set, and the construction of the (frame, descriptor)
    point lists that are then clustered.

    The two-nearest-neighbour matcher is a library call; it is a parameter
    `knn(query, train)` giving one best/second-best pair per query row.
    Descriptors are of an arbitrary type `D`. */
module Keyframes {
  import opened Masks
  import opened Matches

  /** The ratio used by the accumulating matcher. */
  const ACC_RATIO: real := 0.75

  // ---------------------------------------------------------------------------
  // Ratio test

  /** Which pairs pass the ratio test `m.distance < threshold * n.distance`. */
  function RatioMask(pairs: seq<KnnPair>, threshold: real): (mask: seq<bool>)
    ensures |mask| == |pairs|
  {
    seq(|pairs|, i requires 0 <= i < |pairs| => pairs[i].m.distance < threshold * pairs[i].n.distance)
  }

  function Bests(pairs: seq<KnnPair>): (ms: seq<DMatch>)
    ensures |ms| == |pairs|
  {
    seq(|pairs|, i requires 0 <= i < |pairs| => pairs[i].m)
  }

  /** The best match of each pair that passes the ratio test, in input order. */
  function RatioMatches(pairs: seq<KnnPair>, threshold: real): seq<DMatch> {
    Select(Bests(pairs), RatioMask(pairs, threshold))
  }

  /** The ratio test keeps exactly the best matches of the passing pairs,
      each once, in input order. */
  lemma RatioMatchesSpec(pairs: seq<KnnPair>, threshold: real)
    ensures var ps := Positions(RatioMask(pairs, threshold));
      var r := RatioMatches(pairs, threshold);
      && |r| == |ps| <= |pairs|
      && (forall k :: 0 <= k < |ps| ==>
            ps[k] < |pairs|
            && pairs[ps[k]].m.distance < threshold * pairs[ps[k]].n.distance
            && r[k] == pairs[ps[k]].m)
      && (forall k, l :: 0 <= k < l < |ps| ==> ps[k] < ps[l])
      && (forall j :: 0 <= j < |pairs| && pairs[j].m.distance < threshold * pairs[j].n.distance
            ==> j in ps)
  {
    SelectSpec(Bests(pairs), RatioMask(pairs, threshold));
  }

  // ---------------------------------------------------------------------------
  // Most similar frame

  /** A train frame's score against the query: how many matches survive the ratio test. */
  function Score<D>(query: seq<D>, train: seq<D>, knn: (seq<D>, seq<D>) -> seq<KnnPair>, threshold: real): nat {
    |RatioMatches(knn(query, train), threshold)|
  }

  /** The score of every train frame. */
  ghost function Scores<D>(query: seq<D>, trains: seq<seq<D>>, knn: (seq<D>, seq<D>) -> seq<KnnPair>,
                           threshold: real): (sc: seq<nat>)
    ensures |sc| == |trains|
  {
    seq(|trains|, t requires 0 <= t < |trains| => Score(query, trains[t], knn, threshold))
  }

  /** The number of surviving matches a frame needs to qualify. */
  function Needed<D>(query: seq<D>, confidenceFloor: real): real {
    |query| as real * confidenceFloor
  }

  /** The choice among frames with scores `sc`: the index of the highest
      score that reaches `need`, the earliest one on a tie, or None. Defined
      frame by frame, as the frames are scanned. */
  function BestOf(sc: seq<nat>, need: real): (b: Option<nat>)
    ensures b.Some? ==> b.value < |sc|
  {
    if |sc| == 0 then None
    else
      var prev := BestOf(sc[..|sc| - 1], need);
      var last := sc[|sc| - 1];
      if last as real < need then prev
      else match prev
        case None => Some(|sc| - 1)
        case Some(j) => if last > sc[j] then Some(|sc| - 1) else prev
  }

  /** What the choice means: None exactly when no score reaches `need`;
      otherwise a qualifying index whose score no qualifying frame exceeds
      and that every earlier qualifying frame scores strictly below. */
  lemma {:induction false} BestOfSpec(sc: seq<nat>, need: real)
    ensures BestOf(sc, need).None? <==> forall t :: 0 <= t < |sc| ==> sc[t] as real < need
    ensures BestOf(sc, need).Some? ==>
      var b := BestOf(sc, need).value;
      && sc[b] as real >= need
      && (forall t :: 0 <= t < |sc| && sc[t] as real >= need ==> sc[t] <= sc[b])
      && (forall t :: 0 <= t < b && sc[t] as real >= need ==> sc[t] < sc[b])
  {
    if |sc| > 0 {
      var init := sc[..|sc| - 1];
      BestOfSpec(init, need);
      assert forall t :: 0 <= t < |init| ==> init[t] == sc[t];
    }
  }

  /** The index of the train frame chosen by `BestOf` from the frames'
      scores against the query, with `|query| * confidenceFloor` as the bar. */
  method MostSimilar<D>(query: seq<D>, trains: seq<seq<D>>, knn: (seq<D>, seq<D>) -> seq<KnnPair>,
                        confidenceFloor: real, threshold: real)
    returns (best: Option<nat>)
    ensures best == BestOf(Scores(query, trains, knn, threshold), Needed(query, confidenceFloor))
  {
    var need := Needed(query, confidenceFloor);
    ghost var sc := Scores(query, trains, knn, threshold);
    var bestScore: int := -1;
    best := None;
    for i := 0 to |trains|
      invariant best == BestOf(sc[..i], need)
      invariant bestScore == if best.None? then -1 else sc[best.value]
    {
      var thisScore := Score(query, trains[i], knn, threshold);
      assert sc[..i + 1][..i] == sc[..i];
      if thisScore as real < need {
        // not enough matches for the object to be present
        continue;
      }
      if thisScore > bestScore {
        bestScore := thisScore;
        best := Some(i);
      }
    }
    assert sc[..|trains|] == sc;
  }

  // ---------------------------------------------------------------------------
  // Accumulating matcher

  /** The train row recorded for each pair: the second-best match's. */
  function SecondTrainIdxs(pairs: seq<KnnPair>): (r: seq<nat>)
    ensures |r| == |pairs|
  {
    seq(|pairs|, i requires 0 <= i < |pairs| => pairs[i].n.trainIdx)
  }

  function QueryIdxs(pairs: seq<KnnPair>): (r: seq<nat>)
    ensures |r| == |pairs|
  {
    seq(|pairs|, i requires 0 <= i < |pairs| => pairs[i].m.queryIdx)
  }

  /** `good`: the second match's train row of each pair passing the 0.75 ratio test. */
  function GoodOf(pairs: seq<KnnPair>): seq<nat> {
    Select(SecondTrainIdxs(pairs), RatioMask(pairs, ACC_RATIO))
  }

  /** `bad`: the query row of each pair failing it. */
  function BadOf(pairs: seq<KnnPair>): seq<nat> {
    Select(QueryIdxs(pairs), Negate(RatioMask(pairs, ACC_RATIO)))
  }

  /** Every pair refers to an existing query row. */
  predicate QueriesIn(pairs: seq<KnnPair>, n: nat) {
    forall i :: 0 <= i < |pairs| ==> pairs[i].m.queryIdx < n
  }

  /** `s[idxs]`: the rows of `s` at the given indices, in that order. */
  function Rows<D>(s: seq<D>, idxs: seq<nat>): (r: seq<D>)
    requires forall k :: 0 <= k < |idxs| ==> idxs[k] < |s|
    ensures |r| == |idxs|
  {
    seq(|idxs|, k requires 0 <= k < |idxs| => s[idxs[k]])
  }

  lemma BadOfInRange(pairs: seq<KnnPair>, n: nat)
    requires QueriesIn(pairs, n)
    ensures forall k :: 0 <= k < |BadOf(pairs)| ==> BadOf(pairs)[k] < n
  {
    SelectSpec(QueryIdxs(pairs), Negate(RatioMask(pairs, ACC_RATIO)));
  }

  /** `query[bad]`: the query rows whose pair failed the ratio test. */
  function BadRows<D>(query: seq<D>, pairs: seq<KnnPair>): (r: seq<D>)
    requires QueriesIn(pairs, |query|)
    ensures |r| == |BadOf(pairs)|
  {
    BadOfInRange(pairs, |query|);
    Rows(query, BadOf(pairs))
  }

  /** Every pair lands in exactly one of `good` and `bad`, in input order:
      `good` holds the second match's train row of each passing pair and
      `bad` the best match's query row of each failing pair. */
  lemma AccPartition(pairs: seq<KnnPair>)
    ensures |GoodOf(pairs)| + |BadOf(pairs)| == |pairs|
    ensures var gs := Positions(RatioMask(pairs, ACC_RATIO));
      forall k :: 0 <= k < |gs| ==>
        gs[k] < |pairs| && pairs[gs[k]].m.distance < ACC_RATIO * pairs[gs[k]].n.distance
        && GoodOf(pairs)[k] == pairs[gs[k]].n.trainIdx
    ensures var bs := Positions(Negate(RatioMask(pairs, ACC_RATIO)));
      forall k :: 0 <= k < |bs| ==>
        bs[k] < |pairs| && !(pairs[bs[k]].m.distance < ACC_RATIO * pairs[bs[k]].n.distance)
        && BadOf(pairs)[k] == pairs[bs[k]].m.queryIdx
    ensures forall j :: 0 <= j < |pairs| ==>
      (j in Positions(RatioMask(pairs, ACC_RATIO)) <==> j !in Positions(Negate(RatioMask(pairs, ACC_RATIO))))
  {
    var mask := RatioMask(pairs, ACC_RATIO);
    CountPartition(mask);
    SelectSpec(SecondTrainIdxs(pairs), mask);
    SelectSpec(QueryIdxs(pairs), Negate(mask));
  }

  /** Matches `query` against `train`, returns the `good` train rows and the
      train set grown by the query rows of the `bad` pairs. */
  method AccMatch<D>(query: seq<D>, train: seq<D>, knn: (seq<D>, seq<D>) -> seq<KnnPair>)
    returns (good: seq<nat>, grown: seq<D>)
    requires QueriesIn(knn(query, train), |query|)
    ensures good == GoodOf(knn(query, train))
    ensures grown == train + BadRows(query, knn(query, train))
    ensures |grown| == |train| + |knn(query, train)| - |good|
  {
    var matches := knn(query, train);
    ghost var mask := RatioMask(matches, ACC_RATIO);
    var bad: seq<nat> := [];
    good := [];
    for i := 0 to |matches|
      invariant good == Select(SecondTrainIdxs(matches)[..i], mask[..i])
      invariant bad == Select(QueryIdxs(matches)[..i], Negate(mask)[..i])
    {
      var p := matches[i];
      if p.m.distance < ACC_RATIO * p.n.distance {
        good := good + [p.n.trainIdx];
      } else {
        bad := bad + [p.m.queryIdx];
      }
      SelectExtend(SecondTrainIdxs(matches), mask, i);
      SelectExtend(QueryIdxs(matches), Negate(mask), i);
    }
    assert SecondTrainIdxs(matches)[..|matches|] == SecondTrainIdxs(matches);
    assert QueryIdxs(matches)[..|matches|] == QueryIdxs(matches);
    assert mask[..|matches|] == mask && Negate(mask)[..|matches|] == Negate(mask);
    assert good == GoodOf(matches) && bad == BadOf(matches);
    BadOfInRange(matches, |query|);
    var rows := Rows(query, bad);
    grown := train;
    for j := 0 to |rows|
      invariant grown == train + rows[..j]
    {
      assert rows[..j + 1] == rows[..j] + [rows[j]];
      grown := grown + [rows[j]];
    }
    assert rows[..|rows|] == rows;
    AccPartition(matches);
  }

  // ---------------------------------------------------------------------------
  // Cluster point lists

  /** `[v] * n`. */
  function Repeat(v: nat, n: nat): (r: seq<nat>)
    ensures |r| == n
  {
    seq(n, _ => v)
  }

  /** What the list-building loop of `cluster` holds after some frames. */
  datatype ClusterSet<D> = ClusterSet(xs: seq<nat>, ys: seq<nat>, train: seq<D>)

  /** The matcher only returns query rows that exist. */
  ghost predicate ValidMatcher<D(!new)>(knn: (seq<D>, seq<D>) -> seq<KnnPair>) {
    forall q: seq<D>, t: seq<D> :: QueriesIn(knn(q, t), |q|)
  }

  /** The lists after the first `k` frames: frame `i` contributes its `good`
      train rows to `ys`, as many copies of `i` to `xs`, and its `bad` rows
      to the train set. */
  function ClusterAfter<D(!new)>(dcss: seq<seq<D>>, knn: (seq<D>, seq<D>) -> seq<KnnPair>, k: nat): ClusterSet<D>
    requires 0 < |dcss| && k <= |dcss| && ValidMatcher(knn)
  {
    if k == 0 then ClusterSet([], [], dcss[0])
    else
      var prev := ClusterAfter(dcss, knn, k - 1);
      var pairs := knn(dcss[k - 1], prev.train);
      var good := GoodOf(pairs);
      ClusterSet(prev.xs + Repeat(k - 1, |good|), prev.ys + good, prev.train + BadRows(dcss[k - 1], pairs))
  }

  /** `xs` and `ys` stay equally long, and `xs` holds frame indices below `k`
      in non-decreasing order. */
  lemma {:induction false} ClusterShape<D(!new)>(dcss: seq<seq<D>>, knn: (seq<D>, seq<D>) -> seq<KnnPair>, k: nat)
    requires 0 < |dcss| && k <= |dcss| && ValidMatcher(knn)
    ensures var c := ClusterAfter(dcss, knn, k);
      && |c.xs| == |c.ys|
      && (forall i :: 0 <= i < |c.xs| ==> c.xs[i] < k)
      && (forall i, j :: 0 <= i <= j < |c.xs| ==> c.xs[i] <= c.xs[j])
  {
    if k > 0 {
      ClusterShape(dcss, knn, k - 1);
    }
  }

  /** Builds the `(frame index, train row)` point lists over all frames. */
  method Cluster<D(!new)>(dcss: seq<seq<D>>, knn: (seq<D>, seq<D>) -> seq<KnnPair>)
    returns (xs: seq<nat>, ys: seq<nat>)
    requires 0 < |dcss| && ValidMatcher(knn)
    ensures xs == ClusterAfter(dcss, knn, |dcss|).xs && ys == ClusterAfter(dcss, knn, |dcss|).ys
    ensures |xs| == |ys|
    ensures forall i :: 0 <= i < |xs| ==> xs[i] < |dcss|
    ensures forall i, j :: 0 <= i <= j < |xs| ==> xs[i] <= xs[j]
  {
    xs, ys := [], [];
    var train := dcss[0];
    for frameIdx := 0 to |dcss|
      invariant ClusterAfter(dcss, knn, frameIdx) == ClusterSet(xs, ys, train)
    {
      var thisYs, grown := AccMatch(dcss[frameIdx], train, knn);
      train := grown;
      var thisXs := Repeat(frameIdx, |thisYs|);
      ys := ys + thisYs;
      xs := xs + thisXs;
    }
    ClusterShape(dcss, knn, |dcss|);
  }
}
