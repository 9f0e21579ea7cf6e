/**
  The acceptance gate of `unwarp_image`: Lowe's ratio test over the two nearest template
  descriptors of every input descriptor, then a minimum number of accepted matches.
  Feature detection, the matcher, the homography and the warp are inputs.
 */
module Align {
  import opened Wrappers

  /** One candidate correspondence: input descriptor, template descriptor, descriptor distance. */
  datatype DMatch = DMatch(queryIdx: nat, trainIdx: nat, distance: real)

  /** The two nearest template descriptors found for one input descriptor (`knnMatch`, k = 2). */
  datatype KnnPair = KnnPair(best: DMatch, second: DMatch)

  const LoweRatio: real := 0.7
  const MatchThreshold: nat := 75

  /** The ratio test: the best neighbour is clearly closer than the runner-up. */
  predicate Distinctive(p: KnnPair) {
    p.best.distance < LoweRatio * p.second.distance
  }

  /** `good_points`: the best match of every pair that passes the ratio test, in order. */
  function GoodPoints(pairs: seq<KnnPair>): (good: seq<DMatch>)
    ensures |good| <= |pairs|
    ensures forall i :: 0 <= i < |pairs| && Distinctive(pairs[i]) ==> pairs[i].best in good
    ensures forall m :: m in good ==> exists i :: 0 <= i < |pairs| && Distinctive(pairs[i]) && pairs[i].best == m
  {
    if |pairs| == 0 then []
    else
      var init, last := pairs[..|pairs| - 1], pairs[|pairs| - 1];
      assert forall i :: 0 <= i < |init| ==> init[i] == pairs[i];
      GoodPoints(init) + (if Distinctive(last) then [last.best] else [])
  }

  /** Filtering a concatenation filters each part and keeps them in order. */
  lemma {:induction false} GoodPointsAppend(a: seq<KnnPair>, b: seq<KnnPair>)
    ensures GoodPoints(a + b) == GoodPoints(a) + GoodPoints(b)
  {
    if |b| > 0 {
      var init := b[..|b| - 1];
      assert (a + b)[..|a + b| - 1] == a + init;
      GoodPointsAppend(a, init);
    } else {
      assert a + b == a;
    }
  }

  /** The number of pairs that pass the ratio test. */
  function CountDistinctive(pairs: seq<KnnPair>): nat {
    if |pairs| == 0 then 0
    else CountDistinctive(pairs[..|pairs| - 1]) + (if Distinctive(pairs[|pairs| - 1]) then 1 else 0)
  }

  /** Exactly one best match is kept for every pair that passes. */
  lemma {:induction false} GoodPointsCount(pairs: seq<KnnPair>)
    ensures |GoodPoints(pairs)| == CountDistinctive(pairs)
  {
    if |pairs| > 0 {
      GoodPointsCount(pairs[..|pairs| - 1]);
    }
  }

  /**
    `unwarp_image`: `None` when fewer than 75 matches pass the ratio test; otherwise the
    input warped into the template's frame through the homography of the accepted matches.
   */
  function Unwarp<Img>(img: Img, knn: Img -> seq<KnnPair>, warp: (Img, seq<DMatch>) -> Img): (r: Option<Img>)
    ensures r.None? <==> CountDistinctive(knn(img)) < MatchThreshold
    ensures r.Some? ==> r.value == warp(img, GoodPoints(knn(img)))
  {
    var good := GoodPoints(knn(img));
    GoodPointsCount(knn(img));
    if |good| < MatchThreshold then None else Some(warp(img, good))
  }

  /** More candidate pairs never turn an accepted image into a rejected one. */
  lemma AcceptanceMonotone(a: seq<KnnPair>, b: seq<KnnPair>)
    requires CountDistinctive(a) >= MatchThreshold
    ensures CountDistinctive(a + b) >= MatchThreshold
  {
    GoodPointsAppend(a, b);
    GoodPointsCount(a);
    GoodPointsCount(a + b);
  }

  /** A pair whose best distance is exactly 0.7 of the runner-up's is rejected: the test is strict. */
  lemma RatioTestStrict(q: nat, t1: nat, t2: nat, d: real)
    requires d > 0.0
    ensures !Distinctive(KnnPair(DMatch(q, t1, 0.7 * d), DMatch(q, t2, d)))
    ensures Distinctive(KnnPair(DMatch(q, t1, 0.7 * d - 0.000001), DMatch(q, t2, d)))
  {
  }
}
