/** One frame of the scanner's tracking loop: replenishing the tracked point
    set, keeping the points the optical flow followed, moving and resizing the
    box, clipping it to the frame and recording the annotation.

    The corner detector, the point matcher, the optical flow, the median, the
    standard deviation and the enclosing rectangle are library calls; their
    results enter as parameters. */
module Tracker {
  import opened Geometry
  import opened Masks
  import opened Matches
  import opened Annotations

  /** Size below which the point set is replenished. */
  const N_TRACKED_CORNERS: nat := 50

  /** A proposed point must lie farther than this from its nearest tracked point. */
  const MIN_NEW_DISTANCE: real := 10.0

  // ---------------------------------------------------------------------------
  // Replenishment

  /** `‖pt - centroid‖ < 2 ‖std‖`, compared on squares. */
  predicate NearCentroid(pt: Point, centroid: Point, std: Point) {
    NormSq(Sub(pt, centroid)) < 4.0 * NormSq(std)
  }

  /** Comparing squared norms decides the same as comparing the norms. */
  lemma NearCentroidMeansNorms(pt: Point, centroid: Point, std: Point, d: real, s: real)
    requires 0.0 <= d && 0.0 <= s
    requires d * d == NormSq(Sub(pt, centroid)) && s * s == NormSq(std)
    ensures NearCentroid(pt, centroid, std) <==> d < 2.0 * s
  {
    var t := 2.0 * s;
    assert t * t == 4.0 * NormSq(std);
    if d < t {
      SquareMonotone(d, t);
    } else {
      SquareMonotone(t, d);
    }
  }

  lemma MulNonNeg(x: real, y: real)
    requires 0.0 <= x && 0.0 <= y
    ensures 0.0 <= x * y
  {
  }

  lemma MulPos(x: real, y: real)
    requires 0.0 < x && 0.0 < y
    ensures 0.0 < x * y
  {
  }

  /** Squaring is monotone, strictly so, on non-negative reals. */
  lemma SquareMonotone(a: real, b: real)
    requires 0.0 <= a <= b
    ensures a * a <= b * b
    ensures a < b ==> a * a < b * b
  {
    var diff := b * b - a * a;
    assert (b - a) * (b + a) == diff;
    MulNonNeg(b - a, b + a);
    if a < b {
      MulPos(b - a, b + a);
    }
  }

  /** Every match refers to an existing proposed point. */
  predicate ValidMatches(matches: seq<DMatch>, n: nat) {
    forall i :: 0 <= i < |matches| ==> matches[i].queryIdx < n
  }

  /** The gate a proposed point passes to join the point set: far enough from
      every tracked point, and inside the box or near the centroid. */
  predicate Admits(m: DMatch, pt: Point, bb: Box, centroid: Point, std: Point) {
    m.distance > MIN_NEW_DISTANCE && (TestPoint(bb, pt) || NearCentroid(pt, centroid, std))
  }

  /** The proposed point of each match, in match order. */
  function Candidates(proposed: seq<Point>, matches: seq<DMatch>): (cs: seq<Point>)
    requires ValidMatches(matches, |proposed|)
    ensures |cs| == |matches|
  {
    seq(|matches|, i requires 0 <= i < |matches| => proposed[matches[i].queryIdx])
  }

  /** Which matches pass the gate. */
  function Gate(proposed: seq<Point>, matches: seq<DMatch>, bb: Box, centroid: Point, std: Point): (g: seq<bool>)
    requires ValidMatches(matches, |proposed|)
    ensures |g| == |matches|
  {
    seq(|matches|, i requires 0 <= i < |matches| =>
      Admits(matches[i], proposed[matches[i].queryIdx], bb, centroid, std))
  }

  /** The proposed points admitted, in match order. */
  function Admitted(proposed: seq<Point>, matches: seq<DMatch>, bb: Box, centroid: Point, std: Point): seq<Point>
    requires ValidMatches(matches, |proposed|)
  {
    Select(Candidates(proposed, matches), Gate(proposed, matches, bb, centroid, std))
  }

  /** The point set after the replenishment step of one frame. */
  function Replenished(p0: seq<Point>, proposed: seq<Point>, matches: seq<DMatch>,
                       bb: Box, centroid: Point, std: Point): seq<Point>
    requires ValidMatches(matches, |proposed|)
  {
    if |p0| < N_TRACKED_CORNERS then p0 + Admitted(proposed, matches, bb, centroid, std) else p0
  }

  /** The admitted points are exactly the proposed points of the matches that
      pass the gate, each once, in match order. */
  lemma AdmittedSpec(proposed: seq<Point>, matches: seq<DMatch>, bb: Box, centroid: Point, std: Point)
    requires ValidMatches(matches, |proposed|)
    ensures var ps := Positions(Gate(proposed, matches, bb, centroid, std));
      var r := Admitted(proposed, matches, bb, centroid, std);
      && |r| == |ps| <= |matches|
      && (forall k :: 0 <= k < |ps| ==>
            ps[k] < |matches|
            && Admits(matches[ps[k]], proposed[matches[ps[k]].queryIdx], bb, centroid, std)
            && r[k] == proposed[matches[ps[k]].queryIdx])
      && (forall k, l :: 0 <= k < l < |ps| ==> ps[k] < ps[l])
      && (forall j :: 0 <= j < |matches| && Admits(matches[j], proposed[matches[j].queryIdx], bb, centroid, std)
            ==> j in ps)
  {
    SelectSpec(Candidates(proposed, matches), Gate(proposed, matches, bb, centroid, std));
  }

  /** Replenishment never shrinks the point set and keeps its points in
      place; it adds nothing to a full set or from an empty match list. */
  lemma ReplenishedSpec(p0: seq<Point>, proposed: seq<Point>, matches: seq<DMatch>,
                        bb: Box, centroid: Point, std: Point)
    requires ValidMatches(matches, |proposed|)
    ensures var r := Replenished(p0, proposed, matches, bb, centroid, std);
      && |p0| <= |r| <= |p0| + |matches|
      && r[..|p0|] == p0
      && (|p0| >= N_TRACKED_CORNERS ==> r == p0)
      && (|matches| == 0 ==> r == p0)
  {
    var g := Gate(proposed, matches, bb, centroid, std);
    if |matches| == 0 {
      SelectNone(Candidates(proposed, matches), g);
    }
  }

  // ---------------------------------------------------------------------------
  // Status filter

  /** `st == 1` as a mask. */
  function StatusMask(st: seq<int>): (mask: seq<bool>)
    ensures |mask| == |st|
  {
    seq(|st|, i requires 0 <= i < |st| => st[i] == 1)
  }

  /** `p1[st==1]` and `p0[st==1]` are parallel: equally long, and their k-th
      entries are the new and old position of the same tracked point, the
      k-th one whose status is 1. */
  lemma StatusFilterSpec(p1: seq<Point>, p0: seq<Point>, st: seq<int>)
    requires |p1| == |st| && |p0| == |st|
    ensures var ps := Positions(StatusMask(st));
      var goodNew, goodOld := Select(p1, StatusMask(st)), Select(p0, StatusMask(st));
      && |goodNew| == |goodOld| == |ps|
      && (forall k :: 0 <= k < |ps| ==>
            ps[k] < |st| && st[ps[k]] == 1 && goodNew[k] == p1[ps[k]] && goodOld[k] == p0[ps[k]])
      && (forall k, l :: 0 <= k < l < |ps| ==> ps[k] < ps[l])
      && (forall j :: 0 <= j < |st| && st[j] == 1 ==> j in ps)
  {
    SelectSpec(p1, StatusMask(st));
    SelectSpec(p0, StatusMask(st));
  }

  // ---------------------------------------------------------------------------
  // Mean velocity

  function Add(p: Point, q: Point): Point { Point(p.x + q.x, p.y + q.y) }

  function Sum(ps: seq<Point>): Point {
    if |ps| == 0 then Point(0.0, 0.0) else Add(Sum(ps[..|ps| - 1]), ps[|ps| - 1])
  }

  function Mean(ps: seq<Point>): Point
    requires |ps| > 0
  {
    var s := Sum(ps);
    Point(s.x / |ps| as real, s.y / |ps| as real)
  }

  /** `good_new - good_old`: the displacement of each surviving point. */
  function Velocities(newPts: seq<Point>, oldPts: seq<Point>): (v: seq<Point>)
    requires |newPts| == |oldPts|
    ensures |v| == |newPts|
  {
    seq(|newPts|, i requires 0 <= i < |newPts| => Sub(newPts[i], oldPts[i]))
  }

  /** `avg_vel`: the mean displacement. */
  function AvgVel(newPts: seq<Point>, oldPts: seq<Point>): Point
    requires |newPts| == |oldPts| > 0
  {
    Mean(Velocities(newPts, oldPts))
  }

  lemma {:induction false} SumOfVelocities(newPts: seq<Point>, oldPts: seq<Point>)
    requires |newPts| == |oldPts|
    ensures Sum(Velocities(newPts, oldPts)) == Sub(Sum(newPts), Sum(oldPts))
  {
    if |newPts| > 0 {
      var n := |newPts| - 1;
      SumOfVelocities(newPts[..n], oldPts[..n]);
      assert Velocities(newPts, oldPts)[..n] == Velocities(newPts[..n], oldPts[..n]);
    }
  }

  /** The mean velocity is the shift of the mean position. */
  lemma AvgVelIsMeanShift(newPts: seq<Point>, oldPts: seq<Point>)
    requires |newPts| == |oldPts| > 0
    ensures AvgVel(newPts, oldPts) == Sub(Mean(newPts), Mean(oldPts))
  {
    SumOfVelocities(newPts, oldPts);
    var n := |newPts| as real;
    var sn, so := Sum(newPts), Sum(oldPts);
    DivSub(sn.x, so.x, n);
    DivSub(sn.y, so.y, n);
  }

  lemma DivSub(a: real, b: real, n: real)
    requires n > 0.0
    ensures (a - b) / n == a / n - b / n
  {
    var qa, qb := a / n, b / n;
    assert qa * n == a && qb * n == b;
    assert (qa - qb) * n == a - b;
  }

  lemma {:induction false} SumOfConstant(vs: seq<Point>, v: Point)
    requires forall i :: 0 <= i < |vs| ==> vs[i] == v
    ensures Sum(vs) == Point(|vs| as real * v.x, |vs| as real * v.y)
  {
    if |vs| > 0 {
      SumOfConstant(vs[..|vs| - 1], v);
    }
  }

  /** When every point moved by the same vector, that vector is the mean velocity. */
  lemma UniformMotion(newPts: seq<Point>, oldPts: seq<Point>, v: Point)
    requires |newPts| == |oldPts| > 0
    requires forall i :: 0 <= i < |newPts| ==> newPts[i] == Add(oldPts[i], v)
    ensures AvgVel(newPts, oldPts) == v
  {
    var vs := Velocities(newPts, oldPts);
    SumOfConstant(vs, v);
    var n := |vs| as real;
    MulDivCancel(n, v.x);
    MulDivCancel(n, v.y);
  }

  lemma MulDivCancel(n: real, a: real)
    requires n > 0.0
    ensures n * a / n == a
  {
  }

  // ---------------------------------------------------------------------------
  // Box update

  /** `c_xy = bb[:2] + bb[2:] // 2`: the integer centre, halves rounded down. */
  function Center(bb: Box): (c: (int, int))
    ensures 2 * (c.0 - bb.x) <= bb.w < 2 * (c.0 - bb.x) + 2
    ensures 2 * (c.1 - bb.y) <= bb.h < 2 * (c.1 - bb.y) + 2
  {
    (bb.x + bb.w / 2, bb.y + bb.h / 2)
  }

  /** `dc_xy = centroid - c_xy`. */
  function CenterOffset(bb: Box, centroid: Point): Point {
    var c := Center(bb);
    Point(centroid.x - c.0 as real, centroid.y - c.1 as real)
  }

  /** `(1 - f) * size + f * (target + |lag|)`, before it is stored. */
  function Blend(size: int, target: int, lag: real, f: real): real {
    (1.0 - f) * size as real + f * (target as real + Abs(lag))
  }

  /** For a weight in [0, 1] the blend lies between the current size and
      the goal `target + |lag|`. */
  lemma BlendBetween(size: int, target: int, lag: real, f: real)
    requires 0.0 <= f <= 1.0
    ensures var goal := target as real + Abs(lag);
      var b := Blend(size, target, lag, f);
      && (size as real <= goal ==> size as real <= b <= goal)
      && (goal <= size as real ==> goal <= b <= size as real)
  {
    ConvexBetween(size as real, target as real + Abs(lag), f, Blend(size, target, lag, f));
  }

  lemma ConvexBetween(s: real, g: real, f: real, b: real)
    requires 0.0 <= f <= 1.0
    requires b == (1.0 - f) * s + f * g
    ensures s <= g ==> s <= b <= g
    ensures g <= s ==> g <= b <= s
  {
    assert b == s + f * (g - s);
    if s <= g {
      MulNonNeg(f, g - s);
      MulNonNeg(1.0 - f, g - s);
      assert (1.0 - f) * (g - s) == (g - s) - f * (g - s);
    } else {
      MulNonNeg(f, s - g);
      MulNonNeg(1.0 - f, s - g);
      assert (1.0 - f) * (s - g) == (s - g) - f * (s - g);
      assert b == s - f * (s - g);
    }
  }

  /** The box after the translation by the mean velocity (optical_flow.py line 159). */
  function Translated(bb: Box, vel: Point): Box {
    bb.(x := Trunc(bb.x as real + vel.x), y := Trunc(bb.y as real + vel.y))
  }

  /** The box after the nudge of its origin toward the centroid (optical_flow.py line 164). */
  function Recentered(bb: Box, dc: Point, centroidF: real): Box {
    bb.(x := Trunc(bb.x as real + centroidF * dc.x), y := Trunc(bb.y as real + centroidF * dc.y))
  }

  /** The box after the size blend (optical_flow.py line 169). */
  function Resized(bb: Box, target: Box, dc: Point, tgtbbF: real): Box {
    bb.(w := Trunc(Blend(bb.w, target.w, dc.x, tgtbbF)), h := Trunc(Blend(bb.h, target.h, dc.y, tgtbbF)))
  }

  /** The box after one frame's update: translate, nudge the origin toward
      the centroid, blend the size toward the target size plus the centring
      lag; every stored value is truncated toward zero. */
  function UpdatedBox(bb: Box, vel: Point, centroid: Point, target: Box, centroidF: real, tgtbbF: real): Box {
    var moved := Translated(bb, vel);
    var dc := CenterOffset(moved, centroid);
    Resized(Recentered(moved, dc, centroidF), target, dc, tgtbbF)
  }

  /** No motion and zero weights leave the box as it is. */
  lemma NoSignalKeepsBox(bb: Box, centroid: Point, target: Box)
    ensures UpdatedBox(bb, Point(0.0, 0.0), centroid, target, 0.0, 0.0) == bb
  {
    TruncInt(bb.x);
    TruncInt(bb.y);
    TruncInt(bb.w);
    TruncInt(bb.h);
  }

  /** When the centroid is the centre of the translated box, the centring
      step moves nothing and the size moves toward the target size alone. */
  lemma CenteredNoNudge(bb: Box, vel: Point, centroid: Point, target: Box, centroidF: real, tgtbbF: real)
    requires CenterOffset(Translated(bb, vel), centroid) == Point(0.0, 0.0)
    ensures var r := UpdatedBox(bb, vel, centroid, target, centroidF, tgtbbF);
      && r.x == Translated(bb, vel).x && r.y == Translated(bb, vel).y
      && (target.w == bb.w ==> r.w == bb.w)
      && (target.h == bb.h ==> r.h == bb.h)
  {
    var moved := Translated(bb, vel);
    TruncInt(moved.x);
    TruncInt(moved.y);
    assert Blend(bb.w, bb.w, 0.0, tgtbbF) == bb.w as real;
    assert Blend(bb.h, bb.h, 0.0, tgtbbF) == bb.h as real;
    TruncInt(bb.w);
    TruncInt(bb.h);
  }

  /** A box centred on the centroid, with the target equal to the box and no
      motion, is left unchanged by the default weights 0.1. */
  lemma CenteredBoxIsStable()
    ensures UpdatedBox(Box(10, 10, 50, 50), Point(0.0, 0.0), Point(35.0, 35.0), Box(10, 10, 50, 50), 0.1, 0.1)
      == Box(10, 10, 50, 50)
  {
    var bb := Box(10, 10, 50, 50);
    TruncInt(10);
    TruncInt(50);
    assert Translated(bb, Point(0.0, 0.0)) == bb;
    assert CenterOffset(bb, Point(35.0, 35.0)) == Point(0.0, 0.0);
    assert Blend(50, 50, 0.0, 0.1) == 50.0;
  }

  /** For a size weight in [0, 1] each new side lies between the old side and
      the truncated goal `target + |dc|`. */
  lemma SizeBetween(bb: Box, vel: Point, centroid: Point, target: Box, centroidF: real, tgtbbF: real)
    requires 0.0 <= tgtbbF <= 1.0
    ensures var dc := CenterOffset(Translated(bb, vel), centroid);
      var r := UpdatedBox(bb, vel, centroid, target, centroidF, tgtbbF);
      && Min(bb.w, Trunc(target.w as real + Abs(dc.x))) <= r.w <= Max(bb.w, Trunc(target.w as real + Abs(dc.x)))
      && Min(bb.h, Trunc(target.h as real + Abs(dc.y))) <= r.h <= Max(bb.h, Trunc(target.h as real + Abs(dc.y)))
  {
    var dc := CenterOffset(Translated(bb, vel), centroid);
    SideBetween(bb.w, target.w, dc.x, tgtbbF);
    SideBetween(bb.h, target.h, dc.y, tgtbbF);
  }

  lemma SideBetween(size: int, target: int, lag: real, f: real)
    requires 0.0 <= f <= 1.0
    ensures var goal := target as real + Abs(lag);
      Min(size, Trunc(goal)) <= Trunc(Blend(size, target, lag, f)) <= Max(size, Trunc(goal))
  {
    var goal := target as real + Abs(lag);
    var b := Blend(size, target, lag, f);
    BlendBetween(size, target, lag, f);
    TruncInt(size);
    if size as real <= goal {
      TruncMonotone(size as real, b);
      TruncMonotone(b, goal);
    } else {
      TruncMonotone(goal, b);
      TruncMonotone(b, size as real);
    }
  }

  /** With non-negative sides and target sides and a weight in [0, 1], the
      sides stay non-negative. */
  lemma SizeStaysNonNegative(bb: Box, vel: Point, centroid: Point, target: Box, centroidF: real, tgtbbF: real)
    requires 0.0 <= tgtbbF <= 1.0
    requires bb.w >= 0 && bb.h >= 0 && target.w >= 0 && target.h >= 0
    ensures UpdatedBox(bb, vel, centroid, target, centroidF, tgtbbF).w >= 0
    ensures UpdatedBox(bb, vel, centroid, target, centroidF, tgtbbF).h >= 0
  {
    SizeBetween(bb, vel, centroid, target, centroidF, tgtbbF);
  }

  // ---------------------------------------------------------------------------
  // The tracker state

  class FrameTracker {
    /** The tracked points. */
    var p0: seq<Point>
    /** The working box, never clipped. */
    var bb: Box
    /** One annotation per processed frame. */
    var annotations: seq<Annotation>
    var frameId: nat

    ghost predicate Valid()
      reads this
    {
      |annotations| == frameId
    }

    /** Starts from the first frame's corners and their enclosing rectangle. */
    constructor (corners: seq<Point>, rect: Box)
      ensures Valid()
      ensures p0 == corners && bb == rect && annotations == [] && frameId == 0
    {
      p0 := corners;
      bb := rect;
      annotations := [];
      frameId := 0;
    }

    /** Replenishes the point set from the proposed points and their matches
        to the current points, when it holds fewer than N_TRACKED_CORNERS. */
    method Replenish(proposed: seq<Point>, matches: seq<DMatch>, centroid: Point, std: Point)
      requires Valid()
      requires ValidMatches(matches, |proposed|)
      modifies this`p0
      ensures Valid()
      ensures p0 == Replenished(old(p0), proposed, matches, bb, centroid, std)
    {
      if |p0| < N_TRACKED_CORNERS {
        ghost var cands := Candidates(proposed, matches);
        ghost var gate := Gate(proposed, matches, bb, centroid, std);
        var good: seq<Point> := [];
        var i := 0;
        while i < |matches|
          invariant i <= |matches|
          invariant p0 == old(p0)
          invariant good == Select(cands[..i], gate[..i])
        {
          var m := matches[i];
          if m.distance > MIN_NEW_DISTANCE {
            var point := proposed[m.queryIdx];
            if TestPoint(bb, point) || NearCentroid(point, centroid, std) {
              good := good + [point];
            }
          }
          SelectExtend(cands, gate, i);
          i := i + 1;
        }
        assert cands[..i] == cands && gate[..i] == gate;
        assert good == Admitted(proposed, matches, bb, centroid, std);
        if |good| > 0 {
          p0 := p0 + good;
        } else {
          assert p0 + good == p0;
        }
      }
    }

    /** Moves and resizes the working box in place, one slice at a time. */
    method UpdateBox(avgVel: Point, centroid: Point, target: Box, centroidF: real, tgtbbF: real)
      requires Valid()
      modifies this`bb
      ensures Valid()
      ensures bb == UpdatedBox(old(bb), avgVel, centroid, target, centroidF, tgtbbF)
    {
      bb := Translated(bb, avgVel);
      var dc := CenterOffset(bb, centroid);
      bb := Recentered(bb, dc, centroidF);
      bb := Resized(bb, target, dc, tgtbbF);
    }

    /** Consumes the optical flow's result for the current points: keeps the
        points followed successfully, updates the box from their motion, the
        centroid and the target rectangle, and records the clipped box. */
    method Advance(p1: seq<Point>, st: seq<int>, centroid: Point, target: Box,
                   frameWidth: int, frameHeight: int, path: string, centroidF: real, tgtbbF: real)
      returns (clipped: Box)
      requires Valid()
      requires |p1| == |st| == |p0|
      requires Count(StatusMask(st)) > 0
      modifies this
      ensures Valid()
      ensures p0 == Select(p1, StatusMask(st))
      ensures bb == UpdatedBox(old(bb), AvgVel(p0, Select(old(p0), StatusMask(st))),
                               centroid, target, centroidF, tgtbbF)
      ensures clipped == ClipBox(bb, frameWidth, frameHeight)
      ensures annotations == old(annotations) + [Annotation(path, clipped)]
      ensures frameId == old(frameId) + 1
    {
      var mask := StatusMask(st);
      var goodNew := Select(p1, mask);
      var goodOld := Select(p0, mask);
      var avgVel := AvgVel(goodNew, goodOld);
      UpdateBox(avgVel, centroid, target, centroidF, tgtbbF);
      clipped := ClipBox(bb, frameWidth, frameHeight);
      annotations := annotations + [Annotation(path, clipped)];
      p0 := goodNew;
      frameId := frameId + 1;
    }
  }
}
