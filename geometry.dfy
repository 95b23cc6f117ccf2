/** Points, integer boxes and the two box helpers of the scanner
    (`test_point` and `clip_bb`), plus truncation toward zero, which is what
    storing a real value into the integer box array does. */
module Geometry {

  /** An image coordinate of a tracked feature point. */
  datatype Point = Point(x: real, y: real)

  /** A bounding box `(x, y, w, h)` in integer pixels. */
  datatype Box = Box(x: int, y: int, w: int, h: int)

  function Min(a: int, b: int): int { if a <= b then a else b }

  function Max(a: int, b: int): int { if a <= b then b else a }

  function Sub(p: Point, q: Point): Point { Point(p.x - q.x, p.y - q.y) }

  function Abs(r: real): real { if r < 0.0 then -r else r }

  /** Squared Euclidean norm of a vector. */
  function NormSq(p: Point): (r: real)
    ensures r >= 0.0
  {
    p.x * p.x + p.y * p.y
  }

  /** Closed-rectangle inclusion: all four edges belong to the box. */
  predicate TestPoint(bb: Box, pt: Point) {
    pt.x >= bb.x as real && pt.y >= bb.y as real
    && pt.x <= (bb.x + bb.w) as real && pt.y <= (bb.y + bb.h) as real
  }

  /** A box with a negative width or height contains no point. */
  lemma NegativeBoxIsEmpty(bb: Box, pt: Point)
    requires bb.w < 0 || bb.h < 0
    ensures !TestPoint(bb, pt)
  {
  }

  /** Clamps a box to a frame of `width` by `height` pixels: a negative
      origin is moved to 0 and the size shrunk by the overflow, then a far
      edge beyond the frame is pulled back to it. There is no lower clamp on
      the size. The argument is a value, so the caller's box is untouched. */
  function ClipBox(bb: Box, width: int, height: int): (r: Box)
    ensures r.x == Max(bb.x, 0) && r.y == Max(bb.y, 0)
    ensures r.x + r.w == Min(bb.x + bb.w, width)
    ensures r.y + r.h == Min(bb.y + bb.h, height)
  {
    var w1 := if bb.x < 0 then bb.w + bb.x else bb.w;
    var x1 := if bb.x < 0 then 0 else bb.x;
    var h1 := if bb.y < 0 then bb.h + bb.y else bb.h;
    var y1 := if bb.y < 0 then 0 else bb.y;
    var w2 := if x1 + w1 > width then w1 + (width - (x1 + w1)) else w1;
    var h2 := if y1 + h1 > height then h1 + (height - (y1 + h1)) else h1;
    Box(x1, y1, w2, h2)
  }

  /** Clipping never grows a box. */
  lemma ClipShrinks(bb: Box, width: int, height: int)
    ensures ClipBox(bb, width, height).w <= bb.w && ClipBox(bb, width, height).h <= bb.h
  {
  }

  /** Clipping is idempotent. */
  lemma ClipIdempotent(bb: Box, width: int, height: int)
    ensures ClipBox(ClipBox(bb, width, height), width, height) == ClipBox(bb, width, height)
  {
  }

  /** A point of the frame lies in the clipped box exactly when it lies in
      the original box; a point outside the frame never lies in the clipped
      box. */
  lemma ClipKeepsFramePoints(bb: Box, width: int, height: int, pt: Point)
    ensures TestPoint(ClipBox(bb, width, height), pt) <==>
      TestPoint(bb, pt) && 0.0 <= pt.x <= width as real && 0.0 <= pt.y <= height as real
  {
  }

  /** A box lying entirely right of the frame clips to a negative width. */
  lemma ClipOutsideGoesNegative()
    ensures ClipBox(Box(100, 0, 10, 10), 80, 80) == Box(100, 0, -20, 10)
  {
  }

  /** A box larger than the frame keeps its origin and takes the frame size. */
  lemma ClipOversizedBox()
    ensures ClipBox(Box(0, 0, 100, 100), 80, 80) == Box(0, 0, 80, 80)
  {
  }

  /** Conversion of a real to an integer by dropping the fraction, as a cast
      to a C integer type does: toward zero, not toward minus infinity. */
  function Trunc(r: real): (n: int)
    ensures 0.0 <= r ==> 0 <= n && n as real <= r < n as real + 1.0
    ensures r < 0.0 ==> n <= 0 && n as real - 1.0 < r <= n as real
  {
    if r >= 0.0 then r.Floor else -((-r).Floor)
  }

  /** Truncation fixes integers. */
  lemma TruncInt(n: int)
    ensures Trunc(n as real) == n
  {
  }

  /** Truncation is monotone. */
  lemma TruncMonotone(a: real, b: real)
    requires a <= b
    ensures Trunc(a) <= Trunc(b)
  {
  }

  /** Truncation and floor differ on negative non-integers. */
  lemma TruncIsNotFloor()
    ensures Trunc(-2.5) == -2 && (-2.5).Floor == -3
  {
  }
}
