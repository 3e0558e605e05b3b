/**
 Stateless geometric features computed from two or three landmark positions:
 the joint angle at a vertex and the nearness of a point to the line through
 two others.  The trigonometric library call `arctan2` is a parameter of the
 angle, so nothing about it is assumed beyond what a lemma states; the square
 root of the distance formula is avoided by comparing squares, which over the
 reals decides the same question.
 */
module Geometry {
  import opened Landmarks

  /** numpy's `np.pi`: the exact value of the double it denotes, which lies
      slightly below the mathematical constant. */
  const Pi: real := 3.141592653589793115997963468544185161590576171875

  /** The constant the distance formula adds under its square root. */
  const LineEpsilon: real := 0.000001

  function Abs(x: real): (r: real)
    ensures r >= 0.0
    ensures r == x || r == -x
  {
    if x < 0.0 then -x else x
  }

  function Min(x: real, y: real): real {
    if x <= y then x else y
  }

  function Max(x: real, y: real): real {
    if x >= y then x else y
  }

  /** The fold at the end of `calculate_angle`: an absolute difference above
      180 degrees is replaced by its complement to 360. */
  function FoldAngle(raw: real): (r: real)
    ensures r <= 180.0
    ensures 0.0 <= raw <= 360.0 ==> 0.0 <= r
    ensures 0.0 <= raw <= 360.0 ==> r == Min(raw, 360.0 - raw)
  {
    if raw > 180.0 then 360.0 - raw else raw
  }

  /** `calculate_angle(a, b, c)`: the angle at vertex `b` between the rays to
      `a` and to `c`, in degrees, from the caller's `atan2`. */
  function JointAngle(atan2: (real, real) -> real, a: Point, b: Point, c: Point): (r: real)
    ensures r <= 180.0
  {
    var radians := atan2(c.y - b.y, c.x - b.x) - atan2(a.y - b.y, a.x - b.x);
    FoldAngle(Abs(radians * 180.0 / Pi))
  }

  /** Scaling a difference of two angles in [-Pi, Pi] to degrees stays within 360. */
  lemma DegreesOfBoundedDifference(d: real)
    requires -2.0 * Pi <= d <= 2.0 * Pi
    ensures 0.0 <= Abs(d * 180.0 / Pi) <= 360.0
  {
    assert d * 180.0 / Pi == d * (180.0 / Pi);
  }

  /** When `atan2` behaves like the library's (results in [-Pi, Pi]), the
      joint angle is a proper unsigned angle in [0, 180]. */
  lemma JointAngleInRange(atan2: (real, real) -> real, a: Point, b: Point, c: Point)
    requires forall y, x :: -Pi <= atan2(y, x) <= Pi
    ensures 0.0 <= JointAngle(atan2, a, b, c) <= 180.0
  {
    var d := atan2(c.y - b.y, c.x - b.x) - atan2(a.y - b.y, a.x - b.x);
    DegreesOfBoundedDifference(d);
  }

  /** The angle at `b` does not depend on which ray is named first. */
  lemma JointAngleSymmetric(atan2: (real, real) -> real, a: Point, b: Point, c: Point)
    ensures JointAngle(atan2, a, b, c) == JointAngle(atan2, c, b, a)
  {
    var u := atan2(c.y - b.y, c.x - b.x);
    var v := atan2(a.y - b.y, a.x - b.x);
    assert (v - u) * 180.0 / Pi == -((u - v) * 180.0 / Pi);
  }

  function Sub(p: Point, q: Point): Point {
    Point(p.x - q.x, p.y - q.y)
  }

  /** The 2-D cross product, the reference for "how far off the line". */
  function Cross(u: Point, v: Point): real {
    u.x * v.y - u.y * v.x
  }

  /** The point a fraction `t` of the way from `a` to `b` (any real `t`). */
  function Along(a: Point, b: Point, t: real): Point {
    Point(a.x + t * (b.x - a.x), a.y + t * (b.y - a.y))
  }

  function SquaredDistance(p: Point, q: Point): real {
    (p.x - q.x) * (p.x - q.x) + (p.y - q.y) * (p.y - q.y)
  }

  /** The denominator of the line formula, squared: A*A + B*B + epsilon. */
  function LineNormSquared(a: Point, b: Point): (r: real)
    ensures r > 0.0
  {
    var dy, dx := b.y - a.y, a.x - b.x;
    SquareNonNegative(dy);
    SquareNonNegative(dx);
    dy * dy + dx * dx + LineEpsilon
  }

  lemma SquareNonNegative(x: real)
    ensures x * x >= 0.0
  {
    if x < 0.0 {
      assert x * x == (-x) * (-x);
    }
  }

  lemma MulPositive3(x: real, y: real, z: real)
    requires x > 0.0 && y > 0.0 && z > 0.0
    ensures x * y * z > 0.0
  {
  }

  /** `sqrt(squared) < bound` for a non-negative `squared`, squared on both sides. */
  predicate InsideRadius(squared: real, bound: real) {
    squared < bound * bound
  }

  /** `|num| / sqrt(scale) < bound` for a positive `scale` and a positive
      `bound`, squared on both sides. */
  predicate RatioBelow(num: real, bound: real, scale: real) {
    num * num < bound * bound * scale
  }

  lemma ZeroInsideRadius(bound: real)
    requires bound > 0.0
    ensures InsideRadius(0.0, bound)
  {
    MulPositive3(bound, bound, 1.0);
  }

  lemma ZeroRatioBelow(bound: real, scale: real)
    requires bound > 0.0 && scale > 0.0
    ensures RatioBelow(0.0, bound, scale)
  {
    MulPositive3(bound, bound, scale);
  }

  /** A*p.x + B*p.y + C for the line through `a` and `b`, with the constant
      term C = b.x*a.y - a.x*b.y that puts `a` and `b` on the line. */
  function Residual(p: Point, a: Point, b: Point): real {
    (b.y - a.y) * p.x + (a.x - b.x) * p.y + (b.x * a.y - a.x * b.y)
  }

  /** The same numerator with the constant term as the distance helper
      writes it, C = a.x*b.y - b.x*a.y (the opposite sign). */
  function ResidualAsWritten(p: Point, a: Point, b: Point): real {
    (b.y - a.y) * p.x + (a.x - b.x) * p.y + (a.x * b.y - b.x * a.y)
  }

  /** `distance_point_to_line(p, a, b) < bound`, without the square root:
      the norm of p - a when a and b coincide, otherwise
      |Residual| / sqrt(LineNormSquared) < bound, squared on both sides. */
  predicate NearLine(p: Point, a: Point, b: Point, bound: real) {
    && bound > 0.0
    && if a == b then InsideRadius(SquaredDistance(p, a), bound)
       else RatioBelow(Residual(p, a, b), bound, LineNormSquared(a, b))
  }

  /** `NearLine` with the numerator as the distance helper writes it. */
  predicate NearLineAsWritten(p: Point, a: Point, b: Point, bound: real) {
    && bound > 0.0
    && if a == b then InsideRadius(SquaredDistance(p, a), bound)
       else RatioBelow(ResidualAsWritten(p, a, b), bound, LineNormSquared(a, b))
  }

  /** The residual is the cross product of p - a with the line's direction,
      so it vanishes exactly on the line through `a` and `b`. */
  lemma ResidualIsCross(p: Point, a: Point, b: Point)
    ensures Residual(p, a, b) == Cross(Sub(p, a), Sub(b, a))
  {
  }

  /** The residual of a point of the line through `a` and `b` is zero. */
  lemma ResidualOnLine(a: Point, b: Point, t: real)
    ensures Residual(Along(a, b, t), a, b) == 0.0
  {
    var p := Along(a, b, t);
    var u := Sub(b, a);
    ResidualIsCross(p, a, b);
    assert Sub(p, a) == Point(t * u.x, t * u.y);
    assert Cross(Point(t * u.x, t * u.y), u) == t * (u.x * u.y - u.y * u.x);
  }

  /** Every point of the line through `a` and `b` is within any positive
      bound of it. */
  lemma PointOnLineIsNear(a: Point, b: Point, t: real, bound: real)
    requires bound > 0.0
    ensures NearLine(Along(a, b, t), a, b, bound)
  {
    var p := Along(a, b, t);
    if a == b {
      assert p == a;
      assert SquaredDistance(p, a) == 0.0;
      ZeroInsideRadius(bound);
    } else {
      ResidualOnLine(a, b, t);
      ZeroRatioBelow(bound, LineNormSquared(a, b));
    }
  }

  /** Swapping the two points that define the line changes nothing. */
  lemma NearLineSymmetric(p: Point, a: Point, b: Point, bound: real)
    ensures NearLine(p, a, b, bound) <==> NearLine(p, b, a, bound)
  {
    assert Residual(p, b, a) == -Residual(p, a, b);
    assert LineNormSquared(b, a) == LineNormSquared(a, b);
    assert SquaredDistance(p, a) == SquaredDistance(p, b) || a != b;
  }

  /** The as-written numerator is off by twice the constant term, so it
      vanishes at the endpoint `a` only when the line passes through the
      origin. */
  lemma AsWrittenEndpointResidual(a: Point, b: Point)
    ensures ResidualAsWritten(a, a, b) == 2.0 * (a.x * b.y - b.x * a.y)
    ensures Residual(a, a, b) == 0.0
  {
  }

  /** A concrete line the as-written helper gets wrong: the horizontal line
      y = 1 through (0, 1) and (1, 1).  Its own endpoint (0, 1) is judged about
      2 away from it, and so not within 0.05, while the corrected form puts
      it on the line. */
  lemma AsWrittenMissesPointOnLine()
    ensures !NearLineAsWritten(Point(0.0, 1.0), Point(0.0, 1.0), Point(1.0, 1.0), 0.05)
    ensures NearLine(Point(0.0, 1.0), Point(0.0, 1.0), Point(1.0, 1.0), 0.05)
  {
    var a, b := Point(0.0, 1.0), Point(1.0, 1.0);
    assert ResidualAsWritten(a, a, b) == -2.0;
    assert Residual(a, a, b) == 0.0;
  }
}
