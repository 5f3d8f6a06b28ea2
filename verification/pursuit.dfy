/**
 The geometry of the pursuit controller, over exact reals: the look-ahead point at which the path leaves a circle
 around the robot, and the pose at a given arc length along the path.

 The square root and the Euclidean norm are parameters, characterised by what they satisfy.
 */
module Pursuit {

  datatype Point = Point(x: real, y: real, z: real)

  datatype Pose = Pose(stamp: real, position: Point, orientation: (real, real, real, real))

  const ORIGIN_POSE := Pose(0.0, Point(0.0, 0.0, 0.0), (0.0, 0.0, 0.0, 1.0))

  function NormSquared(p: Point): real { p.x * p.x + p.y * p.y }

  ghost predicate IsSquareRoot(sqrt: real -> real) {
    forall v :: v >= 0.0 ==> sqrt(v) >= 0.0 && sqrt(v) * sqrt(v) == v
  }

  // --------------------------------------------------------------------------
  // Where the line through two points meets the circle

  // The square of the distance of the two points.
  function SpanSquared(p1: Point, p2: Point): real {
    var dx, dy := p2.x - p1.x, p2.y - p1.y;
    dx * dx + dy * dy
  }

  function Cross(p1: Point, p2: Point): real { p1.x * p2.y - p2.x * p1.y }

  function Discriminant(p1: Point, p2: Point, r: real): real {
    r * r * SpanSquared(p1, p2) - Cross(p1, p2) * Cross(p1, p2)
  }

  function CircleSegmentIntersection(sqrt: real -> real, p1: Point, p2: Point, r: real): Point
    requires SpanSquared(p1, p2) != 0.0
  {
    var dx, dy := p2.x - p1.x, p2.y - p1.y;
    var dr2, d := SpanSquared(p1, p2), Cross(p1, p2);
    var sign := if NormSquared(p2) - NormSquared(p1) < 0.0 then -1.0 else 1.0;
    var root := sqrt(Discriminant(p1, p2, r));
    Point((d * dy + sign * dx * root) / dr2, (-d * dx + sign * dy * root) / dr2, 0.0)
  }

  // The point that divides the segment in the proportion t.
  function Between(p1: Point, p2: Point, t: real): Point {
    Point(p1.x + t * (p2.x - p1.x), p1.y + t * (p2.y - p1.y), 0.0)
  }

  ghost predicate Inside(p: Point, r: real) { NormSquared(p) < r * r }

  function Dot(p1: Point, p2: Point): real { p1.x * (p2.x - p1.x) + p1.y * (p2.y - p1.y) }

  lemma Identities(p1: Point, p2: Point)
    ensures NormSquared(p2) == NormSquared(p1) + 2.0 * Dot(p1, p2) + SpanSquared(p1, p2)
    ensures NormSquared(p1) * SpanSquared(p1, p2)
         == Dot(p1, p2) * Dot(p1, p2) + Cross(p1, p2) * Cross(p1, p2)
  {
    var x, y, dx, dy := p1.x, p1.y, p2.x - p1.x, p2.y - p1.y;
    assert p2.x == x + dx && p2.y == y + dy;
    assert Cross(p1, p2) == x * dy - y * dx;
    Lagrange(x, y, dx, dy);
    Expand(x, dx);
    Expand(y, dy);
  }

  lemma Expand(x: real, dx: real)
    ensures (x + dx) * (x + dx) == x * x + 2.0 * (x * dx) + dx * dx
  {}

  lemma Lagrange(x: real, y: real, dx: real, dy: real)
    ensures (x * x + y * y) * (dx * dx + dy * dy)
         == (x * dx + y * dy) * (x * dx + y * dy) + (x * dy - y * dx) * (x * dy - y * dx)
  {}

  lemma Positive(a: real, b: real)
    requires a > 0.0 && b > 0.0
    ensures a * b > 0.0
  {}

  lemma NotNegative(a: real, b: real)
    requires a >= 0.0 && b >= 0.0
    ensures a * b >= 0.0
  {}

  lemma NotPositive(a: real, b: real)
    requires a >= 0.0 && b <= 0.0
    ensures a * b <= 0.0
  {}

  lemma Conjugates(a: real, b: real)
    ensures (a - b) * (a + b) == a * a - b * b
  {}

  lemma Opposite(s: real)
    ensures (-s) * (-s) == s * s
  {}

  lemma SquareGrows(b: real, a: real)
    requires 0.0 <= b <= a
    ensures b * b <= a * a
    ensures b < a ==> b * b < a * a
  {
    Conjugates(a, b);
    if b < a {
      Positive(a - b, a + b);
    }
  }

  lemma SquareOrder(a: real, b: real)
    requires b >= 0.0 && a * a <= b * b
    ensures -b <= a <= b
    ensures a * a < b * b ==> -b < a < b
  {
    Opposite(a);
    if a >= b {
      SquareGrows(b, a);
    } else if -a >= b {
      SquareGrows(b, -a);
    }
  }

  // On the way out, the root is past the start and not past the end.
  lemma Leaving(a: real, b: real, s: real)
    requires s >= 0.0 && a < b && a + b > 0.0 && a * a < s * s <= b * b
    ensures -s < a < s <= b
  {
    SquareOrder(a, s);
    SquareOrder(s, b);
  }

  // On the way in, it is the other root.
  lemma Entering(a: real, b: real, s: real)
    requires s >= 0.0 && a < b && a + b < 0.0 && b * b < s * s <= a * a
    ensures a <= -s < b < s
  {
    Opposite(a);
    Opposite(b);
    Leaving(-b, -a, s);
  }

  lemma RootSquares(a: real, span: real, d1: real, d2: real, rr: real, ss: real)
    requires span > 0.0 && d2 == d1 + 2.0 * a + span && ss - a * a == span * (rr - d1)
    ensures ss - (a + span) * (a + span) == span * (rr - d2)
  {
    Expand(a, span);
    assert span * (rr - d2) == span * (rr - d1) - (2.0 * (a * span) + span * span);
  }

  // The signed root lies between Dot and Dot + SpanSquared, which makes the proportion one of the segment.
  lemma RootRange(a: real, b: real, span: real, in1: real, in2: real, s: real)
    requires span > 0.0 && s >= 0.0 && b == a + span && in1 - in2 == a + b
    requires s * s - a * a == span * in1 && s * s - b * b == span * in2
    ensures in1 > 0.0 >= in2 ==> -s < a < s <= b
    ensures in2 > 0.0 >= in1 ==> a <= -s < b < s
  {
    if in1 > 0.0 >= in2 {
      Positive(span, in1);
      NotPositive(span, in2);
      Leaving(a, b, s);
    } else if in2 > 0.0 >= in1 {
      Positive(span, in2);
      NotPositive(span, in1);
      Entering(a, b, s);
    }
  }

  // A point at signed distance s along the line from the foot of the perpendicular, as the code computes it, is the
  // one at the proportion (s - Dot) / SpanSquared of the segment.
  lemma LinePoint(p1: Point, p2: Point, s: real)
    requires SpanSquared(p1, p2) > 0.0
    ensures var dx, dy := p2.x - p1.x, p2.y - p1.y;
      var dr2, d := SpanSquared(p1, p2), Cross(p1, p2);
      Point((d * dy + dx * s) / dr2, (-d * dx + dy * s) / dr2, 0.0) == Between(p1, p2, (s - Dot(p1, p2)) / dr2)
  {
    var x, y, dx, dy := p1.x, p1.y, p2.x - p1.x, p2.y - p1.y;
    var dr2, d, a := SpanSquared(p1, p2), Cross(p1, p2), Dot(p1, p2);
    CrossForm(x, y, p2.x, p2.y);
    Foot(x, y, dx, dy);
    Foot(y, x, dy, dx);
    LineCoordinate(x, dx, d, dy, a, s, dr2);
    LineCoordinate(y, dy, -d, dx, a, s, dr2);
    hide SpanSquared, Cross, Dot;
  }

  lemma CrossForm(x: real, y: real, x2: real, y2: real)
    ensures x * y2 - x2 * y == x * (y2 - y) - y * (x2 - x)
  {}

  lemma LineCoordinate(x: real, dx: real, d: real, dy: real, a: real, s: real, dr2: real)
    requires dr2 > 0.0 && d * dy == x * dr2 - dx * a
    ensures (d * dy + dx * s) / dr2 == x + ((s - a) / dr2) * dx
  {
    TopForm(d * dy, x * dr2, dx, a, s);
    Share(x, d * dy + dx * s, dx, s - a, dr2);
  }

  lemma TopForm(top: real, first: real, dx: real, a: real, s: real)
    requires top == first - dx * a
    ensures top + dx * s == first + dx * (s - a)
  {}

  lemma Foot(x: real, y: real, dx: real, dy: real)
    ensures (x * dy - y * dx) * dy == x * (dx * dx + dy * dy) - dx * (x * dx + y * dy)
  {}

  lemma Share(x: real, top: real, dx: real, n: real, dr2: real)
    requires dr2 > 0.0 && top == x * dr2 + dx * n
    ensures top / dr2 == x + (n / dr2) * dx
  {
    assert (x + (n / dr2) * dx) * dr2 == x * dr2 + (n / dr2 * dr2) * dx;
  }

  // The square of the distance from the origin of the point at a proportion t.
  lemma NormBetween(p1: Point, p2: Point, t: real)
    ensures NormSquared(Between(p1, p2, t))
         == NormSquared(p1) + 2.0 * (t * Dot(p1, p2)) + t * t * SpanSquared(p1, p2)
  {
    var x, y, dx, dy := p1.x, p1.y, p2.x - p1.x, p2.y - p1.y;
    Expand(x, t * dx);
    Expand(y, t * dy);
    assert x * (t * dx) == t * (x * dx) && y * (t * dy) == t * (y * dy);
    assert (t * dx) * (t * dx) == t * t * (dx * dx) && (t * dy) * (t * dy) == t * t * (dy * dy);
  }

  // The segment crosses the circle.
  ghost predicate Crosses(p1: Point, p2: Point, r: real) { Inside(p1, r) != Inside(p2, r) }

  lemma DiscriminantForm(p1: Point, p2: Point, r: real)
    ensures var a := Dot(p1, p2);
      Discriminant(p1, p2, r) == SpanSquared(p1, p2) * (r * r - NormSquared(p1)) + a * a
  {
    Identities(p1, p2);
    var span, n := SpanSquared(p1, p2), NormSquared(p1);
    assert span * (r * r - n) == r * r * span - n * span;
  }

  lemma Squares(a: real)
    ensures Square(a) >= 0.0 && (a != 0.0 ==> Square(a) > 0.0)
  {
    if a != 0.0 {
      SameSign(a, a, Square(a));
    }
  }

  lemma SameSign(a: real, b: real, product: real)
    requires ((a > 0.0 && b > 0.0) || (a < 0.0 && b < 0.0)) && product == a * b
    ensures product > 0.0
  {}

  function Square(a: real): real { a * a }

  lemma ZeroSpan(p1: Point, p2: Point)
    ensures SpanSquared(p1, p2) >= 0.0
    ensures SpanSquared(p1, p2) == 0.0 ==> NormSquared(p1) == NormSquared(p2)
  {
    var dx, dy := p2.x - p1.x, p2.y - p1.y;
    assert SpanSquared(p1, p2) == Square(dx) + Square(dy);
    Squares(dx);
    Squares(dy);
    hide Square, SpanSquared;
    assert Square(dx) + Square(dy) == 0.0 ==> dx == 0.0 && dy == 0.0;
  }

  lemma PositiveDiscriminant(a: real, span: real, d1: real, d2: real, rr: real)
    requires span > 0.0 && d2 == d1 + 2.0 * a + span && (d1 < rr || d2 < rr)
    ensures span * (rr - d1) + a * a >= 0.0
  {
    Squares(a);
    Squares(a + span);
    RootSquares(a, span, d1, d2, rr, span * (rr - d1) + a * a);
    if d1 < rr {
      NotNegative(span, rr - d1);
    } else {
      NotNegative(span, rr - d2);
    }
  }

  // When the segment crosses the circle, the two points differ and the discriminant is not negative.
  lemma CrossingIsProper(p1: Point, p2: Point, r: real)
    requires Crosses(p1, p2, r)
    ensures SpanSquared(p1, p2) > 0.0 && Discriminant(p1, p2, r) >= 0.0
  {
    ZeroSpan(p1, p2);
    Identities(p1, p2);
    DiscriminantForm(p1, p2, r);
    PositiveDiscriminant(Dot(p1, p2), SpanSquared(p1, p2), NormSquared(p1), NormSquared(p2), r * r);
    hide SpanSquared, Discriminant, Dot, NormSquared;
  }

  // The root with the sign that the code gives it.
  function SignedRoot(sqrt: real -> real, p1: Point, p2: Point, r: real): real {
    var s := sqrt(Discriminant(p1, p2, r));
    if NormSquared(p2) - NormSquared(p1) < 0.0 then -s else s
  }

  // The proportion at which the code places its point.
  ghost function Proportion(sqrt: real -> real, p1: Point, p2: Point, r: real): real
    requires SpanSquared(p1, p2) > 0.0
  {
    (SignedRoot(sqrt, p1, p2, r) - Dot(p1, p2)) / SpanSquared(p1, p2)
  }

  lemma IntersectionIsBetween(sqrt: real -> real, p1: Point, p2: Point, r: real)
    requires SpanSquared(p1, p2) > 0.0
    ensures CircleSegmentIntersection(sqrt, p1, p2, r) == Between(p1, p2, Proportion(sqrt, p1, p2, r))
  {
    var dx, dy, w := p2.x - p1.x, p2.y - p1.y, SignedRoot(sqrt, p1, p2, r);
    var s := sqrt(Discriminant(p1, p2, r));
    var sign := if NormSquared(p2) - NormSquared(p1) < 0.0 then -1.0 else 1.0;
    hide SpanSquared, Cross, Dot, Discriminant, NormSquared, Between;
    Signs(sign, dx, s, w);
    Signs(sign, dy, s, w);
    LinePoint(p1, p2, w);
  }

  lemma Signs(sign: real, d: real, s: real, w: real)
    requires (sign == 1.0 && w == s) || (sign == -1.0 && w == -s)
    ensures sign * d * s == d * w
  {
    assert -1.0 * d == -d;
    assert (-d) * s == d * (-s);
  }

  // What the root satisfies, and where it lies.
  lemma RootFacts(sqrt: real -> real, p1: Point, p2: Point, r: real)
    requires IsSquareRoot(sqrt) && Crosses(p1, p2, r)
    ensures var a, span, s := Dot(p1, p2), SpanSquared(p1, p2), sqrt(Discriminant(p1, p2, r));
      && span > 0.0 && s >= 0.0 && s * s == Discriminant(p1, p2, r)
      && (Inside(p1, r) ==> -s < a < s <= a + span && SignedRoot(sqrt, p1, p2, r) == s)
      && (!Inside(p1, r) ==> a <= -s < a + span < s && SignedRoot(sqrt, p1, p2, r) == -s)
  {
    CrossingIsProper(p1, p2, r);
    Identities(p1, p2);
    DiscriminantForm(p1, p2, r);
    var s := sqrt(Discriminant(p1, p2, r));
    hide SpanSquared, Dot, Discriminant, NormSquared;
    RootSigns(Dot(p1, p2), SpanSquared(p1, p2), NormSquared(p1), NormSquared(p2), r * r, s, s * s);
  }

  lemma RootSigns(a: real, span: real, n1: real, n2: real, rr: real, s: real, disc: real)
    requires span > 0.0 && s >= 0.0 && s * s == disc == span * (rr - n1) + a * a && n2 == n1 + 2.0 * a + span
    ensures n1 < rr && n2 >= rr ==> -s < a < s <= a + span && n2 > n1
    ensures n2 < rr && n1 >= rr ==> a <= -s < a + span < s && n2 < n1
  {
    RootSquares(a, span, n1, n2, rr, disc);
    RootRange(a, a + span, span, rr - n1, rr - n2, s);
  }

  lemma ProportionInRange(sqrt: real -> real, p1: Point, p2: Point, r: real)
    requires IsSquareRoot(sqrt) && Crosses(p1, p2, r) && SpanSquared(p1, p2) > 0.0
    ensures 0.0 <= Proportion(sqrt, p1, p2, r) <= 1.0
    ensures Inside(p1, r) ==> Proportion(sqrt, p1, p2, r) > 0.0
  {
    RootFacts(sqrt, p1, p2, r);
    hide SpanSquared, Dot, Discriminant, NormSquared, SignedRoot, Inside;
    Quotient(SignedRoot(sqrt, p1, p2, r) - Dot(p1, p2), SpanSquared(p1, p2));
  }

  lemma Quotient(n: real, span: real)
    requires span > 0.0 && 0.0 <= n <= span
    ensures 0.0 <= n / span <= 1.0 && (n > 0.0 ==> n / span > 0.0)
  {}

  lemma OnCircleScalars(t: real, a: real, span: real, n: real, rr: real, disc: real)
    requires span > 0.0 && disc == span * (rr - n) + a * a
    ensures var w := t * span + a;
      n + 2.0 * (t * a) + t * t * span == rr <==> w * w == disc
  {
    var w, m := t * span + a, n + 2.0 * (t * a) + t * t * span;
    Expand(a, t * span);
    assert (t * span) * (t * span) == span * (t * t * span) && a * (t * span) == span * (t * a);
    assert span * (m - rr) == span * (2.0 * (t * a) + t * t * span) - span * (rr - n);
    assert w * w - disc == span * (m - rr);
    ZeroFactor(span, m - rr);
  }

  lemma ZeroFactor(a: real, b: real)
    requires a > 0.0
    ensures a * b == 0.0 <==> b == 0.0
  {}

  // A point of the line is on the circle exactly if its signed distance from the foot squares to the discriminant.
  lemma ProportionOnCircle(p1: Point, p2: Point, r: real, t: real, w: real)
    requires SpanSquared(p1, p2) > 0.0 && w == t * SpanSquared(p1, p2) + Dot(p1, p2)
    ensures NormSquared(Between(p1, p2, t)) == r * r <==> w * w == Discriminant(p1, p2, r)
  {
    NormBetween(p1, p2, t);
    DiscriminantForm(p1, p2, r);
    hide SpanSquared, Dot, Discriminant, NormSquared, Between;
    OnCircleScalars(t, Dot(p1, p2), SpanSquared(p1, p2), NormSquared(p1), r * r, Discriminant(p1, p2, r));
  }

  lemma EqualSquares(a: real, b: real)
    requires a * a == b * b
    ensures a == b || a == -b
  {
    Conjugates(a, b);
    if a != b {
      NonZero(a - b, a + b);
    }
  }

  lemma NonZero(a: real, b: real)
    requires a * b == 0.0 && a != 0.0
    ensures b == 0.0
  {}

  lemma Undo(w: real, a: real, span: real)
    requires span > 0.0
    ensures (w - a) / span * span + a == w
  {}

  lemma ProportionSolves(sqrt: real -> real, p1: Point, p2: Point, r: real)
    requires IsSquareRoot(sqrt) && Crosses(p1, p2, r) && SpanSquared(p1, p2) > 0.0
    ensures var w := SignedRoot(sqrt, p1, p2, r);
      && w == Proportion(sqrt, p1, p2, r) * SpanSquared(p1, p2) + Dot(p1, p2)
      && w * w == Discriminant(p1, p2, r)
  {
    hide SpanSquared, Dot, Discriminant, NormSquared, IsSquareRoot, SignedRoot, Inside, Crosses;
    RootFacts(sqrt, p1, p2, r);
    Opposite(sqrt(Discriminant(p1, p2, r)));
    Undo(SignedRoot(sqrt, p1, p2, r), Dot(p1, p2), SpanSquared(p1, p2));
  }

  // The point computed lies on the segment, at the radius.
  lemma IntersectionIsOnBoth(sqrt: real -> real, p1: Point, p2: Point, r: real)
    requires IsSquareRoot(sqrt) && Crosses(p1, p2, r)
    ensures SpanSquared(p1, p2) > 0.0 && Discriminant(p1, p2, r) >= 0.0
    ensures var p := CircleSegmentIntersection(sqrt, p1, p2, r);
      && NormSquared(p) == r * r
      && exists t :: InUnit(t) && p == Between(p1, p2, t)
  {
    hide SpanSquared, Dot, Discriminant, NormSquared, Between, CircleSegmentIntersection, IsSquareRoot, Proportion;
    hide Crosses;
    CrossingIsProper(p1, p2, r);
    IntersectionIsBetween(sqrt, p1, p2, r);
    ProportionInRange(sqrt, p1, p2, r);
    ProportionSolves(sqrt, p1, p2, r);
    ProportionOnCircle(p1, p2, r, Proportion(sqrt, p1, p2, r), SignedRoot(sqrt, p1, p2, r));
    hide SignedRoot;
  }

  lemma OnlyRoot(v: real, a: real, span: real, s: real, w: real)
    requires a <= v <= a + span && Square(v) == Square(s)
    requires (-s < a < s <= a + span && w == s) || (a <= -s < a + span < s && w == -s)
    ensures v == w
  {
    EqualSquares(v, s);
  }

  lemma Within(u: real, span: real, part: real)
    requires InUnit(u) && span > 0.0 && part == u * span
    ensures 0.0 <= part <= span
  {
    NotNegative(u, span);
    NotNegative(1.0 - u, span);
    assert (1.0 - u) * span == span - u * span;
  }

  predicate InUnit(t: real) { 0.0 <= t <= 1.0 }

  // It is the only such point.
  lemma IntersectionIsUnique(sqrt: real -> real, p1: Point, p2: Point, r: real, u: real)
    requires IsSquareRoot(sqrt) && Crosses(p1, p2, r)
    requires InUnit(u) && NormSquared(Between(p1, p2, u)) == r * r
    ensures SpanSquared(p1, p2) > 0.0 && Between(p1, p2, u) == CircleSegmentIntersection(sqrt, p1, p2, r)
  {
    hide SpanSquared, Dot, Discriminant, NormSquared, Between, CircleSegmentIntersection, IsSquareRoot, SignedRoot;
    hide Inside, Crosses;
    RootFacts(sqrt, p1, p2, r);
    IntersectionIsBetween(sqrt, p1, p2, r);
    var s, a, span := sqrt(Discriminant(p1, p2, r)), Dot(p1, p2), SpanSquared(p1, p2);
    var w := SignedRoot(sqrt, p1, p2, r);
    ProportionOnCircle(p1, p2, r, u, u * span + a);
    OnlyProportion(u, a, span, s, w, u * span);
  }

  lemma OnlyProportion(u: real, a: real, span: real, s: real, w: real, part: real)
    requires InUnit(u) && span > 0.0 && part == u * span && Square(part + a) == Square(s)
    requires (-s < a < s <= a + span && w == s) || (a <= -s < a + span < s && w == -s)
    ensures u == (w - a) / span
  {
    hide Square;
    Within(u, span, part);
    OnlyRoot(part + a, a, span, s, w);
    Divide(u, part, span);
  }

  lemma Divide(u: real, n: real, span: real)
    requires span > 0.0 && u * span == n
    ensures n / span == u
  {}

  // --------------------------------------------------------------------------
  // The look-ahead point

  // At least the distance away from the robot, which is at the origin.
  predicate Beyond(p: Point, distance: real) {
    distance <= 0.0 || NormSquared(p) >= distance * distance
  }

  function FirstBeyond(path: seq<Pose>, distance: real): (k: nat)
    ensures k <= |path| && (k < |path| ==> Beyond(path[k].position, distance))
    ensures forall i :: 0 <= i < k ==> !Beyond(path[i].position, distance)
  {
    if path == [] || Beyond(path[0].position, distance) then 0
    else
      var k := FirstBeyond(path[1..], distance);
      assert k < |path[1..]| ==> path[1..][k] == path[k + 1];
      assert forall i :: 0 < i <= k ==> path[i] == path[1..][i - 1];
      1 + k
  }

  function LookAheadPoint(sqrt: real -> real, path: seq<Pose>, distance: real, interpolate: bool): Pose
    requires path != []
  {
    var k := FirstBeyond(path, distance);
    if k == |path| then path[k - 1]
    else if interpolate && k != 0 then
      BoundaryCrosses(path, distance);
      ORIGIN_POSE.(stamp := path[k].stamp,
                   position := CircleSegmentIntersection(sqrt, path[k - 1].position, path[k].position, distance))
    else path[k]
  }

  // The pose found and the one before it are on different sides of the circle, so the intersection is defined.
  lemma BoundaryCrosses(path: seq<Pose>, distance: real)
    requires 0 < FirstBeyond(path, distance) < |path|
    ensures var k := FirstBeyond(path, distance);
      && distance > 0.0
      && Inside(path[k - 1].position, distance) && !Inside(path[k].position, distance)
      && SpanSquared(path[k - 1].position, path[k].position) > 0.0
  {
    var k := FirstBeyond(path, distance);
    CrossingIsProper(path[k - 1].position, path[k].position, distance);
  }

  // That the point is less than the distance away from the robot, in coordinates.
  predicate IsNearer(p: Point, distance: real) { distance > 0.0 && p.x * p.x + p.y * p.y < distance * distance }

  // Pose k is the first one that is not nearer than the distance.
  ghost predicate IsFirstFar(path: seq<Pose>, distance: real, k: nat) {
    && k < |path| && !IsNearer(path[k].position, distance)
    && forall i :: 0 <= i < k ==> IsNearer(path[i].position, distance)
  }

  lemma FirstFarIs(path: seq<Pose>, distance: real, k: nat)
    requires IsFirstFar(path, distance, k)
    ensures FirstBeyond(path, distance) == k
  {
    forall i | 0 <= i < |path|
      ensures IsNearer(path[i].position, distance) == !Beyond(path[i].position, distance)
    {}
    hide IsNearer, Beyond;
  }

  // If all poses are nearer, the last one is taken.
  lemma NoPoseIsFar(sqrt: real -> real, path: seq<Pose>, distance: real, interpolate: bool)
    requires path != [] && forall i :: 0 <= i < |path| ==> IsNearer(path[i].position, distance)
    ensures LookAheadPoint(sqrt, path, distance, interpolate) == path[|path| - 1]
  {
    forall i | 0 <= i < |path|
      ensures !Beyond(path[i].position, distance)
    {}
    hide IsNearer, Beyond, CircleSegmentIntersection;
  }

  // Without interpolation, or if that is the first one of the path, the first pose that is not nearer is taken.
  lemma FirstFarIsTaken(sqrt: real -> real, path: seq<Pose>, distance: real, interpolate: bool, k: nat)
    requires IsFirstFar(path, distance, k) && (!interpolate || k == 0)
    ensures LookAheadPoint(sqrt, path, distance, interpolate) == path[k]
  {
    FirstFarIs(path, distance, k);
  }

  // The point divides the segment in the proportion t, seen from above.
  predicate DividesFlat(p: Point, p1: Point, p2: Point, t: real) {
    p.x == p1.x + t * (p2.x - p1.x) && p.y == p1.y + t * (p2.y - p1.y)
  }

  // The point is on the segment, past its start, seen from above.
  ghost predicate IsOnSegment(p: Point, p1: Point, p2: Point) {
    exists t :: 0.0 < t <= 1.0 && DividesFlat(p, p1, p2, t)
  }

  // With interpolation, the look-ahead point of a path that starts nearer than the look-ahead distance and does not
  // stay nearer is at exactly that distance, on the first segment that leaves the circle, and past that segment's
  // start. It has the stamp of the segment's end and no orientation.
  lemma LookAheadIsExact(sqrt: real -> real, path: seq<Pose>, distance: real, k: nat)
    requires IsSquareRoot(sqrt) && IsFirstFar(path, distance, k) && k > 0
    ensures var pose := LookAheadPoint(sqrt, path, distance, true);
      var p := pose.position;
      && p.x * p.x + p.y * p.y == distance * distance && p.z == 0.0
      && IsOnSegment(p, path[k - 1].position, path[k].position)
      && pose.stamp == path[k].stamp && pose.orientation == (0.0, 0.0, 0.0, 1.0)
  {
    FirstFarIs(path, distance, k);
    LookAheadOnBoth(sqrt, path, distance);
    hide InUnit, CircleSegmentIntersection;
    var p := LookAheadPoint(sqrt, path, distance, true).position;
    var t :| InUnit(t) && t > 0.0 && p == Between(path[k - 1].position, path[k].position, t);
    SegmentPoint(p, path[k - 1].position, path[k].position, t);
  }

  lemma SegmentPoint(p: Point, p1: Point, p2: Point, t: real)
    requires InUnit(t) && t > 0.0 && p == Between(p1, p2, t)
    ensures IsOnSegment(p, p1, p2) && p.z == 0.0
  {
    assert DividesFlat(p, p1, p2, t);
    hide DividesFlat;
  }

  lemma LookAheadOnBoth(sqrt: real -> real, path: seq<Pose>, distance: real)
    requires IsSquareRoot(sqrt) && 0 < FirstBeyond(path, distance) < |path|
    ensures var k := FirstBeyond(path, distance);
      var p := LookAheadPoint(sqrt, path, distance, true).position;
      && NormSquared(p) == distance * distance
      && exists t :: InUnit(t) && t > 0.0 && p == Between(path[k - 1].position, path[k].position, t)
  {
    var k := FirstBeyond(path, distance);
    BoundaryCrosses(path, distance);
    var p1, p2 := path[k - 1].position, path[k].position;
    IntersectionIsOnBoth(sqrt, p1, p2, distance);
    IntersectionIsBetween(sqrt, p1, p2, distance);
    ProportionInRange(sqrt, p1, p2, distance);
    hide SpanSquared, Dot, Discriminant, Between, CircleSegmentIntersection;
  }

  // --------------------------------------------------------------------------
  // The pose at an arc length

  ghost predicate IsHypot(hypot: (real, real) -> real) {
    forall x, y :: hypot(x, y) >= 0.0 && hypot(x, y) * hypot(x, y) == x * x + y * y
  }

  function Distance(hypot: (real, real) -> real, p: Point, q: Point): real { hypot(q.x - p.x, q.y - p.y) }

  // The length of the polyline up to its pose k.
  function PathLength(hypot: (real, real) -> real, path: seq<Pose>, k: nat): real
    requires k == 0 || k < |path|
  {
    if k == 0 then 0.0
    else PathLength(hypot, path, k - 1) + Distance(hypot, path[k - 1].position, path[k].position)
  }

  // One entry for every pose, and one entry for a path without poses.
  ghost predicate AreCumulative(hypot: (real, real) -> real, path: seq<Pose>, lengths: seq<real>) {
    && |lengths| == (if path == [] then 1 else |path|)
    && forall k :: 0 <= k < |lengths| ==> lengths[k] == PathLength(hypot, path, k)
  }

  lemma PathGrows(hypot: (real, real) -> real, path: seq<Pose>)
    ensures PathLength(hypot, path, 0) == 0.0
    ensures forall k :: 0 < k < |path| ==>
      var p, q := path[k - 1].position, path[k].position;
      PathLength(hypot, path, k) == PathLength(hypot, path, k - 1) + hypot(q.x - p.x, q.y - p.y)
  {}

  method CalculateCumulativeDistances(hypot: (real, real) -> real, path: seq<Pose>) returns (lengths: seq<real>)
    ensures AreCumulative(hypot, path, lengths)
    ensures lengths[0] == 0.0 && |lengths| == if path == [] then 1 else |path|
    ensures forall k :: 0 < k < |path| ==>
      var p, q := path[k - 1].position, path[k].position;
      lengths[k] == lengths[k - 1] + hypot(q.x - p.x, q.y - p.y)
  {
    PathGrows(hypot, path);
    hide PathLength;
    lengths := [0.0];
    var i := 1;
    while i < |path|
      invariant |lengths| == i && (i == 1 || i <= |path|)
      invariant forall k :: 0 <= k < i ==> lengths[k] == PathLength(hypot, path, k)
    {
      lengths := lengths + [lengths[i - 1] + Distance(hypot, path[i - 1].position, path[i].position)];
      i := i + 1;
    }
  }

  // The cumulative lengths are sorted, which is what the binary search for a length relies on.
  lemma {:induction false} LengthsAreSorted(hypot: (real, real) -> real, path: seq<Pose>, i: nat, k: nat)
    requires IsHypot(hypot) && i <= k < |path|
    ensures 0.0 <= PathLength(hypot, path, i) <= PathLength(hypot, path, k)
    decreases k
  {
    if i < k {
      LengthsAreSorted(hypot, path, i, k - 1);
    } else if k > 0 {
      LengthsAreSorted(hypot, path, k - 1, k - 1);
    }
  }

  // What std::lower_bound finds in a sorted sequence: the first entry that is not less than the target.
  function LowerBound(lengths: seq<real>, target: real): (k: nat)
    ensures k <= |lengths| && (k < |lengths| ==> lengths[k] >= target)
    ensures forall i :: 0 <= i < k ==> lengths[i] < target
  {
    if lengths == [] || lengths[0] >= target then 0
    else
      var k := LowerBound(lengths[1..], target);
      assert k < |lengths[1..]| ==> lengths[1..][k] == lengths[k + 1];
      assert forall i :: 0 < i <= k ==> lengths[i] == lengths[1..][i - 1];
      1 + k
  }

  function Interpolated(p1: Point, p2: Point, ratio: real): Point {
    Point(p1.x + ratio * (p2.x - p1.x), p1.y + ratio * (p2.y - p1.y), p1.z + ratio * (p2.z - p1.z))
  }

  function FindPoseAtDistance(path: seq<Pose>, lengths: seq<real>, target: real): Pose
    requires path != [] ==> |lengths| <= |path|
  {
    if path == [] || lengths == [] then ORIGIN_POSE
    else if target <= 0.0 then path[0]
    else if target >= lengths[|lengths| - 1] then path[|path| - 1]
    else
      var k := LowerBound(lengths, target);
      if k == 0 then path[0]
      else
        var ratio := (target - lengths[k - 1]) / (lengths[k] - lengths[k - 1]);
        path[k].(position := Interpolated(path[k - 1].position, path[k].position, ratio))
  }

  lemma EqualRoots(a: real, b: real)
    requires a >= 0.0 && b >= 0.0 && a * a == b * b
    ensures a == b
  {
    EqualSquares(a, b);
  }

  lemma ScaledSquares(t: real, x: real, y: real, h: real)
    requires h * h == x * x + y * y
    ensures (t * h) * (t * h) == (t * x) * (t * x) + (t * y) * (t * y)
  {
    assert (t * h) * (t * h) == (t * t) * (h * h);
    assert (t * x) * (t * x) == (t * t) * (x * x) && (t * y) * (t * y) == (t * t) * (y * y);
  }

  lemma HypotScales(hypot: (real, real) -> real, t: real, x: real, y: real)
    requires IsHypot(hypot) && t >= 0.0
    ensures hypot(t * x, t * y) == t * hypot(x, y)
  {
    var h, scaled := hypot(x, y), hypot(t * x, t * y);
    assert h >= 0.0 && h * h == x * x + y * y;
    assert scaled >= 0.0 && scaled * scaled == (t * x) * (t * x) + (t * y) * (t * y);
    hide IsHypot;
    ScaledSquares(t, x, y, h);
    NotNegative(t, h);
    EqualRoots(scaled, t * h);
  }

  lemma Shares(a: real, b: real, t: real)
    ensures (a + t * (b - a)) - a == t * (b - a) && b - (a + t * (b - a)) == (1.0 - t) * (b - a)
  {}

  // A point at a proportion of a segment is at that proportion of its length from the start, the rest from the end.
  lemma DistancesOnSegment(hypot: (real, real) -> real, p1: Point, p2: Point, t: real)
    requires IsHypot(hypot) && 0.0 <= t <= 1.0
    ensures var p, length := Interpolated(p1, p2, t), Distance(hypot, p1, p2);
      Distance(hypot, p1, p) == t * length && Distance(hypot, p, p2) == (1.0 - t) * length
  {
    hide IsHypot;
    var p, dx, dy := Interpolated(p1, p2, t), p2.x - p1.x, p2.y - p1.y;
    Shares(p1.x, p2.x, t);
    Shares(p1.y, p2.y, t);
    SameDistance(hypot, p1, p, t, dx, dy);
    SameDistance(hypot, p, p2, 1.0 - t, dx, dy);
  }

  lemma SameDistance(hypot: (real, real) -> real, p: Point, q: Point, t: real, dx: real, dy: real)
    requires IsHypot(hypot) && t >= 0.0 && q.x - p.x == t * dx && q.y - p.y == t * dy
    ensures Distance(hypot, p, q) == t * hypot(dx, dy)
  {
    HypotScales(hypot, t, dx, dy);
  }

  lemma RatioOf(n: real, length: real)
    requires 0.0 < n <= length
    ensures 0.0 < n / length <= 1.0
    ensures (n / length) * length == n && (1.0 - n / length) * length == length - n
  {}

  // Between the ends of the path, the pose found is on the segment where the length is reached: the way along the
  // polyline to it is exactly the target, and the way from it to the end of the segment is what remains.
  lemma ArcLengthIsExact(hypot: (real, real) -> real, path: seq<Pose>, lengths: seq<real>, target: real)
    requires IsHypot(hypot) && path != [] && AreCumulative(hypot, path, lengths)
    requires 0.0 < target < lengths[|lengths| - 1]
    ensures var k, pose := LowerBound(lengths, target), FindPoseAtDistance(path, lengths, target);
      && 0 < k < |path| && PathLength(hypot, path, k - 1) < target <= PathLength(hypot, path, k)
      && PathLength(hypot, path, k - 1) + Distance(hypot, path[k - 1].position, pose.position) == target
      && target + Distance(hypot, pose.position, path[k].position) == PathLength(hypot, path, k)
      && pose.stamp == path[k].stamp && pose.orientation == path[k].orientation
      && IsOnLine(pose.position, path[k - 1].position, path[k].position)
  {
    hide IsHypot, Distance, Interpolated, IsOnLine;
    var k := LowerBound(lengths, target);
    assert lengths[0] == PathLength(hypot, path, 0) == 0.0;
    assert k < |path|;
    assert lengths[k - 1] == PathLength(hypot, path, k - 1) && lengths[k] == PathLength(hypot, path, k);
    hide PathLength, AreCumulative;
    InterpolatedIsExact(hypot, path[k - 1].position, path[k].position, lengths[k - 1], lengths[k], target);
  }

  // The point is on the segment, in space.
  ghost predicate IsOnLine(p: Point, p1: Point, p2: Point) {
    exists t :: 0.0 <= t <= 1.0 && DividesFlat(p, p1, p2, t) && p.z == p1.z + t * (p2.z - p1.z)
  }

  lemma InterpolatedIsOnLine(p1: Point, p2: Point, t: real)
    requires 0.0 <= t <= 1.0
    ensures IsOnLine(Interpolated(p1, p2, t), p1, p2)
  {
    assert DividesFlat(Interpolated(p1, p2, t), p1, p2, t);
  }

  lemma InterpolatedIsExact(hypot: (real, real) -> real, p1: Point, p2: Point, start: real, end: real, target: real)
    requires IsHypot(hypot) && start < target <= end && end - start == Distance(hypot, p1, p2)
    ensures var p := Interpolated(p1, p2, (target - start) / (end - start));
      && start + Distance(hypot, p1, p) == target && target + Distance(hypot, p, p2) == end
      && IsOnLine(p, p1, p2)
  {
    hide IsHypot, Distance, Interpolated, IsOnLine;
    RatioOf(target - start, end - start);
    InterpolatedIsOnLine(p1, p2, (target - start) / (end - start));
    DistancesOnSegment(hypot, p1, p2, (target - start) / (end - start));
  }

  // Outside that range, the pose found is an end of the path; without a path, it is the default one.
  lemma ArcLengthIsClamped(hypot: (real, real) -> real, path: seq<Pose>, lengths: seq<real>, target: real)
    requires IsHypot(hypot) && AreCumulative(hypot, path, lengths)
    ensures path == [] ==>
      FindPoseAtDistance(path, lengths, target) == Pose(0.0, Point(0.0, 0.0, 0.0), (0.0, 0.0, 0.0, 1.0))
    ensures path != [] && target <= 0.0 ==> FindPoseAtDistance(path, lengths, target) == path[0]
    ensures path != [] && target > 0.0 && target >= PathLength(hypot, path, |path| - 1)
        ==> FindPoseAtDistance(path, lengths, target) == path[|path| - 1]
  {
    assert path != [] ==> lengths[|path| - 1] == PathLength(hypot, path, |path| - 1);
  }
}
