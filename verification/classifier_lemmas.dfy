/**
 * Properties of the boundary classifier: what the edge test accepts, what
 * the parity test can and cannot count, robustness to the ring's winding
 * direction, and the unit-square scenarios.
 */
module ClassifierLemmas {
  import opened Classifier

  /** The edge test accepts both endpoints of every edge, zero-length or not. */
  lemma EndpointsOnSegment(a: Point, b: Point)
    ensures OnSegment(a, a, b)
    ensures OnSegment(b, a, b)
  {
    var dx, dy := b.x - a.x, b.y - a.y;
    assert dx * dx >= 0.0 && dy * dy >= 0.0;
    assert Cross(b, a, b) == dx * dy - dy * dx == 0.0;
    assert Dot(b, a, b) == SquaredLength(a, b);
  }

  lemma NonNegativeProduct(u: real, v: real)
    requires u >= 0.0 && v >= 0.0
    ensures u * v >= 0.0
  {
  }

  /** Every vertex of a ring with at least one edge lies on its boundary. */
  lemma VertexOnBoundary(ring: seq<Point>, i: nat)
    requires |ring| >= 2 && i < |ring|
    ensures OnBoundary(ring[i], ring)
    ensures Classify(ring[i], ring) == Boundary
  {
    if i < |ring| - 1 {
      EndpointsOnSegment(ring[i], ring[i + 1]);
      assert OnEdgeAt(ring[i], ring, i);
    } else {
      EndpointsOnSegment(ring[i - 1], ring[i]);
      assert OnEdgeAt(ring[i], ring, i - 1);
    }
  }

  /**
   * A point exactly on an edge, p = a + t (b - a) with 0 <= t <= 1, passes
   * the edge test whatever the tolerance: its cross product is 0 and its dot
   * product is t times the squared length.
   */
  lemma PointOnEdgeIsBoundary(p: Point, ring: seq<Point>, i: nat, t: real)
    requires i < EdgeCount(ring)
    requires 0.0 <= t <= 1.0
    requires p.x == ring[i].x + t * (ring[i + 1].x - ring[i].x)
    requires p.y == ring[i].y + t * (ring[i + 1].y - ring[i].y)
    ensures Classify(p, ring) == Boundary
  {
    var a, b := ring[i], ring[i + 1];
    var dx, dy := b.x - a.x, b.y - a.y;
    var len := SquaredLength(a, b);
    assert len == dx * dx + dy * dy;
    assert p.x - a.x == t * dx && p.y - a.y == t * dy;
    assert (t * dx) * dy == t * (dx * dy) == (t * dy) * dx;
    assert Cross(p, a, b) == 0.0;
    assert Dot(p, a, b) == (t * dx) * dx + (t * dy) * dy == t * len;
    assert dx * dx >= 0.0 && dy * dy >= 0.0;
    assert len >= 0.0;
    NonNegativeProduct(t, len);
    NonNegativeProduct(1.0 - t, len);
    assert t * len - len == -((1.0 - t) * len);
    assert OnEdgeAt(p, ring, i);
  }

  /**
   * A zero-length edge (two equal consecutive vertices) passes the edge test
   * for every point: its cross product, dot product and squared length are
   * all 0. Any ring holding one classifies every point as on the boundary.
   */
  lemma ZeroLengthEdgeCapturesEveryPoint(p: Point, ring: seq<Point>, i: nat)
    requires i < EdgeCount(ring)
    requires ring[i] == ring[i + 1]
    ensures Classify(p, ring) == Boundary
  {
    assert OnEdgeAt(p, ring, i);
  }

  /** A point on the boundary is never reported inside. */
  lemma BoundaryNeverInside(p: Point, ring: seq<Point>)
    ensures OnBoundary(p, ring) ==> Classify(p, ring) != Inside
  {
  }

  /** The straddle test excludes horizontal edges, so the division in `Crosses` is always defined. */
  lemma StraddlingEdgeIsNotHorizontal(p: Point, a: Point, b: Point)
    requires Straddles(p, a, b)
    ensures b.y - a.y != 0.0
  {
  }

  /** A horizontal edge never flips the parity flag. */
  lemma HorizontalEdgeNeverCrosses(p: Point, a: Point, b: Point)
    requires a.y == b.y
    ensures !Crosses(p, a, b)
  {
  }

  /** A ring with fewer than two vertices has no edge: no boundary and no crossing. */
  lemma ShortRingIsOutside(p: Point, ring: seq<Point>)
    requires |ring| < 2
    ensures !OnBoundary(p, ring)
    ensures Crossings(p, ring, EdgeCount(ring)) == 0
    ensures Classify(p, ring) == Outside
  {
  }

  // ---------------------------------------------------------------------
  // Winding direction

  function Reverse(ring: seq<Point>): (r: seq<Point>)
    ensures |r| == |ring|
    ensures forall i :: 0 <= i < |ring| ==> r[i] == ring[|ring| - 1 - i]
  {
    seq(|ring|, i requires 0 <= i < |ring| => ring[|ring| - 1 - i])
  }

  /** The edge test does not depend on which way the edge is walked. */
  lemma OnSegmentSymmetric(p: Point, a: Point, b: Point)
    ensures OnSegment(p, a, b) <==> OnSegment(p, b, a)
  {
    var dx, dy := b.x - a.x, b.y - a.y;
    var ux, uy := p.x - a.x, p.y - a.y;
    assert SquaredLength(b, a) == SquaredLength(a, b) == dx * dx + dy * dy;
    assert Cross(p, a, b) == ux * dy - uy * dx;
    assert Cross(p, b, a) == (ux - dx) * (-dy) - (uy - dy) * (-dx) == -(ux * dy - uy * dx);
    assert Dot(p, a, b) == ux * dx + uy * dy;
    assert Dot(p, b, a) == (ux - dx) * (-dx) + (uy - dy) * (-dy)
                        == SquaredLength(a, b) - Dot(p, a, b);
  }

  /** The crossing test does not depend on which way the edge is walked. */
  lemma CrossesSymmetric(p: Point, a: Point, b: Point)
    ensures Crosses(p, a, b) <==> Crosses(p, b, a)
  {
    if Straddles(p, a, b) {
      var d := b.y - a.y;
      var slope := (b.x - a.x) / d;
      assert (a.x - b.x) / (a.y - b.y) == slope;
      assert d * slope == b.x - a.x;
      assert a.x + (p.y - a.y) * slope == b.x + (p.y - b.y) * slope;
      assert CrossingX(p, a, b) == CrossingX(p, b, a);
    }
  }

  /** Boundary membership is the same for a ring and its reversal. */
  lemma OnBoundaryReverse(p: Point, ring: seq<Point>)
    ensures OnBoundary(p, Reverse(ring)) <==> OnBoundary(p, ring)
  {
    var r, n := Reverse(ring), |ring|;
    if OnBoundary(p, ring) {
      var i: nat :| i < EdgeCount(ring) && OnEdgeAt(p, ring, i);
      OnSegmentSymmetric(p, ring[i], ring[i + 1]);
      assert OnEdgeAt(p, r, n - 2 - i);
    }
    if OnBoundary(p, r) {
      var i: nat :| i < EdgeCount(r) && OnEdgeAt(p, r, i);
      OnSegmentSymmetric(p, r[i], r[i + 1]);
      assert OnEdgeAt(p, ring, n - 2 - i);
    }
  }

  /** The crossings among edges lo .. hi - 1 of a ring. */
  function CrossingsBetween(p: Point, ring: seq<Point>, lo: nat, hi: nat): nat
    requires lo <= hi <= EdgeCount(ring)
    decreases hi - lo
  {
    if lo == hi then 0
    else (if CrossesAt(p, ring, lo) then 1 else 0) + CrossingsBetween(p, ring, lo + 1, hi)
  }

  /** Counting from the front agrees with counting the first k edges. */
  lemma {:induction false} CrossingsBetweenSplit(p: Point, ring: seq<Point>, lo: nat, hi: nat)
    requires lo <= hi <= EdgeCount(ring)
    ensures Crossings(p, ring, hi) == Crossings(p, ring, lo) + CrossingsBetween(p, ring, lo, hi)
    decreases hi - lo
  {
    if lo < hi {
      CrossingsBetweenSplit(p, ring, lo + 1, hi);
    }
  }

  /** The first k edges of the reversed ring are the last k edges of the ring, walked backwards. */
  lemma {:induction false} CrossingsReversePrefix(p: Point, ring: seq<Point>, k: nat)
    requires k <= EdgeCount(ring)
    ensures Crossings(p, Reverse(ring), k)
         == CrossingsBetween(p, ring, EdgeCount(ring) - k, EdgeCount(ring))
  {
    if k > 0 {
      var r, e := Reverse(ring), EdgeCount(ring);
      CrossingsReversePrefix(p, ring, k - 1);
      CrossesSymmetric(p, ring[e - k], ring[e - k + 1]);
      assert r[k - 1] == ring[e - k + 1] && r[k] == ring[e - k];
      assert CrossesAt(p, r, k - 1) == CrossesAt(p, ring, e - k);
    }
  }

  /**
   * Ray casting is robust to winding direction: a clockwise ring and the
   * same ring walked counter-clockwise classify every point alike.
   */
  lemma ClassifyReverse(p: Point, ring: seq<Point>)
    ensures Classify(p, Reverse(ring)) == Classify(p, ring)
  {
    OnBoundaryReverse(p, ring);
    CrossingsReversePrefix(p, ring, EdgeCount(ring));
    CrossingsBetweenSplit(p, ring, 0, EdgeCount(ring));
  }

  // ---------------------------------------------------------------------
  // The unit square [(0,0), (0,1), (1,1), (1,0), (0,0)]

  function UnitSquare(): (ring: seq<Point>)
    ensures |ring| == 5 && ring[0] == ring[4]
  {
    [Point(0.0, 0.0), Point(0.0, 1.0), Point(1.0, 1.0), Point(1.0, 0.0), Point(0.0, 0.0)]
  }

  /** Off the boundary, the parity of the crossing count alone decides. */
  lemma ClassifyOffBoundary(p: Point, ring: seq<Point>, n: nat)
    requires !OnBoundary(p, ring) && n == Crossings(p, ring, EdgeCount(ring))
    ensures Classify(p, ring) == if n % 2 == 1 then Inside else Outside
  {
  }

  /** (0.5, 0.5) is inside: no edge passes the edge test, and only the side (1,1)-(1,0) crosses its ray. */
  lemma UnitSquareCentreIsInside()
    ensures Classify(Point(0.5, 0.5), UnitSquare()) == Inside
  {
    UnitSquareCentreOffBoundary();
    assert Crossings(Point(0.5, 0.5), UnitSquare(), EdgeCount(UnitSquare())) == 1;
    ClassifyOffBoundary(Point(0.5, 0.5), UnitSquare(), 1);
  }

  lemma UnitSquareCentreOffBoundary()
    ensures !OnBoundary(Point(0.5, 0.5), UnitSquare())
  {
    forall i: nat | i < EdgeCount(UnitSquare())
      ensures !OnEdgeAt(Point(0.5, 0.5), UnitSquare(), i)
    {
      assert i == 0 || i == 1 || i == 2 || i == 3;
      assert Cross(Point(0.5, 0.5), UnitSquare()[i], UnitSquare()[i + 1]) == 0.5;
    }
  }

  /** (0, 0.5) lies on the left-hand side (0,0)-(0,1). */
  lemma UnitSquareSidePointIsBoundary()
    ensures Classify(Point(0.0, 0.5), UnitSquare()) == Boundary
  {
    PointOnEdgeIsBoundary(Point(0.0, 0.5), UnitSquare(), 0, 0.5);
  }

  /** (1.5, 0.5) is outside: no edge passes the edge test and no edge crosses its ray. */
  lemma UnitSquareFarPointIsOutside()
    ensures Classify(Point(1.5, 0.5), UnitSquare()) == Outside
  {
    UnitSquareFarPointOffBoundary();
    assert Crossings(Point(1.5, 0.5), UnitSquare(), EdgeCount(UnitSquare())) == 0;
    ClassifyOffBoundary(Point(1.5, 0.5), UnitSquare(), 0);
  }

  lemma UnitSquareFarPointOffBoundary()
    ensures !OnBoundary(Point(1.5, 0.5), UnitSquare())
  {
    forall i: nat | i < EdgeCount(UnitSquare())
      ensures !OnEdgeAt(Point(1.5, 0.5), UnitSquare(), i)
    {
      assert i == 0 || i == 1 || i == 2 || i == 3;
    }
  }
}
