/**
 * The boundary classifier of the clinician safety monitor: whether a point
 * lies on an edge of a zone's vertex ring (`on_edge`), and whether it lies
 * strictly inside the ring by even-odd ray casting (`in_zone`).
 *
 * Coordinates are exact reals; the source's absolute tolerance of 1e-12 is
 * kept as the named constant `Tolerance`, and floating-point rounding is
 * not modelled.
 */
module Classifier {

  /** A position; longitude and latitude are treated as plane coordinates. */
  datatype Point = Point(x: real, y: real)

  /** The fixed absolute tolerance of the edge test. */
  const Tolerance: real := 1e-12

  /**
   * The three-way outcome of classifying a point against a ring. The source
   * keeps `Boundary` apart from `Inside` by testing edges first, and then
   * collapses `Boundary` into "not inside".
   */
  datatype Classification = Boundary | Inside | Outside

  function Abs(r: real): (a: real)
    ensures a >= 0.0
    ensures a == r || a == -r
  {
    if r < 0.0 then -r else r
  }

  /** Cross product of (p - a) and (b - a): zero exactly when p, a, b are collinear. */
  function Cross(p: Point, a: Point, b: Point): real {
    (p.x - a.x) * (b.y - a.y) - (p.y - a.y) * (b.x - a.x)
  }

  /** Dot product of (p - a) and (b - a): where p projects along the edge from a to b. */
  function Dot(p: Point, a: Point, b: Point): real {
    (p.x - a.x) * (b.x - a.x) + (p.y - a.y) * (b.y - a.y)
  }

  function SquaredLength(a: Point, b: Point): real {
    (b.x - a.x) * (b.x - a.x) + (b.y - a.y) * (b.y - a.y)
  }

  /**
   * The edge test of `on_edge` for one edge: collinear within the tolerance,
   * and projecting into the span [0, squared length] widened by the tolerance.
   */
  predicate OnSegment(p: Point, a: Point, b: Point) {
    && Abs(Cross(p, a, b)) <= Tolerance
    && Dot(p, a, b) >= -Tolerance
    && Dot(p, a, b) - SquaredLength(a, b) <= Tolerance
  }

  /** The number of consecutive edges (ring[i], ring[i + 1]) of a ring. */
  function EdgeCount(ring: seq<Point>): nat {
    if |ring| == 0 then 0 else |ring| - 1
  }

  predicate OnEdgeAt(p: Point, ring: seq<Point>, i: nat)
    requires i < EdgeCount(ring)
  {
    OnSegment(p, ring[i], ring[i + 1])
  }

  /** Some consecutive edge of the ring passes the edge test. */
  predicate OnBoundary(p: Point, ring: seq<Point>) {
    exists i: nat :: i < EdgeCount(ring) && OnEdgeAt(p, ring, i)
  }

  /** One endpoint strictly above the point's y-coordinate and the other not. */
  predicate Straddles(p: Point, a: Point, b: Point) {
    (a.y > p.y) != (b.y > p.y)
  }

  /**
   * The edge from a to b flips the parity flag: it straddles the horizontal
   * line through p and meets it strictly to the right of p. The division is
   * well defined because a straddling edge is never horizontal.
   */
  predicate Crosses(p: Point, a: Point, b: Point) {
    Straddles(p, a, b) && CrossingX(p, a, b) > p.x
  }

  /** Where the line through a and b meets the horizontal line through p. */
  function CrossingX(p: Point, a: Point, b: Point): real
    requires a.y != b.y
  {
    a.x + (p.y - a.y) * (b.x - a.x) / (b.y - a.y)
  }

  predicate CrossesAt(p: Point, ring: seq<Point>, i: nat)
    requires i < EdgeCount(ring)
  {
    Crosses(p, ring[i], ring[i + 1])
  }

  /** How many of the first k edges of the ring flip the parity flag. */
  function Crossings(p: Point, ring: seq<Point>, k: nat): (n: nat)
    requires k <= EdgeCount(ring)
    ensures n == 0 <==> forall i: nat :: i < k ==> !CrossesAt(p, ring, i)
  {
    if k == 0 then 0
    else Crossings(p, ring, k - 1) + (if CrossesAt(p, ring, k - 1) then 1 else 0)
  }

  /**
   * The classification the source computes: a boundary point first, then an
   * odd number of crossings for inside and an even number for outside.
   */
  function Classify(p: Point, ring: seq<Point>): Classification {
    if OnBoundary(p, ring) then Boundary
    else if Crossings(p, ring, EdgeCount(ring)) % 2 == 1 then Inside
    else Outside
  }

  /** Counting one more crossing flips the parity; counting none keeps it. */
  lemma ParityStep(n: nat, flips: bool)
    ensures ((n + if flips then 1 else 0) % 2 == 1) <==> (if flips then n % 2 != 1 else n % 2 == 1)
  {
  }

  /** `on_edge`: scans the edges in order and stops at the first that passes the edge test. */
  method OnEdge(p: Point, ring: seq<Point>) returns (found: bool)
    ensures found <==> OnBoundary(p, ring)
  {
    var i := 0;
    while i < |ring| - 1
      invariant 0 <= i <= EdgeCount(ring)
      invariant forall j: nat :: j < i ==> !OnEdgeAt(p, ring, j)
    {
      var a, b := ring[i], ring[i + 1];
      var cross := Cross(p, a, b);
      var dot := Dot(p, a, b);
      if Abs(cross) <= Tolerance && dot >= -Tolerance && dot - SquaredLength(a, b) <= Tolerance {
        assert OnEdgeAt(p, ring, i);
        return true;
      }
      i := i + 1;
    }
    return false;
  }

  /**
   * `in_zone`: false for a boundary point; otherwise toggles a flag for every
   * edge that crosses the rightward ray from the point.
   */
  method InZone(p: Point, ring: seq<Point>) returns (inside: bool)
    ensures inside <==> Classify(p, ring) == Inside
    ensures inside <==> !OnBoundary(p, ring) && Crossings(p, ring, EdgeCount(ring)) % 2 == 1
  {
    var boundary := OnEdge(p, ring);
    if boundary {
      return false;
    }
    inside := false;
    var i := 0;
    while i < |ring| - 1
      invariant 0 <= i <= EdgeCount(ring)
      invariant inside <==> Crossings(p, ring, i) % 2 == 1
    {
      var a, b := ring[i], ring[i + 1];
      ghost var flips := CrossesAt(p, ring, i);
      if (a.y > p.y) != (b.y > p.y) {
        if CrossingX(p, a, b) > p.x {
          inside := !inside;
        }
      }
      ParityStep(Crossings(p, ring, i), flips);
      i := i + 1;
    }
  }
}
