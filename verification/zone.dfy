/**
 * Turning a fetched GeoJSON feature list into the point and zone ring that
 * the classifier is given: the first Point feature's coordinates, the first
 * Polygon feature's outer ring, and the ring closed by appending its first
 * vertex when it is open. Anything missing or too short means the entity is
 * skipped this cycle.
 */
module Zone {
  import opened Wrappers
  import opened Classifier

  /** A GeoJSON position: longitude, latitude and possibly further entries. */
  type Position = seq<real>

  /** A feature of the status payload, told apart by its geometry's "type". */
  datatype Feature =
    | PointFeature(coordinates: Position)
    | PolygonFeature(rings: seq<seq<Position>>)
    | OtherFeature

  /** The position and closed zone ring one cycle classifies. */
  datatype Snapshot = Snapshot(point: Point, zone: seq<Point>)

  /** The coordinates of the first Point feature, if there is one. */
  function FirstPointCoordinates(features: seq<Feature>): Option<Position> {
    if |features| == 0 then None
    else
      var earlier := FirstPointCoordinates(features[..|features| - 1]);
      var last := features[|features| - 1];
      if earlier.Some? then earlier
      else if last.PointFeature? then Some(last.coordinates)
      else None
  }

  /** The rings of the first Polygon feature, if there is one. */
  function FirstPolygonRings(features: seq<Feature>): Option<seq<seq<Position>>> {
    if |features| == 0 then None
    else
      var earlier := FirstPolygonRings(features[..|features| - 1]);
      var last := features[|features| - 1];
      if earlier.Some? then earlier
      else if last.PolygonFeature? then Some(last.rings)
      else None
  }

  /** Every position has at least a longitude and a latitude. */
  predicate PlanarPositions(ring: seq<Position>) {
    forall i :: 0 <= i < |ring| ==> |ring[i]| >= 2
  }

  function ToPoint(position: Position): Point
    requires |position| >= 2
  {
    Point(position[0], position[1])
  }

  /** The ring's positions as points, any entries after the second dropped. */
  function ToZone(ring: seq<Position>): (zone: seq<Point>)
    requires PlanarPositions(ring)
    ensures |zone| == |ring|
  {
    seq(|ring|, i requires 0 <= i < |ring| && PlanarPositions(ring) => ToPoint(ring[i]))
  }

  /** The ring's first and last vertex coincide. */
  predicate IsClosed(zone: seq<Point>) {
    |zone| > 0 && zone[0] == zone[|zone| - 1]
  }

  /** Closes an open ring by appending its first vertex. */
  function Close(zone: seq<Point>): (closed: seq<Point>)
    requires |zone| > 0
    ensures IsClosed(closed)
    ensures |zone| <= |closed| <= |zone| + 1
    ensures closed[..|zone|] == zone
    ensures IsClosed(zone) ==> closed == zone
  {
    if zone[0] != zone[|zone| - 1] then zone + [zone[0]] else zone
  }

  /**
   * The snapshot of a feature list, or None when the entity is skipped: no
   * Point or no Polygon feature, empty coordinates, fewer than two
   * coordinates, a first Polygon without rings, an empty outer ring, or a
   * position with fewer than two entries.
   */
  function Select(features: seq<Feature>): (r: Option<Snapshot>)
    ensures r.Some? <==>
              && FirstPointCoordinates(features).Some?
              && |FirstPointCoordinates(features).value| >= 2
              && FirstPolygonRings(features).Some?
              && |FirstPolygonRings(features).value| > 0
              && |FirstPolygonRings(features).value[0]| > 0
              && PlanarPositions(FirstPolygonRings(features).value[0])
    ensures r.Some? ==> exists coordinates, rings ::
              && FirstPointCoordinates(features) == Some(coordinates)
              && FirstPolygonRings(features) == Some(rings)
              && |coordinates| >= 2 && r.value.point == Point(coordinates[0], coordinates[1])
              && |rings| > 0 && |rings[0]| > 0 && PlanarPositions(rings[0])
              && r.value.zone == Close(ToZone(rings[0]))
    ensures r.Some? ==> IsClosed(r.value.zone)
    ensures FirstPointCoordinates(features).None? || FirstPolygonRings(features).None? ==> r.None?
  {
    match (FirstPointCoordinates(features), FirstPolygonRings(features))
    case (Some(coordinates), Some(rings)) =>
      if |coordinates| < 2 || |rings| == 0 || |rings[0]| == 0 || !PlanarPositions(rings[0]) then None
      else Some(Snapshot(ToPoint(coordinates), Close(ToZone(rings[0]))))
    case _ => None
  }

  /**
   * The feature-selection block of the polling loop: scans the features
   * keeping the first Point's coordinates and the first Polygon's outer
   * ring, converts the ring to points and appends the first vertex when the
   * ring is open.
   */
  method SelectSnapshot(features: seq<Feature>) returns (snapshot: Option<Snapshot>)
    ensures snapshot == Select(features)
  {
    var coordinates: Option<Position> := None;
    var polygon: Option<seq<Position>> := None;
    var i := 0;
    while i < |features|
      invariant 0 <= i <= |features|
      invariant coordinates == FirstPointCoordinates(features[..i])
      invariant FirstPolygonRings(features[..i]).None? <==> polygon.None?
      invariant FirstPolygonRings(features[..i]).Some? ==>
                  |FirstPolygonRings(features[..i]).value| > 0
                  && polygon == Some(FirstPolygonRings(features[..i]).value[0])
    {
      assert features[..i + 1][..i] == features[..i];
      var f := features[i];
      if f.PointFeature? && coordinates.None? {
        coordinates := Some(f.coordinates);
      }
      if f.PolygonFeature? && polygon.None? {
        if |f.rings| == 0 {
          // indexing the missing outer ring fails, and the entity is skipped
          assert FirstPolygonRings(features[..i + 1]) == Some(f.rings);
          FirstPolygonRingsOfPrefix(features, i + 1);
          return None;
        }
        polygon := Some(f.rings[0]);
      }
      i := i + 1;
    }
    assert features[..i] == features;
    if coordinates.None? || |coordinates.value| == 0 || polygon.None? || |polygon.value| == 0 {
      return None;
    }
    var position := coordinates.value;
    if |position| < 2 {
      return None;
    }
    var point := Point(position[0], position[1]);
    var ring := polygon.value;
    var zone: seq<Point> := [];
    var j := 0;
    while j < |ring|
      invariant 0 <= j <= |ring|
      invariant PlanarPositions(ring[..j])
      invariant zone == ToZone(ring[..j])
    {
      if |ring[j]| < 2 {
        return None;
      }
      assert ring[..j + 1] == ring[..j] + [ring[j]];
      zone := zone + [Point(ring[j][0], ring[j][1])];
      j := j + 1;
    }
    assert ring[..j] == ring;
    if zone[0] != zone[|zone| - 1] {
      zone := zone + [zone[0]];
    }
    snapshot := Some(Snapshot(point, zone));
  }

  /** The first Point feature: none exists, or the one found has no Point before it. */
  lemma {:induction false} FirstPointCoordinatesIsFirst(features: seq<Feature>)
    ensures FirstPointCoordinates(features).None? <==>
              forall i :: 0 <= i < |features| ==> !features[i].PointFeature?
    ensures FirstPointCoordinates(features).Some? ==>
              exists i :: 0 <= i < |features|
                && features[i] == PointFeature(FirstPointCoordinates(features).value)
                && forall j :: 0 <= j < i ==> !features[j].PointFeature?
  {
    if |features| > 0 {
      var front := features[..|features| - 1];
      FirstPointCoordinatesIsFirst(front);
      assert forall i :: 0 <= i < |front| ==> front[i] == features[i];
      if FirstPointCoordinates(front).Some? {
        var i :| 0 <= i < |front| && front[i] == PointFeature(FirstPointCoordinates(front).value)
                 && forall j :: 0 <= j < i ==> !front[j].PointFeature?;
        assert features[i] == PointFeature(FirstPointCoordinates(features).value);
      }
    }
  }

  /** The first Polygon feature: none exists, or the one found has no Polygon before it. */
  lemma {:induction false} FirstPolygonRingsIsFirst(features: seq<Feature>)
    ensures FirstPolygonRings(features).None? <==>
              forall i :: 0 <= i < |features| ==> !features[i].PolygonFeature?
    ensures FirstPolygonRings(features).Some? ==>
              exists i :: 0 <= i < |features|
                && features[i] == PolygonFeature(FirstPolygonRings(features).value)
                && forall j :: 0 <= j < i ==> !features[j].PolygonFeature?
  {
    if |features| > 0 {
      var front := features[..|features| - 1];
      FirstPolygonRingsIsFirst(front);
      assert forall i :: 0 <= i < |front| ==> front[i] == features[i];
      if FirstPolygonRings(front).Some? {
        var i :| 0 <= i < |front| && front[i] == PolygonFeature(FirstPolygonRings(front).value)
                 && forall j :: 0 <= j < i ==> !front[j].PolygonFeature?;
        assert features[i] == PolygonFeature(FirstPolygonRings(features).value);
      }
    }
  }

  /** Once a prefix has a first Polygon, the whole list has the same one. */
  lemma {:induction false} FirstPolygonRingsOfPrefix(features: seq<Feature>, k: nat)
    requires k <= |features|
    requires FirstPolygonRings(features[..k]).Some?
    ensures FirstPolygonRings(features) == FirstPolygonRings(features[..k])
    decreases |features| - k
  {
    if k < |features| {
      assert features[..k + 1][..k] == features[..k];
      FirstPolygonRingsOfPrefix(features, k + 1);
    } else {
      assert features[..k] == features;
    }
  }

  /** Closing a closed ring changes nothing, so closing twice is closing once. */
  lemma CloseIdempotent(zone: seq<Point>)
    requires |zone| > 0
    ensures Close(Close(zone)) == Close(zone)
  {
  }

  /** An open ring and the same ring closed by hand become the same zone. */
  lemma ClosePreClosed(zone: seq<Point>)
    requires |zone| > 0 && !IsClosed(zone)
    ensures Close(zone + [zone[0]]) == Close(zone)
  {
  }
}
