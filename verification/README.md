# Clinician safety monitor: zone classification and alert latch

A Dafny model of the decision logic of the clinician safety monitor, a
polling script. Each cycle it fetches every tracked clinician's position and
assigned safety zone as GeoJSON features. It decides whether the position is
strictly inside the zone, and it sends one alert email when a clinician
leaves the zone. It sends no further alert until the clinician has come back
inside and left again.

The model has four parts:

- `Classifier` (`classifier.dfy`) models `on_edge` and `in_zone`. The edge
  test for one edge is `OnSegment`: the cross product is within the
  tolerance, and the dot product lies in `[-1e-12, squared length + 1e-12]`.
  `OnBoundary` holds when some consecutive edge passes that test. `Crossings`
  counts the edges that straddle the point's y-coordinate and meet its
  horizontal line to the right of the point. `Classify` returns the
  three-way result: `Boundary`, else `Inside` for an odd count, else
  `Outside`. The methods `OnEdge` and `InZone` are the source's loops,
  proved equal to these functions. Coordinates are exact `real`s. The
  tolerance `1e-12` is the constant `Tolerance`.
- `ClassifierLemmas` (`classifier_lemmas.dfy`) holds the properties of the
  classifier. Every vertex of a ring with at least two vertices is on the
  boundary, and so is every point of an edge. A boundary point is never inside. Straddling edges are never
  horizontal, and horizontal edges never cross. A ring with fewer than two
  vertices is outside everywhere. Reversing a ring's winding direction
  changes no classification. The unit-square scenarios are proved too.
- `Zone` (`zone.dfy`) models the feature-selection block of the polling
  loop. It takes the first Point feature's coordinates and the first Polygon
  feature's outer ring. It converts the positions to points and closes an
  open ring by appending its first vertex. Every way the block can fail
  becomes "skip this clinician" (`None`).
- `Latch` (`latch.dfy`) and `Monitor` (`monitor.dfy`) model the `alerted`
  set and the body of the polling loop. `AlertLatch.Observe` is the
  add/discard update. `Cycle` is one clinician's turn. `Round` is one pass
  over the tracked ids. The alert email becomes a returned flag, or the
  ordered list of alerted ids.

Three behaviours of the code that a reader might not expect; the model
keeps each of them:

- Zero-length edges are not excluded from the span test. An edge whose two endpoints are equal has cross product, dot
  product and squared length all 0, so it passes the test for every point.
  A zone ring with two equal consecutive vertices therefore classifies
  every point as on the boundary. The model keeps this behaviour, and
  `ZeroLengthEdgeCapturesEveryPoint` states it.
- The classifier does not close the ring. The polling loop does
  (`main.py:104-106`), and `in_zone` takes whatever ring it is given. The
  model closes the ring in `Zone`.
- Nothing requires at least three distinct vertices. The code checks only
  that the outer ring is non-empty, and so does the model. A one-vertex
  ring is accepted, and `ShortRingIsOutside` shows that every point is
  then outside.

## Model

| member | source | states |
|---|---|---|
| `Classifier.OnEdge` | main.py:21-32 | returns true exactly when some edge i < len - 1 has abs(cross) <= 1e-12, dot >= -1e-12 and dot - squared length <= 1e-12 (the body returns at the first such edge; the contract states only the result) |
| `Classifier.InZone` | main.py:39-54 | returns true exactly when the point is on no edge and an odd number of edges straddle its y-coordinate and meet its horizontal line to its right; equivalently, when `Classify` gives `Inside` |
| `Classifier.Crossings` | main.py:46-52 | the number of parity flips over the first k edges is 0 exactly when none of those edges straddles the point's y-coordinate to its right |
| `ClassifierLemmas.EndpointsOnSegment` | main.py:27-30 | both endpoints of any edge pass the edge test, including a zero-length edge |
| `ClassifierLemmas.VertexOnBoundary` | main.py:18-31 | every vertex of a ring with at least one edge is reported on the boundary, including the last one |
| `ClassifierLemmas.PointOnEdgeIsBoundary` | main.py:27-31 | a point a + t(b - a) with 0 <= t <= 1 on any edge classifies as on the boundary |
| `ClassifierLemmas.ZeroLengthEdgeCapturesEveryPoint` | main.py:27-31 | a ring holding two equal consecutive vertices classifies every point as on the boundary |
| `ClassifierLemmas.BoundaryNeverInside` | main.py:37-41 | a point on some edge is never classified inside |
| `ClassifierLemmas.StraddlingEdgeIsNotHorizontal` | main.py:50-51 | an edge passing the straddle test has y2 - y1 != 0, so the division in the crossing test is defined |
| `ClassifierLemmas.HorizontalEdgeNeverCrosses` | main.py:50 | an edge with y1 == y2 never flips the parity flag |
| `ClassifierLemmas.ShortRingIsOutside` | main.py:39-54 | a ring of fewer than two vertices has no boundary point and no crossing, so every point is outside |
| `ClassifierLemmas.OnSegmentSymmetric` | main.py:27-30 | the edge test gives the same answer for an edge walked from a to b and from b to a |
| `ClassifierLemmas.CrossesSymmetric` | main.py:50-51 | the crossing test gives the same answer for an edge walked in either direction |
| `ClassifierLemmas.OnBoundaryReverse` | main.py:21-32 | a point is on the boundary of a ring exactly when it is on the boundary of the reversed ring |
| `ClassifierLemmas.ClassifyReverse` | main.py:35-54 | a ring and its reversal (clockwise versus counter-clockwise) classify every point alike |
| `ClassifierLemmas.UnitSquareCentreIsInside` | main.py:39-54 | (0.5, 0.5) is inside the closed unit square |
| `ClassifierLemmas.UnitSquareSidePointIsBoundary` | main.py:39-41 | (0, 0.5) is on the boundary of the closed unit square |
| `ClassifierLemmas.UnitSquareFarPointIsOutside` | main.py:39-54 | (1.5, 0.5) is outside the closed unit square |
| `Zone.FirstPointCoordinatesIsFirst` | main.py:96-98 | the selected coordinates are absent exactly when no feature is a Point; otherwise they belong to a Point feature with no Point before it |
| `Zone.FirstPolygonRingsIsFirst` | main.py:99-100 | the selected rings are absent exactly when no feature is a Polygon; otherwise they belong to a Polygon feature with no Polygon before it |
| `Zone.ToZone` | main.py:104 | the zone has one point per position of the outer ring |
| `Zone.Close` | main.py:105-106 | the result is closed (first vertex equals last); it is at most one vertex longer; it keeps the ring as a prefix; a ring already closed is returned unchanged |
| `Zone.CloseIdempotent` | main.py:105-106 | closing twice gives the same ring as closing once |
| `Zone.ClosePreClosed` | main.py:104-106 | an open ring and the same ring closed by hand become the same zone |
| `Zone.Select` | main.py:93-106 | a snapshot is produced exactly when there is a first Point with at least two coordinates and a first Polygon with a non-empty outer ring whose positions all have two entries; its point is the first two coordinates and its zone is the outer ring's points closed by `Close` (so closed); no Point or no Polygon means skip |
| `Zone.SelectSnapshot` | main.py:93-106 | the loop over the features, the conversion and the closing compute exactly `Select`, skipping on every indexing failure |
| `Latch.Step` | main.py:110-116 | an alert is requested exactly when the clinician is not inside and not yet latched; afterwards the clinician is latched exactly when not inside; no other clinician's membership changes |
| `Latch.AlertLatch.constructor` | main.py:84 | the latch starts empty |
| `Latch.AlertLatch.Observe` | main.py:110-116 | not inside and not latched: the id is added and an alert is requested; not inside and latched: nothing changes; inside: the id is removed and no alert is requested |
| `Latch.ReplayAlertsAtExcursionStarts` | main.py:110-116 | over successive cycles, an alert is requested exactly at the cycles where the clinician is outside after being inside (or starts outside unlatched); the clinician ends latched exactly when last seen outside |
| `Latch.AtMostOneAlertPerExcursion` | main.py:80-82 | between any two alerts for one clinician, the clinician was seen inside at least once |
| `Latch.RepeatedOutsideAlertsOnce` | main.py:110-116 | outside, outside, inside from unlatched gives alerts true, false, false and ends unlatched |
| `Latch.ReentryRearmsAlert` | main.py:110-116 | outside, inside, outside from unlatched gives two alerts |
| `Monitor.CycleOutcome` | main.py:88-116 | one cycle changes only the clinician's own membership; it alerts exactly when it newly latches; a missing payload or snapshot changes nothing; otherwise the clinician ends latched exactly when not classified inside |
| `Monitor.Cycle` | main.py:88-116 | the loop body (selection, `in_zone`, latch update) computes exactly `CycleOutcome` on the latch |
| `Monitor.Sweep` | main.py:87-116 | a pass alerts only tracked ids, and leaves untracked ids' membership as it was |
| `Monitor.Round` | main.py:87-116 | the `for` loop over the tracked ids computes exactly `Sweep`: the new latch and the alerted ids in order |
| `Monitor.SweepAlertsNewlyLatched` | main.py:87-116 | over distinct ids, a pass alerts exactly the ids it newly latches |
| `Monitor.CycleOutcomeOwnMembership` | main.py:110-116 | a clinician's cycle reads the latch only through that clinician's own membership |
| `Monitor.SweepLastCycleFrames` | main.py:87-116 | the last cycle of a pass leaves every other clinician's membership and alert as the earlier cycles left them |
| `Monitor.SweepLastClinician` | main.py:87-116 | over distinct ids, the last clinician ends latched and alerted exactly as its own cycle leaves it from the latch before the pass |
| `Monitor.SweepActsPerClinician` | main.py:87-116 | over distinct ids, every clinician ends latched, and is alerted, exactly as its own cycle would leave it from the latch before the pass |
| `Monitor.SkippedCycleKeepsLatch` | main.py:88-102 | no payload, or a feature list without a Point or without a Polygon, leaves the latch unchanged and sends no alert |

## Left out

- `alert` (main.py:57-68), the SMTP email, is not modelled. An alert is the
  `notify` flag of `Observe` and `Cycle`, or the id appended to the list
  that `Round` returns. The model assumes every alert returns normally. In
  the code the call at main.py:113 is outside the `try` of main.py:92-108,
  so a failed send (connection refused, the 10-second timeout, a failed
  login or send) ends `main`. The id has already been latched at
  main.py:112, the remaining ids of that pass are never visited, and
  monitoring stops for every clinician. `Round`, `Sweep` and
  `SweepActsPerClinician` describe a pass in which every alert succeeds.
- `get_clinician` (main.py:72-78), the HTTP request and JSON decoding, is
  not modelled. The payload is a parameter. `None` stands for a failed
  request, an empty response, or a response without a feature list.
- The `while True` loop and `time.sleep(INTERVAL)` are scheduling only.
  `Round` is one iteration of the loop, without the sleep.
- The configuration constants (API address, SMTP settings, `INTERVAL`) are
  not modelled. The list of tracked ids is a parameter of `Round`.
- Malformed JSON is not modelled: wrong value types, a missing `geometry`
  or `type` key, non-numeric coordinates. The model keeps only the indexing
  failures that a well-typed feature list can still hit, and those skip the
  clinician as the `except` clause does.
- Floating-point rounding is not modelled. Coordinates are exact reals, so
  the tolerance only matters where the source compares against it. Nor is
  float overflow: `** 2` at main.py:30 raises `OverflowError` for very
  large coordinates. `in_zone` is called at main.py:110, outside the
  `try`, so in the code that error would also end `main`. The model's
  squared length never fails.
- The classifier is not proved to put every interior point of a general
  convex polygon inside. That is proved only for the unit-square examples.
