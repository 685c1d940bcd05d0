// The pieces the two water classifiers share: `isPointOnWater` is written out
// twice, in frontend/src/components/RoutePlanner.jsx and in
// frontend/src/components/RoutePlannerControls.jsx, over the same bounding
// box, the same seven waterway circles, the same five lake centres and the same
// every-10th-cell search for nearby grid coordinates.
module Water {

  import opened IceGrid

  /** `GREAT_LAKES_BOUNDS`, a closed box: lat in [41, 49], lon in [-93, -75]. */
  predicate InGreatLakesArea(p: Point)
  {
    41.0 <= p.lat <= 49.0 && -93.0 <= p.lon <= -75.0
  }

  /** A waterway zone: a centre and a radius in degrees. */
  datatype Circle = Circle(center: Point, radius: real)

  /** `LAKE_CENTERS`: Superior, Huron, Ontario, Erie, Michigan. */
  const LakeCenters: seq<Point> := [
    Point(46.5, -87.0),
    Point(44.7, -82.4),
    Point(43.7, -79.4),
    Point(42.2, -81.2),
    Point(44.0, -87.0)]

  /** A point strictly within 1 degree of a lake centre counts as water. */
  const LakeRadius: real := 1.0

  /** `WATERWAYS`: St. Mary's River, the Straits of Mackinac, the Detroit River,
      the St. Clair River, the Welland Canal, and the wider St. Mary's and
      Detroit corridors. */
  const Waterways: seq<Circle> := [
    Circle(Point(46.5063, -84.3475), 0.15),
    Circle(Point(45.8174, -84.7278), 0.12),
    Circle(Point(42.3188, -83.0458), 0.08),
    Circle(Point(42.8, -82.5), 0.08),
    Circle(Point(43.0594, -79.2036), 0.06),
    Circle(Point(46.55, -84.4), 0.2),
    Circle(Point(42.3, -83.0), 0.15)]

  /** The nearby-data search looks at every 10th cell ... */
  const SearchStride: nat := 10

  /** ... for one strictly closer than 0.3 degrees. */
  const SearchRadius: real := 0.3

  /** `dist < radius` with `dist` the Euclidean distance in degrees; for a
      positive radius this is the squared distance below the squared radius. */
  predicate InsideCircle(p: Point, c: Circle)
  {
    SqDist(p, c.center) < c.radius * c.radius
  }

  predicate NearWaterway(p: Point, ways: seq<Circle>)
  {
    exists k | 0 <= k < |ways| :: InsideCircle(p, ways[k])
  }

  predicate NearLakeCenter(p: Point, centers: seq<Point>)
  {
    exists k | 0 <= k < |centers| :: SqDist(p, centers[k]) < LakeRadius * LakeRadius
  }

  /** Index `j` is visited by the nearby search and has a latitude. */
  predicate Probed(lats: seq<Sample>, j: int)
  {
    0 <= j < |lats| && j % SearchStride == 0 && lats[j].Some?
  }

  /** Probed index `j` also has a longitude and lies within the search radius. */
  predicate NearbyCell(lats: seq<Sample>, lons: seq<Sample>, p: Point, j: int)
  {
    Probed(lats, j) && At(lons, j).Some?
    && SqDist(Point(lats[j].value, At(lons, j).value), p) < SearchRadius * SearchRadius
  }

  predicate NearbyData(lats: seq<Sample>, lons: seq<Sample>, p: Point)
  {
    exists j | 0 <= j < |lats| :: NearbyCell(lats, lons, p, j)
  }

  /** How the nearby search ends: it finds a cell, runs out of cells, or reads
      a longitude from a missing longitude array. */
  datatype Search = Found | NotFound | Throws

  /** The outcome of the nearby search. With the longitude array present it
      finds a cell exactly when one is near. Without it, the first probed
      latitude makes the read `lons[i]` throw; with no probed latitude the loop
      ends without finding anything. */
  function NearbySearch(lats: seq<Sample>, lons: Option<seq<Sample>>, p: Point): (s: Search)
  {
    if lons.None? then
      if exists j | 0 <= j < |lats| :: Probed(lats, j) then Throws else NotFound
    else if NearbyData(lats, lons.value, p) then Found
    else NotFound
  }

  lemma MultipleOfSearchStride(m: nat)
    ensures (SearchStride * m) % SearchStride == 0
  {
  }

  lemma OffSearchStride(i: nat, j: nat)
    requires i % SearchStride == 0 && i < j < i + SearchStride
    ensures j % SearchStride != 0
  {
    assert j == i + (j - i) && 0 < j - i < SearchStride;
  }

  /** The loop `for (i = 0; i < lats.length; i += 10)`: skip a cell whose
      latitude or longitude is null, stop at the first one within 0.3 degrees. */
  method SearchNearby(lats: seq<Sample>, lons: Option<seq<Sample>>, p: Point) returns (s: Search)
    ensures s == NearbySearch(lats, lons, p)
    ensures lons.Some? ==> s != Throws
  {
    var i := 0;
    ghost var m := 0;
    while i < |lats|
      invariant i == SearchStride * m
      invariant forall j | 0 <= j < i ::
        !Probed(lats, j) || (lons.Some? && !NearbyCell(lats, lons.value, p, j))
    {
      MultipleOfSearchStride(m);
      if lats[i].Some? {
        if lons.None? {
          assert Probed(lats, i);
          return Throws;
        }
        var lon := At(lons.value, i);
        if lon.Some? && SqDist(Point(lats[i].value, lon.value), p) < SearchRadius * SearchRadius {
          assert NearbyCell(lats, lons.value, p, i);
          return Found;
        }
      }
      forall j | i < j < i + SearchStride
        ensures !Probed(lats, j)
      {
        OffSearchStride(i, j);
      }
      i := i + SearchStride;
      m := m + 1;
    }
    s := NotFound;
  }

  /** The waterway loop: true at the first circle the point lies strictly inside. */
  method SearchWaterways(p: Point, ways: seq<Circle>) returns (hit: bool)
    ensures hit <==> NearWaterway(p, ways)
  {
    for k := 0 to |ways|
      invariant forall j | 0 <= j < k :: !InsideCircle(p, ways[j])
    {
      if SqDist(p, ways[k].center) < ways[k].radius * ways[k].radius {
        return true;
      }
    }
    return false;
  }

  /** The lake-centre loop: true at the first centre strictly within 1 degree. */
  method SearchLakeCenters(p: Point, centers: seq<Point>) returns (hit: bool)
    ensures hit <==> NearLakeCenter(p, centers)
  {
    for k := 0 to |centers|
      invariant forall j | 0 <= j < k :: SqDist(p, centers[j]) >= LakeRadius * LakeRadius
    {
      if SqDist(p, centers[k]) < LakeRadius * LakeRadius {
        return true;
      }
    }
    return false;
  }

  /** Every lake centre lies inside the box and counts as near a lake centre. */
  lemma LakeCentersNearThemselves(k: nat)
    requires k < |LakeCenters|
    ensures InGreatLakesArea(LakeCenters[k])
    ensures NearLakeCenter(LakeCenters[k], LakeCenters)
  {
    assert SqDist(LakeCenters[k], LakeCenters[k]) == 0.0;
  }

  /** Every waterway centre lies inside the box and inside its own circle. */
  lemma WaterwayCentersNearThemselves(k: nat)
    requires k < |Waterways|
    ensures InGreatLakesArea(Waterways[k].center)
    ensures NearWaterway(Waterways[k].center, Waterways)
  {
    assert SqDist(Waterways[k].center, Waterways[k].center) == 0.0;
    assert InsideCircle(Waterways[k].center, Waterways[k]);
  }
}
