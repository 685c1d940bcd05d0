// The route-drawing layer (frontend/src/components/RoutePlanner.jsx): its own
// copy of the water classifier, the click handler that appends a waypoint only
// on water, and the normalisation of a compass bearing into [0, 360).
module RoutePlanner {

  import opened IceGrid
  import opened Water

  /** This component's `isPointOnWater`. It is false outside the box. Inside
      the box, with all three arrays present, a grid cell within 0.3 degrees
      makes the point water. Otherwise the point is water iff it lies in a
      waterway circle or within 1 degree of a lake centre. */
  function PlannerOnWater(data: Option<IceData>, p: Point): (onWater: bool)
    ensures !InGreatLakesArea(p) ==> !onWater
    ensures onWater && !(data.Some? && data.value.HasArrays()) ==>
      NearWaterway(p, Waterways) || NearLakeCenter(p, LakeCenters)
  {
    if !InGreatLakesArea(p) then false
    else if data.Some? && data.value.HasArrays() && NearbyData(data.value.lats.value, data.value.lons.value, p) then true
    else NearWaterway(p, Waterways) || NearLakeCenter(p, LakeCenters)
  }

  /** `isPointOnWater`: the box test, the nearby search with the
      `foundNearbyData` flag, then the waterway and lake-centre loops. */
  method IsPointOnWater(data: Option<IceData>, p: Point) returns (onWater: bool)
    ensures onWater == PlannerOnWater(data, p)
  {
    if !InGreatLakesArea(p) {
      return false;
    }
    var foundNearbyData := false;
    if data.Some? && data.value.HasArrays() {
      var search := SearchNearby(data.value.lats.value, Some(data.value.lons.value), p);
      foundNearbyData := search == Found;
    }
    if foundNearbyData {
      return true;
    }
    onWater := SearchWaterways(p, Waterways);
    if onWater {
      return;
    }
    onWater := SearchLakeCenters(p, LakeCenters);
  }

  /** Grid data can only turn land into water, never water into land. */
  lemma GridDataOnlyAddsWater(data: Option<IceData>, p: Point)
    ensures PlannerOnWater(None, p) ==> PlannerOnWater(data, p)
  {
  }

  /** Every lake centre and every waterway centre is water, whatever the day. */
  lemma CentresAreWater(data: Option<IceData>)
    ensures forall k | 0 <= k < |LakeCenters| :: PlannerOnWater(data, LakeCenters[k])
    ensures forall k | 0 <= k < |Waterways| :: PlannerOnWater(data, Waterways[k].center)
  {
    forall k | 0 <= k < |LakeCenters|
      ensures PlannerOnWater(data, LakeCenters[k])
    {
      LakeCentersNearThemselves(k);
    }
    forall k | 0 <= k < |Waterways|
      ensures PlannerOnWater(data, Waterways[k].center)
    {
      WaterwayCentersNearThemselves(k);
    }
  }

  /** JavaScript `x % 360` on numbers: the remainder of the quotient truncated
      toward zero, so it takes the sign of `x`. */
  function JsRem360(x: real): (r: real)
    ensures x >= 0.0 ==> 0.0 <= r < 360.0
    ensures x < 0.0 ==> -360.0 < r <= 0.0
  {
    var q := x / 360.0;
    var t := if q >= 0.0 then q.Floor else -((-q).Floor);
    x - t as real * 360.0
  }

  /** `(bearing + 360) % 360`. */
  function NormalizeBearing(bearing: real): (b: real)
  {
    JsRem360(bearing + 360.0)
  }

  /** For an `atan2` angle in [-180, 180] the normalised bearing lies in [0, 360):
      a negative angle is turned by a full circle, any other is kept. */
  lemma NormalizedBearingInRange(bearing: real)
    requires -180.0 <= bearing <= 180.0
    ensures 0.0 <= NormalizeBearing(bearing) < 360.0
    ensures NormalizeBearing(bearing) == if bearing < 0.0 then bearing + 360.0 else bearing
  {
    var x := bearing + 360.0;
    var q := x / 360.0;
    if bearing < 0.0 {
      assert q < 1.0;
      assert q.Floor == 0;
    } else {
      assert 1.0 <= q < 2.0;
      assert q.Floor == 1;
    }
  }

  /** What a map click does. */
  datatype ClickOutcome =
    | Ignored                        // not visible or not drawing
    | Appended                       // the point joined the route
    | LandReported(at: Point)        // reported to the land-point handler
    | LandAlert                      // no handler: the `alert` fallback

  /** The click rule: nothing unless the layer is visible and drawing; a point
      off water is reported, to the handler when there is one; a point on water
      is appended. */
  function ClickResult(visible: bool, isDrawing: bool, data: Option<IceData>, p: Point, hasLandHandler: bool): (o: ClickOutcome)
    ensures o == Appended <==> visible && isDrawing && PlannerOnWater(data, p)
    ensures o.LandReported? ==> o.at == p && hasLandHandler
    ensures visible && isDrawing && !PlannerOnWater(data, p) ==>
      o == (if hasLandHandler then LandReported(p) else LandAlert)
    ensures o == Ignored <==> !(visible && isDrawing)
  {
    if !(visible && isDrawing) then Ignored
    else if !PlannerOnWater(data, p) then (if hasLandHandler then LandReported(p) else LandAlert)
    else Appended
  }

  /** The `routePoints` state the planner appends to. */
  class Route {
    var points: seq<Point>

    /** Every waypoint lies in the Great Lakes box: the classifier never accepts
        a point outside it. */
    predicate Valid()
      reads this
    {
      forall i | 0 <= i < |points| :: InGreatLakesArea(points[i])
    }

    constructor()
      ensures points == [] && Valid()
    {
      points := [];
    }

    /** The `click` handler: `setRoutePoints(prev => [...prev, [lat, lng]])`
        exactly for an accepted click; otherwise the route is untouched. */
    method Click(visible: bool, isDrawing: bool, data: Option<IceData>, p: Point, hasLandHandler: bool)
      returns (outcome: ClickOutcome)
      requires Valid()
      modifies this
      ensures Valid()
      ensures outcome == ClickResult(visible, isDrawing, data, p, hasLandHandler)
      ensures outcome == Appended ==> points == old(points) + [p]
      ensures outcome != Appended ==> points == old(points)
    {
      if !(visible && isDrawing) {
        return Ignored;
      }
      var onWater := IsPointOnWater(data, p);
      if !onWater {
        outcome := if hasLandHandler then LandReported(p) else LandAlert;
        return;
      }
      points := points + [p];
      outcome := Appended;
    }
  }
}
