// The route panel (frontend/src/components/RoutePlannerControls.jsx): its water
// classifier, the route analysis (six samples per leg, the ice statistics, the
// severity level, the route length) and the gate in front of the export dialog.
module RoutePlannerControls {

  import opened IceGrid
  import opened Water
  import opened SampledLookup
  import RoutePlanner

  /** How this component's `isPointOnWater` ends: true, false, or a TypeError
      from reading through a missing coordinate array. */
  datatype WaterCheck = IsWater | IsLand | TypeError

  /** This component's `isPointOnWater`. It is land outside the box. Inside the
      box, when the day's data is there at all: water when `getIceAtPoint` is
      not `null` (a concentration, or `undefined` past the end of a short
      concentration array, at any distance). Then `lats.length` throws without
      latitudes, and the every-10th search may throw without longitudes or find
      a cell within 0.3 degrees. Last come the waterway circles and the lake
      centres. */
  function ControlsWaterCheck(data: Option<IceData>, p: Point): (w: WaterCheck)
    ensures !InGreatLakesArea(p) ==> w == IsLand
    ensures w == TypeError ==> data.Some? && (data.value.lats.None? || data.value.lons.None?)
    ensures data.None? ==>
      (w == IsWater <==> InGreatLakesArea(p) && (NearWaterway(p, Waterways) || NearLakeCenter(p, LakeCenters)))
  {
    if !InGreatLakesArea(p) then IsLand
    else if data.Some? && IceAtPoint(data, p) != Null then IsWater
    else if data.Some? && data.value.lats.None? then TypeError
    else if data.Some? && NearbySearch(data.value.lats.value, data.value.lons, p) == Throws then TypeError
    else if data.Some? && NearbySearch(data.value.lats.value, data.value.lons, p) == Found then IsWater
    else if NearWaterway(p, Waterways) || NearLakeCenter(p, LakeCenters) then IsWater
    else IsLand
  }

  /** `isPointOnWater`, step by step with its early returns. */
  method IsPointOnWater(data: Option<IceData>, p: Point) returns (w: WaterCheck)
    ensures w == ControlsWaterCheck(data, p)
  {
    if !InGreatLakesArea(p) {
      return IsLand;
    }
    if data.Some? {
      var iceValue := GetIceAtPoint(data, p.lat, p.lon);
      if iceValue != Null {
        return IsWater;
      }
      if data.value.lats.None? {
        return TypeError;
      }
      var search := SearchNearby(data.value.lats.value, data.value.lons, p);
      if search == Throws {
        return TypeError;
      }
      if search == Found {
        return IsWater;
      }
    }
    var nearWaterway := SearchWaterways(p, Waterways);
    if nearWaterway {
      return IsWater;
    }
    var nearLake := SearchLakeCenters(p, LakeCenters);
    w := if nearLake then IsWater else IsLand;
  }

  /** The nearest-sample rule has no distance limit: on a grid whose sampled
      cells all carry a concentration, every point of the box is water. */
  lemma FullGridFloodsBox(d: IceData, p: Point, j: nat)
    requires d.HasArrays() && Candidate(d.lats.value, d.lons.value, j)
    requires forall k | Candidate(d.lats.value, d.lons.value, k) :: At(d.ice.value, k).Some?
    requires InGreatLakesArea(p)
    ensures ControlsWaterCheck(Some(d), p) == IsWater
  {
    var k := ClosestSample(d.lats.value, d.lons.value, p);
    assert k.Some? && Candidate(d.lats.value, d.lons.value, k.value);
  }

  /** A point the drawing layer accepts also passes this classifier, provided
      the day's data, when there is any, has both coordinate arrays. */
  lemma PlannerWaterIsControlsWater(data: Option<IceData>, p: Point)
    requires data.None? || (data.value.lats.Some? && data.value.lons.Some?)
    requires RoutePlanner.PlannerOnWater(data, p)
    ensures ControlsWaterCheck(data, p) == IsWater
  {
    if data.Some? && data.value.HasArrays() && IceAtPoint(data, p) == Null
      && NearbyData(data.value.lats.value, data.value.lons.value, p) {
      assert NearbySearch(data.value.lats.value, data.value.lons, p) == Found;
    }
  }

  /** The two copies disagree on a day that has latitudes but no longitudes:
      a lake centre is water for the drawing layer, while this classifier throws. */
  lemma MissingLongitudesThrow()
    ensures var d := IceData(None, Some([Some(45.0)]), None, None, None);
      RoutePlanner.PlannerOnWater(Some(d), LakeCenters[0])
      && ControlsWaterCheck(Some(d), LakeCenters[0]) == TypeError
  {
    var d := IceData(None, Some([Some(45.0)]), None, None, None);
    LakeCentersNearThemselves(0);
    assert Probed(d.lats.value, 0);
  }

  /** The same happens on a day with neither coordinate array: `getIceAtPoint`
      gives `null`, and then `lats.length` throws. */
  lemma MissingCoordinatesThrow()
    ensures var d := IceData(Some([Some(5.0)]), None, None, None, None);
      RoutePlanner.PlannerOnWater(Some(d), LakeCenters[0])
      && ControlsWaterCheck(Some(d), LakeCenters[0]) == TypeError
  {
    LakeCentersNearThemselves(0);
  }

  /** A concentration array shorter than the coordinate arrays: the closest
      candidate indexes past its end, `getIceAtPoint` returns `undefined`, which
      is not `null`, so the point is water although it has no reading. */
  lemma UndefinedReadIsWater()
    ensures var d := IceData(Some([]), Some([Some(46.0)]), Some([Some(-85.0)]), None, None);
      var p := Point(45.0, -85.0);
      SampledIce(Some(d), p).None? && IceAtPoint(Some(d), p) == Undefined
      && ControlsWaterCheck(Some(d), p) == IsWater
  {
    var d := IceData(Some([]), Some([Some(46.0)]), Some([Some(-85.0)]), None, None);
    assert Candidate(d.lats.value, d.lons.value, 0);
  }

  // ---------------------------------------------------------------------
  // Route sampling

  /** `lat1 + (lat2 - lat1) * t`, and the same for the longitude. */
  function Lerp(a: Point, b: Point, t: real): Point
  {
    Point(a.lat + (b.lat - a.lat) * t, a.lon + (b.lon - a.lon) * t)
  }

  /** The six samples of one leg, at t = 0, 1/5, ..., 1: the leg's first sample
      is its start waypoint and its last sample its end waypoint. */
  function LegSamples(a: Point, b: Point): (s: seq<Point>)
    ensures |s| == 6 && s[0] == a && s[5] == b
  {
    seq(6, j requires 0 <= j < 6 => Lerp(a, b, j as real / 5.0))
  }

  /** All samples of the route, leg after leg. */
  function RouteSamples(pts: seq<Point>): (s: seq<Point>)
    ensures |pts| < 2 ==> s == []
    ensures |pts| >= 2 ==> |s| == 6 * (|pts| - 1)
    decreases |pts|
  {
    if |pts| < 2 then []
    else RouteSamples(pts[..|pts| - 1]) + LegSamples(pts[|pts| - 2], pts[|pts| - 1])
  }

  /** Sample 6i + j lies on leg i at t = j/5; in particular samples 6i and
      6i + 5 are waypoints i and i + 1. */
  lemma {:induction false} RouteSampleOnLeg(pts: seq<Point>, i: nat, j: nat)
    requires i + 1 < |pts| && j < 6
    ensures 6 * i + j < |RouteSamples(pts)|
    ensures RouteSamples(pts)[6 * i + j] == Lerp(pts[i], pts[i + 1], j as real / 5.0)
    ensures j == 0 ==> RouteSamples(pts)[6 * i + j] == pts[i]
    ensures j == 5 ==> RouteSamples(pts)[6 * i + j] == pts[i + 1]
    decreases |pts|
  {
    var init := pts[..|pts| - 1];
    if i + 2 < |pts| {
      RouteSampleOnLeg(init, i, j);
      assert init[i] == pts[i] && init[i + 1] == pts[i + 1];
    } else {
      assert RouteSamples(pts)[6 * i + j] == LegSamples(pts[i], pts[i + 1])[j];
    }
  }

  /** The nested sampling loops of `routeAnalysis`. */
  method SampleRoute(pts: seq<Point>) returns (samples: seq<Point>)
    requires |pts| >= 2
    ensures samples == RouteSamples(pts)
  {
    samples := [];
    for i := 0 to |pts| - 1
      invariant samples == RouteSamples(pts[..i + 1])
    {
      var a, b := pts[i], pts[i + 1];
      for j := 0 to 6
        invariant samples == RouteSamples(pts[..i + 1]) + LegSamples(a, b)[..j]
      {
        var t := j as real / 5.0;
        var sample := Point(a.lat + (b.lat - a.lat) * t, a.lon + (b.lon - a.lon) * t);
        assert LegSamples(a, b)[j] == Lerp(a, b, t);
        assert Lerp(a, b, t) == sample;
        assert LegSamples(a, b)[..j + 1] == LegSamples(a, b)[..j] + [sample];
        samples := samples + [sample];
      }
      assert LegSamples(a, b)[..6] == LegSamples(a, b);
      assert pts[..i + 2][..i + 1] == pts[..i + 1];
    }
    assert pts[..|pts|] == pts;
  }

  /** `samples.map(getIceAtPoint).filter(v => v !== null)`: the readings that
      exist, in sample order. */
  function IceValues(data: Option<IceData>, samples: seq<Point>): (vs: seq<real>)
    ensures |vs| <= |samples|
    ensures |vs| == 0 <==> forall i | 0 <= i < |samples| :: SampledIce(data, samples[i]).None?
    decreases |samples|
  {
    if |samples| == 0 then []
    else
      var init := samples[..|samples| - 1];
      assert forall i | 0 <= i < |init| :: init[i] == samples[i];
      var v := SampledIce(data, samples[|samples| - 1]);
      IceValues(data, init) + (if v.Some? then [v.value] else [])
  }

  /** Every sample with a reading contributes that reading. */
  lemma {:induction false} IceValuesKeepsReadings(data: Option<IceData>, samples: seq<Point>, i: nat)
    requires i < |samples| && SampledIce(data, samples[i]).Some?
    ensures SampledIce(data, samples[i]).value in IceValues(data, samples)
    decreases |samples|
  {
    var init := samples[..|samples| - 1];
    if i < |init| {
      assert init[i] == samples[i];
      IceValuesKeepsReadings(data, init, i);
    }
  }

  /** Every reading comes from some sample. */
  lemma {:induction false} IceValuesFromSamples(data: Option<IceData>, samples: seq<Point>, k: nat)
    requires k < |IceValues(data, samples)|
    ensures exists i | 0 <= i < |samples| :: SampledIce(data, samples[i]) == Some(IceValues(data, samples)[k])
    decreases |samples|
  {
    var init := samples[..|samples| - 1];
    var v := SampledIce(data, samples[|samples| - 1]);
    if k < |IceValues(data, init)| {
      IceValuesFromSamples(data, init, k);
      var i :| 0 <= i < |init| && SampledIce(data, init[i]) == Some(IceValues(data, init)[k]);
      assert samples[i] == init[i];
    } else {
      assert SampledIce(data, samples[|samples| - 1]) == Some(IceValues(data, samples)[k]);
    }
  }

  /** The loop form of the `map`/`filter`: one lookup per sample. */
  method CollectIceValues(data: Option<IceData>, samples: seq<Point>) returns (values: seq<real>)
    ensures values == IceValues(data, samples)
  {
    values := [];
    for k := 0 to |samples|
      invariant values == IceValues(data, samples[..k])
    {
      var v := GetIceAtPoint(data, samples[k].lat, samples[k].lon);
      if v.Reading? {
        values := values + [v.value];
      }
      assert samples[..k + 1][..k] == samples[..k];
    }
    assert samples[..|samples|] == samples;
  }

  // ---------------------------------------------------------------------
  // Statistics

  /** `reduce((sum, v) => sum + v, 0)`. */
  function Sum(vs: seq<real>): real
    decreases |vs|
  {
    if |vs| == 0 then 0.0 else Sum(vs[..|vs| - 1]) + vs[|vs| - 1]
  }

  /** `Math.max(...vs)`: a value of the list, no smaller than any. */
  function MaxOf(vs: seq<real>): (m: real)
    requires |vs| > 0
    ensures exists i | 0 <= i < |vs| :: vs[i] == m
    ensures forall i | 0 <= i < |vs| :: vs[i] <= m
    decreases |vs|
  {
    if |vs| == 1 then vs[0]
    else
      var m := MaxOf(vs[..|vs| - 1]);
      assert forall i | 0 <= i < |vs| - 1 :: vs[..|vs| - 1][i] == vs[i];
      if vs[|vs| - 1] > m then vs[|vs| - 1] else m
  }

  /** The smallest value of a list (no counterpart in the component; it bounds
      the mean from below). */
  function MinOf(vs: seq<real>): (m: real)
    requires |vs| > 0
    ensures exists i | 0 <= i < |vs| :: vs[i] == m
    ensures forall i | 0 <= i < |vs| :: m <= vs[i]
    decreases |vs|
  {
    if |vs| == 1 then vs[0]
    else
      var m := MinOf(vs[..|vs| - 1]);
      assert forall i | 0 <= i < |vs| - 1 :: vs[..|vs| - 1][i] == vs[i];
      if vs[|vs| - 1] < m then vs[|vs| - 1] else m
  }

  /** `filter(v => v > threshold).length`. */
  function CountAbove(vs: seq<real>, threshold: real): (n: nat)
    ensures n <= |vs|
    decreases |vs|
  {
    if |vs| == 0 then 0
    else CountAbove(vs[..|vs| - 1], threshold) + (if vs[|vs| - 1] > threshold then 1 else 0)
  }

  /** The mean of the readings. */
  function Mean(vs: seq<real>): real
    requires |vs| > 0
  {
    Sum(vs) / |vs| as real
  }

  lemma {:induction false} SumBounds(vs: seq<real>, lo: real, hi: real)
    requires forall i | 0 <= i < |vs| :: lo <= vs[i] <= hi
    ensures |vs| as real * lo <= Sum(vs) <= |vs| as real * hi
    decreases |vs|
  {
    if |vs| > 0 {
      var init := vs[..|vs| - 1];
      assert forall i | 0 <= i < |init| :: init[i] == vs[i];
      SumBounds(init, lo, hi);
      var n := |vs| as real;
      assert |init| as real == n - 1.0;
      assert (n - 1.0) * hi + hi == n * hi;
      assert (n - 1.0) * lo + lo == n * lo;
    }
  }

  lemma DivBounds(s: real, n: real, lo: real, hi: real)
    requires n > 0.0 && n * lo <= s <= n * hi
    ensures lo <= s / n <= hi
  {
    assert (s / n) * n == s;
  }

  /** The mean of readings that all lie in [lo, hi] lies in [lo, hi]. */
  lemma MeanBetween(vs: seq<real>, lo: real, hi: real)
    requires |vs| > 0
    requires forall i | 0 <= i < |vs| :: lo <= vs[i] <= hi
    ensures lo <= Mean(vs) <= hi
  {
    SumBounds(vs, lo, hi);
    DivBounds(Sum(vs), |vs| as real, lo, hi);
  }

  /** `avgIce` lies between the lowest reading and `maxIce`. */
  lemma MeanWithinReadings(vs: seq<real>)
    requires |vs| > 0
    ensures MinOf(vs) <= Mean(vs) <= MaxOf(vs)
  {
    MeanBetween(vs, MinOf(vs), MaxOf(vs));
  }

  /** On a stretch where every reading is the same value c, the mean is c and
      every reading counts as high ice exactly when c > 70. */
  lemma UniformReadings(vs: seq<real>, c: real)
    requires |vs| > 0
    requires forall i | 0 <= i < |vs| :: vs[i] == c
    ensures Mean(vs) == c
    ensures CountAbove(vs, 70.0) == if c > 70.0 then |vs| else 0
  {
    MeanBetween(vs, c, c);
    UniformCount(vs, c);
  }

  lemma {:induction false} UniformCount(vs: seq<real>, c: real)
    requires forall i | 0 <= i < |vs| :: vs[i] == c
    ensures CountAbove(vs, 70.0) == if c > 70.0 then |vs| else 0
    decreases |vs|
  {
    if |vs| > 0 {
      var init := vs[..|vs| - 1];
      assert forall i | 0 <= i < |init| :: init[i] == vs[i];
      UniformCount(init, c);
    }
  }

  // ---------------------------------------------------------------------
  // Severity

  datatype Severity = Clear | Moderate | Difficult | Blocked
  {
    /** Position on the scale, from clear to blocked. */
    function Rank(): nat
    {
      match this
      case Clear => 0
      case Moderate => 1
      case Difficult => 2
      case Blocked => 3
    }
  }

  /** The if-chain over `avgIce`: above 70 blocked, above 50 difficult, above 30
      moderate, clear otherwise (every threshold strict). */
  function SeverityOf(avg: real): (s: Severity)
    ensures s == Blocked <==> avg > 70.0
    ensures s == Difficult <==> 50.0 < avg <= 70.0
    ensures s == Moderate <==> 30.0 < avg <= 50.0
    ensures s == Clear <==> avg <= 30.0
  {
    if avg > 70.0 then Blocked
    else if avg > 50.0 then Difficult
    else if avg > 30.0 then Moderate
    else Clear
  }

  /** The colour paired with each level. */
  function SeverityColor(s: Severity): string
  {
    match s
    case Blocked => "#D32F2F"
    case Difficult => "#F57C00"
    case Moderate => "#FBC02D"
    case Clear => "#4CAF50"
  }

  /** More ice on average never lowers the severity. */
  lemma SeverityMonotone(a1: real, a2: real)
    requires a1 <= a2
    ensures SeverityOf(a1).Rank() <= SeverityOf(a2).Rank()
  {
  }

  /** Each level has its own colour, so the colour alone tells the level. */
  lemma SeverityColorsDistinct(s1: Severity, s2: Severity)
    ensures SeverityColor(s1) == SeverityColor(s2) <==> s1 == s2
  {
    if s1 != s2 {
      assert SeverityColor(s1)[1] != SeverityColor(s2)[1] || SeverityColor(s1)[2] != SeverityColor(s2)[2];
    }
  }

  // ---------------------------------------------------------------------
  // The analysis

  /** The sum of `dist` over consecutive waypoints; `dist` stands for the
      haversine distance in kilometres. */
  function RouteLength(pts: seq<Point>, dist: (Point, Point) -> real): real
    decreases |pts|
  {
    if |pts| < 2 then 0.0
    else RouteLength(pts[..|pts| - 1], dist) + dist(pts[|pts| - 2], pts[|pts| - 1])
  }

  /** With a non-negative leg distance the route length is non-negative. */
  lemma {:induction false} RouteLengthNonNegative(pts: seq<Point>, dist: (Point, Point) -> real)
    requires forall a, b :: dist(a, b) >= 0.0
    ensures RouteLength(pts, dist) >= 0.0
    decreases |pts|
  {
    if |pts| >= 2 {
      RouteLengthNonNegative(pts[..|pts| - 1], dist);
    }
  }

  /** The `analysis` object, with numbers kept as numbers (before `toFixed`). */
  datatype Analysis = Analysis(
    avgIce: real,
    maxIce: real,
    severity: Severity,
    color: string,
    lengthKm: real,
    highIceSegments: nat)

  /** `routeAnalysis`: nothing without a day's data, with fewer than two
      waypoints, or when no sample has a reading; otherwise the statistics of
      the readings, whose mean lies between the smallest and the largest reading. */
  function Analyze(data: Option<IceData>, pts: seq<Point>, dist: (Point, Point) -> real): (r: Option<Analysis>)
    ensures r.None? <==> data.None? || |pts| < 2 || |IceValues(data, RouteSamples(pts))| == 0
    ensures r.Some? ==> r.value.avgIce <= r.value.maxIce
    ensures r.Some? ==> r.value.highIceSegments <= 6 * (|pts| - 1)
    ensures r.Some? ==> r.value.color == SeverityColor(r.value.severity)
    ensures r.Some? ==> (r.value.severity == Blocked <==> r.value.avgIce > 70.0)
  {
    if data.None? || |pts| < 2 then None
    else
      var vs := IceValues(data, RouteSamples(pts));
      if |vs| == 0 then None
      else
        var avg := Mean(vs);
        MeanWithinReadings(vs);
        var severity := SeverityOf(avg);
        Some(Analysis(avg, MaxOf(vs), severity, SeverityColor(severity), RouteLength(pts, dist), CountAbove(vs, 70.0)))
  }

  /** `routeAnalysis` as the component runs it: sample, look up, summarise, and
      add up the leg lengths in a loop. */
  method AnalyzeRoute(data: Option<IceData>, pts: seq<Point>, dist: (Point, Point) -> real) returns (r: Option<Analysis>)
    ensures r == Analyze(data, pts, dist)
  {
    if data.None? || |pts| < 2 {
      return None;
    }
    var samples := SampleRoute(pts);
    var values := CollectIceValues(data, samples);
    if |values| == 0 {
      return None;
    }
    var avgIce := Sum(values) / |values| as real;
    var maxIce := MaxOf(values);
    var highIceCount := CountAbove(values, 70.0);
    var severity := SeverityOf(avgIce);

    var total := MeasureRoute(pts, dist);
    r := Some(Analysis(avgIce, maxIce, severity, SeverityColor(severity), total, highIceCount));
  }

  /** The `totalDistance` loop: the leg distances added up in route order. */
  method MeasureRoute(pts: seq<Point>, dist: (Point, Point) -> real) returns (total: real)
    requires |pts| >= 2
    ensures total == RouteLength(pts, dist)
  {
    total := 0.0;
    for i := 0 to |pts| - 1
      invariant total == RouteLength(pts[..i + 1], dist)
    {
      total := total + dist(pts[i], pts[i + 1]);
      assert pts[..i + 2][..i + 1] == pts[..i + 1];
    }
    assert pts[..|pts|] == pts;
  }

  // ---------------------------------------------------------------------
  // The export gate

  /** What the Export Route button does. */
  datatype ExportResult =
    | OpenExportModal              // every waypoint is water
    | LandWarning(count: nat)      // the alert naming how many waypoints are on land
    | Aborted                      // a classifier call threw; nothing happens

  predicate AnyTypeError(data: Option<IceData>, pts: seq<Point>)
  {
    exists i | 0 <= i < |pts| :: ControlsWaterCheck(data, pts[i]) == TypeError
  }

  /** `routePoints.filter(p => !isPointOnWater(p)).length`. */
  function LandCount(data: Option<IceData>, pts: seq<Point>): (n: nat)
    ensures n <= |pts|
    decreases |pts|
  {
    if |pts| == 0 then 0
    else LandCount(data, pts[..|pts| - 1]) + (if ControlsWaterCheck(data, pts[|pts| - 1]) == IsWater then 0 else 1)
  }

  /** The count is zero exactly when every waypoint is water. */
  lemma {:induction false} LandCountZero(data: Option<IceData>, pts: seq<Point>)
    ensures LandCount(data, pts) == 0 <==> forall i | 0 <= i < |pts| :: ControlsWaterCheck(data, pts[i]) == IsWater
    decreases |pts|
  {
    if |pts| > 0 {
      var init := pts[..|pts| - 1];
      LandCountZero(data, init);
      assert forall i | 0 <= i < |init| :: init[i] == pts[i];
    }
  }

  function ExportClickResult(data: Option<IceData>, pts: seq<Point>): ExportResult
  {
    if AnyTypeError(data, pts) then Aborted
    else if LandCount(data, pts) > 0 then LandWarning(LandCount(data, pts))
    else OpenExportModal
  }

  /** The dialog opens iff every waypoint is water; one land waypoint blocks it. */
  lemma ExportOpensIffAllWater(data: Option<IceData>, pts: seq<Point>)
    ensures ExportClickResult(data, pts) == OpenExportModal
      <==> forall i | 0 <= i < |pts| :: ControlsWaterCheck(data, pts[i]) == IsWater
  {
    LandCountZero(data, pts);
  }

  /** A route drawn through the drawing layer's classifier can be exported,
      provided the day's data, when there is any, has both coordinate arrays. */
  lemma DrawnRouteExports(data: Option<IceData>, pts: seq<Point>)
    requires data.None? || (data.value.lats.Some? && data.value.lons.Some?)
    requires forall i | 0 <= i < |pts| :: RoutePlanner.PlannerOnWater(data, pts[i])
    ensures ExportClickResult(data, pts) == OpenExportModal
  {
    forall i | 0 <= i < |pts|
      ensures ControlsWaterCheck(data, pts[i]) == IsWater
    {
      PlannerWaterIsControlsWater(data, pts[i]);
    }
    ExportOpensIffAllWater(data, pts);
  }

  /** The click handler: classify every waypoint, alert when some are land,
      open the dialog otherwise. */
  method ExportClick(data: Option<IceData>, pts: seq<Point>) returns (r: ExportResult)
    ensures r == ExportClickResult(data, pts)
  {
    var land := 0;
    for i := 0 to |pts|
      invariant land == LandCount(data, pts[..i])
      invariant !AnyTypeError(data, pts[..i])
    {
      var w := IsPointOnWater(data, pts[i]);
      if w == TypeError {
        assert pts[i] == pts[..i + 1][i];
        return Aborted;
      }
      if w != IsWater {
        land := land + 1;
      }
      assert pts[..i + 1][..i] == pts[..i];
    }
    assert pts[..|pts|] == pts;
    if land > 0 {
      return LandWarning(land);
    }
    r := OpenExportModal;
  }
}
