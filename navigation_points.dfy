// The chokepoint layer (frontend/src/components/NavigationPoints.jsx): the
// sampled ice reading at each fixed chokepoint and the hazard level and colour
// derived from it.
module NavigationPoints {

  import opened IceGrid
  import SampledLookup

  /** `CRITICAL_CHOKEPOINTS` positions: the Soo Locks, the Straits of Mackinac,
      the Detroit River, the Welland Canal and Duluth-Superior Harbor. */
  const Chokepoints: seq<Point> := [
    Point(46.5063, -84.3475),
    Point(45.8174, -84.7278),
    Point(42.3188, -83.0458),
    Point(43.0594, -79.2036),
    Point(46.7833, -92.1064)]

  datatype Hazard = Minimal | Low | Medium | High
  {
    /** The order of the levels. */
    function Rank(): nat
    {
      match this
      case Minimal => 0
      case Low => 1
      case Medium => 2
      case High => 3
    }
  }

  /** `iceConc > 70 ? 'HIGH' : iceConc > 40 ? 'MEDIUM' : iceConc > 15 ? 'LOW' : 'MINIMAL'`.
      A missing reading compares false against every threshold. */
  function HazardOf(conc: Sample): (h: Hazard)
    ensures h == High <==> conc.Some? && conc.value > 70.0
    ensures h == Medium <==> conc.Some? && 40.0 < conc.value <= 70.0
    ensures h == Low <==> conc.Some? && 15.0 < conc.value <= 40.0
    ensures h == Minimal <==> conc.None? || conc.value <= 15.0
  {
    if conc.None? then Minimal
    else if conc.value > 70.0 then High
    else if conc.value > 40.0 then Medium
    else if conc.value > 15.0 then Low
    else Minimal
  }

  /** More ice never lowers the hazard level. */
  lemma HazardMonotone(a: real, b: real)
    requires a <= b
    ensures HazardOf(Some(a)).Rank() <= HazardOf(Some(b)).Rank()
  {
  }

  /** `hazardColor`: a `#rrggbb` code in lower-case hexadecimal. */
  function HazardColor(h: Hazard): (c: string)
    ensures |c| == 7 && c[0] == '#'
    ensures forall k | 1 <= k < 7 :: c[k] in "0123456789abcdef"
  {
    match h
    case High => "#c62828"
    case Medium => "#e65100"
    case Low => "#f57f17"
    case Minimal => "#2e7d32"
  }

  /** Each level has its own colour. */
  lemma HazardColorInjective(h1: Hazard, h2: Hazard)
    ensures HazardColor(h1) == HazardColor(h2) <==> h1 == h2
  {
    if h1 != h2 {
      assert HazardColor(h1)[2] != HazardColor(h2)[2] || HazardColor(h1)[3] != HazardColor(h2)[3];
    }
  }

  /** What one chokepoint's popup reports: the hazard badge and, only for a
      present reading (`iceConc !== null`), the concentration block. */
  datatype Report = Report(hazard: Hazard, color: string, shown: Option<real>)

  function ReportFor(conc: Sample): (r: Report)
    ensures r.shown == conc
    ensures r.hazard == HazardOf(conc) && r.color == HazardColor(r.hazard)
    ensures r.shown.None? ==> r.hazard == Minimal
  {
    var h := HazardOf(conc);
    Report(h, HazardColor(h), conc)
  }

  /** The reports of all chokepoints, in table order, each from the sampled
      lookup at its own position. */
  function Reports(data: Option<IceData>): (rs: seq<Report>)
    ensures |rs| == |Chokepoints|
    ensures forall k | 0 <= k < |rs| :: rs[k] == ReportFor(SampledLookup.SampledIce(data, Chokepoints[k]))
    ensures data.None? ==> forall k | 0 <= k < |rs| :: rs[k].hazard == Minimal && rs[k].shown.None?
  {
    seq(|Chokepoints|, k requires 0 <= k < |Chokepoints| => ReportFor(SampledLookup.SampledIce(data, Chokepoints[k])))
  }

  /** The `CRITICAL_CHOKEPOINTS.map` callback, run over every chokepoint:
      `getIceAtPoint` at its position, then `hazard` and `hazardColor`. */
  method BuildReports(iceData: Option<IceData>) returns (rs: seq<Report>)
    ensures rs == Reports(iceData)
  {
    rs := [];
    for k := 0 to |Chokepoints|
      invariant rs == Reports(iceData)[..k]
    {
      var r := ChokepointReport(iceData, Chokepoints[k]);
      rs := rs + [r];
    }
  }

  /** One run of the callback: `getIceAtPoint` at the chokepoint, then its report. */
  method ChokepointReport(iceData: Option<IceData>, at: Point) returns (r: Report)
    ensures r == ReportFor(SampledLookup.SampledIce(iceData, at))
  {
    var conc := SampledLookup.GetIceAtPoint(iceData, at.lat, at.lon);
    r := ReportFor(conc.Number());
  }
}
