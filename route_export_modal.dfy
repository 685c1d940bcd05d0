// The export dialog (frontend/src/components/RouteExportModal.jsx): waypoint
// labels, the coordinate listing in decimal and degrees-minutes-seconds form,
// the GPX 1.1 document's route and waypoint elements, and the point the
// MarineTraffic link centres on.
module RouteExportModal {

  import opened IceGrid

  // ---------------------------------------------------------------------
  // Labels

  datatype Label = Start | End | Waypoint(index: nat)

  /** `idx === 0 ? 'Start' : idx === routePoints.length - 1 ? 'End' : 'Waypoint ' + idx`. */
  function LabelOf(idx: nat, n: nat): (l: Label)
    ensures l == Start <==> idx == 0
    ensures l == End <==> idx != 0 && idx == n - 1
    ensures l.Waypoint? ==> l.index == idx && 0 < idx && idx != n - 1
  {
    if idx == 0 then Start else if idx == n - 1 then End else Waypoint(idx)
  }

  /** Within one route no two points share a label. */
  lemma LabelsUnique(i: nat, j: nat, n: nat)
    requires i < n && j < n && LabelOf(i, n) == LabelOf(j, n)
    ensures i == j
  {
  }

  // ---------------------------------------------------------------------
  // Degrees, minutes, seconds

  /** The parts of `convertToDMS` before they are joined into text. */
  datatype Dms = Dms(degrees: nat, minutes: nat, seconds: real, dir: char)
  {
    /** The magnitude the three parts add up to. */
    function Magnitude(): real
    {
      degrees as real + minutes as real / 60.0 + seconds / 3600.0
    }

    /** The signed coordinate the parts denote: south and west are negative. */
    function Signed(): real
    {
      if dir == 'S' || dir == 'W' then -Magnitude() else Magnitude()
    }
  }

  /** `convertToDMS(coord, isLat)`: the hemisphere letter from the sign, then
      whole degrees, whole minutes and the remaining seconds of `|coord|`. */
  function ConvertToDms(coord: real, isLat: bool): (d: Dms)
    ensures d.degrees == Abs(coord).Floor
    ensures d.minutes <= 59 && 0.0 <= d.seconds < 60.0
    ensures d.dir == (if isLat then (if coord >= 0.0 then 'N' else 'S') else (if coord >= 0.0 then 'E' else 'W'))
  {
    var dir := if isLat then (if coord >= 0.0 then 'N' else 'S') else (if coord >= 0.0 then 'E' else 'W');
    var absCoord := Abs(coord);
    var degrees := absCoord.Floor;
    var minutes := ((absCoord - degrees as real) * 60.0).Floor;
    var seconds := (absCoord - degrees as real - minutes as real / 60.0) * 3600.0;
    Dms(degrees, minutes, seconds, dir)
  }

  /** Reading the parts back gives the coordinate: the magnitude is `|coord|`,
      and the hemisphere letter restores the sign. */
  lemma DmsRoundTrip(coord: real, isLat: bool)
    ensures ConvertToDms(coord, isLat).Magnitude() == Abs(coord)
    ensures ConvertToDms(coord, isLat).Signed() == coord
  {
  }

  /** One line of the listing, before number formatting. */
  datatype Coordinates = Decimal(lat: real, lon: real) | DegMinSec(latDms: Dms, lonDms: Dms)
  datatype Line = Line(name: Label, coords: Coordinates)

  /** The DMS line as written: the longitude is passed through `Math.abs`
      before `convertToDMS`, so its sign is gone before the letter is chosen. */
  function DmsLineAsWritten(idx: nat, n: nat, p: Point): Line
  {
    Line(LabelOf(idx, n), DegMinSec(ConvertToDms(p.lat, true), ConvertToDms(Abs(p.lon), false)))
  }

  /** Every longitude comes out east, and every Great Lakes longitude (all of
      them west of Greenwich) reads back with the wrong sign: the Soo Locks at
      84.3475 W is listed as 84 20' 51" E. */
  lemma DmsLongitudeAlwaysEast(idx: nat, n: nat, p: Point)
    ensures DmsLineAsWritten(idx, n, p).coords.lonDms.dir == 'E'
    ensures p.lon < 0.0 ==> DmsLineAsWritten(idx, n, p).coords.lonDms.Signed() != p.lon
  {
    DmsRoundTrip(Abs(p.lon), false);
  }

  lemma SooLocksListedEast()
    ensures var line := DmsLineAsWritten(0, 2, Point(46.5063, -84.3475));
      line.coords.lonDms.dir == 'E' && line.coords.lonDms.Signed() == 84.3475
  {
    DmsRoundTrip(84.3475, false);
  }

  /** The DMS line as intended: the signed longitude goes to `convertToDMS`,
      which picks 'W' for a negative one. */
  function DmsLine(idx: nat, n: nat, p: Point): (line: Line)
    ensures line.name == LabelOf(idx, n) && line.coords.DegMinSec?
    ensures line.coords.latDms.Signed() == p.lat && line.coords.lonDms.Signed() == p.lon
    ensures p.lon < 0.0 ==> line.coords.lonDms.dir == 'W'
  {
    DmsRoundTrip(p.lat, true);
    DmsRoundTrip(p.lon, false);
    Line(LabelOf(idx, n), DegMinSec(ConvertToDms(p.lat, true), ConvertToDms(p.lon, false)))
  }

  datatype Format = DecimalFormat | DmsFormat

  /** `formatCoordinates(format)`: one line per waypoint, in route order, each
      labelled by its position and carrying that waypoint's coordinates. The
      DMS form is the corrected one, built from `DmsLine`. */
  function FormatCoordinates(pts: seq<Point>, format: Format): (lines: seq<Line>)
    ensures |lines| == |pts|
    ensures forall i | 0 <= i < |pts| :: lines[i].name == LabelOf(i, |pts|)
    ensures format == DecimalFormat ==> forall i | 0 <= i < |pts| :: lines[i].coords == Decimal(pts[i].lat, pts[i].lon)
    ensures format == DmsFormat ==> forall i | 0 <= i < |pts| ::
      lines[i].coords.DegMinSec? && lines[i].coords.latDms.Signed() == pts[i].lat && lines[i].coords.lonDms.Signed() == pts[i].lon
  {
    seq(|pts|, i requires 0 <= i < |pts| =>
      if format == DecimalFormat then Line(LabelOf(i, |pts|), Decimal(pts[i].lat, pts[i].lon))
      else DmsLine(i, |pts|, pts[i]))
  }

  /** The coordinates a listing carries, read back in order. */
  function ReadBack(lines: seq<Line>): seq<Point>
  {
    seq(|lines|, i requires 0 <= i < |lines| =>
      match lines[i].coords
      case Decimal(lat, lon) => Point(lat, lon)
      case DegMinSec(latDms, lonDms) => Point(latDms.Signed(), lonDms.Signed()))
  }

  /** `formatCoordinates` as written: the decimal listing as above, and DMS
      lines whose longitude went through `Math.abs` first. */
  function FormatCoordinatesAsWritten(pts: seq<Point>, format: Format): (lines: seq<Line>)
    ensures |lines| == |pts|
    ensures format == DecimalFormat ==> lines == FormatCoordinates(pts, format)
    ensures format == DmsFormat ==> forall i | 0 <= i < |pts| :: lines[i] == DmsLineAsWritten(i, |pts|, pts[i])
  {
    seq(|pts|, i requires 0 <= i < |pts| =>
      if format == DecimalFormat then Line(LabelOf(i, |pts|), Decimal(pts[i].lat, pts[i].lon))
      else DmsLineAsWritten(i, |pts|, pts[i]))
  }

  /** As written, the DMS listing of a route with a waypoint west of Greenwich
      (every Great Lakes waypoint) does not read back to the route. */
  lemma ListingAsWrittenLosesWest(pts: seq<Point>, i: nat)
    requires i < |pts| && pts[i].lon < 0.0
    ensures ReadBack(FormatCoordinatesAsWritten(pts, DmsFormat)) != pts
  {
    var lines := FormatCoordinatesAsWritten(pts, DmsFormat);
    DmsLongitudeAlwaysEast(i, |pts|, pts[i]);
    assert ReadBack(lines)[i].lon != pts[i].lon;
  }

  /** Either corrected listing reads back to the route itself. */
  lemma {:induction false} ListingRoundTrip(pts: seq<Point>, format: Format)
    ensures ReadBack(FormatCoordinates(pts, format)) == pts
  {
    var lines := FormatCoordinates(pts, format);
    forall i | 0 <= i < |pts|
      ensures ReadBack(lines)[i] == pts[i]
    {
      assert lines[i].coords.Decimal? || lines[i].coords.DegMinSec?;
    }
  }

  // ---------------------------------------------------------------------
  // GPX

  /** An `rtept` or `wpt` element: its `lat` and `lon` attributes and its
      `<name>`. */
  datatype GpxPoint = GpxPoint(lat: real, lon: real, name: Label)

  /** The parts of the document that carry the route: the `<rte>` with its
      name, the waypoint count of its `<desc>` and its `<rtept>` children, then
      the standalone `<wpt>` elements. */
  datatype Gpx = Gpx(routeName: string, waypointCount: nat, rtepts: seq<GpxPoint>, wpts: seq<GpxPoint>)

  function GpxPointAt(pts: seq<Point>, i: nat): GpxPoint
    requires i < |pts|
  {
    GpxPoint(pts[i].lat, pts[i].lon, LabelOf(i, |pts|))
  }

  /** `generateGPX`, without the timestamp and the text rendering. */
  function GenerateGpx(pts: seq<Point>): (g: Gpx)
    ensures g.waypointCount == |pts| == |g.rtepts| == |g.wpts|
    ensures g.rtepts == g.wpts
  {
    var elements := seq(|pts|, i requires 0 <= i < |pts| => GpxPointAt(pts, i));
    Gpx("Icebreaker Route", |pts|, elements, elements)
  }

  /** The coordinates of a list of GPX points, in order. */
  function GpxCoordinates(gs: seq<GpxPoint>): seq<Point>
  {
    seq(|gs|, i requires 0 <= i < |gs| => Point(gs[i].lat, gs[i].lon))
  }

  /** Both the route and the waypoint list read back to the route, and a route
      of two or more points starts with "Start" and ends with "End" in both. */
  lemma {:induction false} GpxRoundTrip(pts: seq<Point>)
    ensures GpxCoordinates(GenerateGpx(pts).rtepts) == pts
    ensures GpxCoordinates(GenerateGpx(pts).wpts) == pts
    ensures |pts| >= 2 ==>
      GenerateGpx(pts).rtepts[0].name == Start && GenerateGpx(pts).rtepts[|pts| - 1].name == End
  {
    var g := GenerateGpx(pts);
    forall i | 0 <= i < |pts|
      ensures GpxCoordinates(g.rtepts)[i] == pts[i]
    {
      assert g.rtepts[i] == GpxPointAt(pts, i);
    }
  }

  // ---------------------------------------------------------------------
  // MarineTraffic

  /** `routePoints[Math.floor(routePoints.length / 2)]`; an empty route has no
      centre (reading `center[1]` of undefined throws). The centre splits the
      route into halves whose sizes differ by at most one. */
  function MarineTrafficCentre(pts: seq<Point>): (c: Option<nat>)
    ensures c.None? <==> |pts| == 0
    ensures c.Some? ==> c.value < |pts|
    ensures c.Some? ==> var before, after := c.value, |pts| - 1 - c.value;
      after <= before <= after + 1
  {
    if |pts| == 0 then None else Some(|pts| / 2)
  }
}
