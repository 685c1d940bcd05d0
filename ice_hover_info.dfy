// The hover read-out (frontend/src/components/IceHoverInfo.jsx): the row/column
// line search that maps a cursor position to one grid cell, and the popup the
// component shows for the concentration found there.
module IceHoverInfo {

  import opened IceGrid
  import opened Nearest
  import IceUtils

  /** Distance of one grid coordinate from the cursor along one axis;
      a coordinate without data is skipped (no distance). */
  function LineDist(c: Sample, target: real): (d: Option<real>)
    ensures d.None? <==> c.None?
    ensures d.Some? ==> d.value >= 0.0 && (d.value == 0.0 <==> c.value == target)
  {
    if c.None? then None else Some(Abs(c.value - target))
  }

  /** The candidates of the row search: the latitude in column 0 of each row. */
  function RowDists(lats: seq<Sample>, width: nat, height: nat, lat: real): (ds: seq<Option<real>>)
    ensures |ds| == height
  {
    seq(height, r requires 0 <= r => LineDist(At(lats, r * width), lat))
  }

  /** The candidates of the column search: the longitudes of row 0. */
  function ColDists(lons: seq<Sample>, width: nat, lon: real): (ds: seq<Option<real>>)
    ensures |ds| == width
  {
    seq(width, c requires 0 <= c => LineDist(At(lons, c), lon))
  }

  /** The line a search settles on: the first nearest candidate, or line 0 when
      no candidate has a coordinate. It is always a line of the grid. */
  function ClosestLine(ds: seq<Option<real>>): (k: nat)
    requires |ds| > 0
    ensures k < |ds|
    ensures NonePresent(ds) ==> k == 0
    ensures !NonePresent(ds) ==> IsFirstNearest(ds, k)
  {
    FirstArgMin(ds).GetOr(0)
  }

  /** `getIceAtLocation` as a value: no data without the three arrays; otherwise
      the sample at `row * width + col` for the closest row and column, or no data
      when that index is past the end of the concentration array. */
  function IceAtLocation(data: Option<IceData>, p: Point): (r: Sample)
    ensures data.None? || !data.value.HasArrays() ==> r.None?
  {
    if data.None? || !data.value.HasArrays() then None
    else
      var d := data.value;
      var row := ClosestLine(RowDists(d.lats.value, d.Width(), d.Height(), p.lat));
      var col := ClosestLine(ColDists(d.lons.value, d.Width(), p.lon));
      At(d.ice.value, row * d.Width() + col)
  }

  /** `getIceAtLocation`: the row scan and the column scan, then one array read. */
  method GetIceAtLocation(iceData: Option<IceData>, lat: real, lon: real) returns (value: Sample)
    ensures value == IceAtLocation(iceData, Point(lat, lon))
  {
    if iceData.None? || !iceData.value.HasArrays() {
      return None;
    }
    var ice := iceData.value.ice.value;
    var width := iceData.value.Width();
    var height := iceData.value.Height();
    var closestRow := ScanRows(iceData.value.lats.value, width, height, lat);
    var closestCol := ScanColumns(iceData.value.lons.value, width, lon);
    var index := closestRow * width + closestCol;
    if index < 0 || index >= |ice| {
      return None;
    }
    value := ice[index];
  }

  /** The row loop: the latitude in column 0 of each row against `lat`, keeping
      a running minimum (`None` playing the part of the initial `Infinity`). */
  method ScanRows(lats: seq<Sample>, width: nat, height: nat, lat: real) returns (closestRow: nat)
    requires height > 0
    ensures closestRow == ClosestLine(RowDists(lats, width, height, lat))
  {
    ghost var rows := RowDists(lats, width, height, lat);
    closestRow := 0;
    var minLatDist: Option<real> := None;
    for row := 0 to height
      invariant FirstArgMin(rows[..row]) == if minLatDist.None? then None else Some(closestRow)
      invariant minLatDist.None? ==> closestRow == 0
      invariant minLatDist.Some? ==> closestRow < row && rows[closestRow] == minLatDist
    {
      StepFirstArgMin(rows, row);
      var gridLat := At(lats, row * width);
      if gridLat.Some? {
        var dist := Abs(gridLat.value - lat);
        if minLatDist.None? || dist < minLatDist.value {
          minLatDist := Some(dist);
          closestRow := row;
        }
      }
    }
    assert rows[..height] == rows;
  }

  /** The column loop: the longitudes of row 0 against `lon`. */
  method ScanColumns(lons: seq<Sample>, width: nat, lon: real) returns (closestCol: nat)
    requires width > 0
    ensures closestCol == ClosestLine(ColDists(lons, width, lon))
  {
    ghost var cols := ColDists(lons, width, lon);
    closestCol := 0;
    var minLonDist: Option<real> := None;
    for col := 0 to width
      invariant FirstArgMin(cols[..col]) == if minLonDist.None? then None else Some(closestCol)
      invariant minLonDist.None? ==> closestCol == 0
      invariant minLonDist.Some? ==> closestCol < col && cols[closestCol] == minLonDist
    {
      StepFirstArgMin(cols, col);
      var gridLon := At(lons, col);
      if gridLon.Some? {
        var dist := Abs(gridLon.value - lon);
        if minLonDist.None? || dist < minLonDist.value {
          minLonDist := Some(dist);
          closestCol := col;
        }
      }
    }
    assert cols[..width] == cols;
  }

  /** A grid whose row `r` lies on latitude `rowLats[r]` (read in column 0) and
      whose column `c` lies on longitude `colLons[c]` (read in row 0). */
  predicate RegularGrid(d: IceData, rowLats: seq<real>, colLons: seq<real>)
  {
    && d.HasArrays()
    && |rowLats| == d.Height() && |colLons| == d.Width()
    && (forall r | 0 <= r < |rowLats| :: At(d.lats.value, r * d.Width()) == Some(rowLats[r]))
    && (forall c | 0 <= c < |colLons| :: At(d.lons.value, c) == Some(colLons[c]))
  }

  predicate Distinct(s: seq<real>)
  {
    forall i, j | 0 <= i < j < |s| :: s[i] != s[j]
  }

  /** Round trip of the line search: on a regular grid with distinct row
      latitudes and distinct column longitudes, pointing at the centre of cell
      (row, col) reads exactly that cell's sample. */
  lemma {:induction false} RegularGridRoundTrip(d: IceData, rowLats: seq<real>, colLons: seq<real>, row: nat, col: nat)
    requires RegularGrid(d, rowLats, colLons) && Distinct(rowLats) && Distinct(colLons)
    requires row < |rowLats| && col < |colLons|
    ensures IceAtLocation(Some(d), Point(rowLats[row], colLons[col])) == At(d.ice.value, row * d.Width() + col)
  {
    var rows := RowDists(d.lats.value, d.Width(), d.Height(), rowLats[row]);
    var cols := ColDists(d.lons.value, d.Width(), colLons[col]);
    forall j | 0 <= j < |rows| && j != row && rows[j].Some?
      ensures rows[j].value > 0.0
    {
      assert rows[j] == LineDist(Some(rowLats[j]), rowLats[row]);
      assert rowLats[j] != rowLats[row];
    }
    assert rows[row] == LineDist(Some(rowLats[row]), rowLats[row]);
    UniqueZeroIsFound(rows, row);
    forall j | 0 <= j < |cols| && j != col && cols[j].Some?
      ensures cols[j].value > 0.0
    {
      assert cols[j] == LineDist(Some(colLons[j]), colLons[col]);
      assert colLons[j] != colLons[col];
    }
    assert cols[col] == LineDist(Some(colLons[col]), colLons[col]);
    UniqueZeroIsFound(cols, col);
  }

  /** What the popup says: the 'not visible' notice, or the clamped percentage. */
  datatype PopupText = NotVisible | Percent(value: real)

  datatype Popup = Popup(position: Point, text: PopupText, highlight: bool)

  /** The popup shown for a raw sample at cursor position `p`: none for no data,
      an unhighlighted notice for ice below 1 %, and otherwise the clamped value,
      highlighted. */
  function PopupFor(p: Point, raw: Sample): (popup: Option<Popup>)
    ensures popup.None? <==> raw.None?
    ensures popup.Some? ==> popup.value.position == p
    ensures popup.Some? ==> (popup.value.highlight <==> IceUtils.IsVisibleIce(raw))
    ensures popup.Some? && !popup.value.highlight ==> popup.value.text == NotVisible
    ensures popup.Some? && popup.value.highlight ==>
      popup.value.text.Percent? && 1.0 <= popup.value.text.value <= 100.0 &&
      (raw.value <= 100.0 ==> popup.value.text.value == raw.value)
    ensures popup.Some? && popup.value.highlight ==>
      popup.value.text == Percent(IceUtils.ClampIce(raw).value)
  {
    var clamped := IceUtils.ClampIce(raw);
    if clamped.None? then None
    else if !IceUtils.IsVisibleIce(clamped) then Some(Popup(p, NotVisible, false))
    else Some(Popup(p, Percent(clamped.value), true))
  }

  /** The hover handler only runs when the day has both bounds and dimensions. */
  predicate HasGridMeta(data: Option<IceData>)
  {
    data.Some? && data.value.bounds.Some? && data.value.dimensions.Some?
  }

  /** The popup is highlighted exactly over the cells the overlay paints. */
  lemma HighlightMatchesOverlay(data: Option<IceData>, p: Point)
    requires PopupFor(p, IceAtLocation(data, p)).Some?
    ensures PopupFor(p, IceAtLocation(data, p)).value.highlight
      <==> IceUtils.GetIceColor(IceAtLocation(data, p)).Some?
  {
  }

  /** The component's `popupState`. */
  class HoverPopup {
    var popup: Option<Popup>

    constructor()
      ensures popup.None?
    {
      popup := None;
    }

    /** `mousemove`: without grid metadata nothing changes; otherwise the popup
        becomes the one for the sample under the cursor. */
    method MouseMove(iceData: Option<IceData>, p: Point)
      modifies this
      ensures !HasGridMeta(iceData) ==> popup == old(popup)
      ensures HasGridMeta(iceData) ==> popup == PopupFor(p, IceAtLocation(iceData, p))
    {
      if !HasGridMeta(iceData) {
        return;
      }
      var raw := GetIceAtLocation(iceData, p.lat, p.lon);
      popup := PopupFor(p, raw);
    }

    /** `mouseout`: the popup closes. */
    method MouseOut()
      modifies this
      ensures popup.None?
    {
      popup := None;
    }
  }
}
