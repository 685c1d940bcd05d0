# Great Lakes ice-forecast viewer: a Dafny model of its grid rules

The viewer shows a forecast of lake-ice concentration over the Great Lakes. Each
forecast day is one record. It holds three flat, row-major arrays of equal
length: `ice_concentration` in percent, `latitude` and `longitude`. It also holds
`dimensions` (`width`, `height`) and `bounds` (`south`, `north`, `west`, `east`).
Under the React and Leaflet glue there are a few deterministic rules over that
grid. This project models them and proves what they promise:

- **Colour mapping** (`IceUtils`, `IceLayer`). A concentration is clamped to
  [0, 100], hidden below 1 %, and otherwise turned into an RGBA colour by a
  floor-based gradient. The overlay rasteriser paints one cell per pixel into a
  `width * height * 4` byte buffer, with row 0 at the top and no flip.
- **Nearest-cell lookups** (`Nearest`, `IceHoverInfo`, `SampledLookup`). The
  hover read-out uses a row search plus a column search. The chokepoint popups and
  the route panel use a nearest-point scan over every 50th cell. Both keep a
  running minimum with a strict `<`, so the earliest of equally near cells wins.
- **Water classifiers** (`Water`, `RoutePlanner`, `RoutePlannerControls`). There
  are two copies of `isPointOnWater`, and each is a first-match-wins chain:
  1. a closed bounding box;
  2. nearby grid data;
  3. seven waterway circles;
  4. five lake centres.

  The copies differ in step 2. The route panel's copy also consults the nearest
  sampled concentration. It can throw a `TypeError` when a day lacks a coordinate
  array, and the model keeps that outcome.
- **Route logic** (`RoutePlanner`, `RoutePlannerControls`):
  - a click appends a waypoint only on water;
  - each leg is sampled at six points;
  - the statistics are the mean, the maximum and the count above 70 %;
  - a four-level severity is derived from the mean;
  - the export button opens the dialog only when every waypoint is water.
- **Chokepoint hazards** (`NavigationPoints`): a four-level hazard and its colour
  at five fixed chokepoints.
- **Time slider** (`TimeSlider`):
  - a continuous value in [1, 4] resolves to a whole day;
  - a playback tick stops at exactly 4;
  - play/pause resets the slider at the end;
  - the progress bar runs from 0 to 100.
- **View bounds** (`MapView`): the min/max box over every 100th cell that carries
  ice, falling back to the metadata box and then to a fixed default, plus its centre.
- **Export helpers** (`RouteExportModal`):
  - waypoint labels;
  - the coordinate listing in decimal and degrees-minutes-seconds form;
  - the GPX 1.1 route (`rte`/`rtept`) and waypoint (`wpt`) elements;
  - the waypoint the MarineTraffic link centres on.

How the model maps the code:

- **Missing values.** A sample is `Option<real>`, and `None` stands for a
  JavaScript `null`, `undefined` or `NaN`. Reads past the end of an array go
  through `IceGrid.At`, which yields `None`. The one place where the code tells
  `undefined` from `null` is the result of `getIceAtPoint`. There the model
  keeps the three cases apart (`SampledLookup.IceRead`).
- **Distances.** Distances are compared squared, because the square root
  preserves order and `sqrt(d) < r` iff `d < r * r` for a positive radius.
- **Loops.** Each loop of the source is a `method` proved equal to a
  specification function, and the properties are proved about that function.
- **State.** Component state that the source updates becomes a class:
  - `RoutePlanner.Route` for the route points;
  - `TimeSlider.Slider` for the slider value and the playing flag;
  - `IceHoverInfo.HoverPopup` for the hover popup.

Two details of the code that are easy to misread:

- The slider resolves its value to a day by flooring twice
  (`frontend/src/components/TimeSlider.jsx`, lines 32-33), so 3.99 resolves to
  day 3, not day 4 (`TimeSlider.ResolveDay`).
- The drawing layer's nearby search (`frontend/src/components/RoutePlanner.jsx`,
  lines 88-95) only checks that a cell's latitude and longitude are present. It
  never looks at the cell's concentration.

## Model

| member | source | states |
|---|---|---|
| IceGrid.IceData.Width | frontend/src/components/IceHoverInfo.jsx:15 | the width is always positive: a positive width from the record is kept, and a missing or zero width falls back to 1024 |
| IceGrid.IceData.Height | frontend/src/components/IceHoverInfo.jsx:16 | the same for the height: always positive, a positive height from the record is kept, and a missing or zero height falls back to 1024 |
| Nearest.FirstArgMin | frontend/src/components/IceHoverInfo.jsx:20-33 | the running-minimum scan ends with no index iff no candidate has a value; otherwise its index has a least distance, and every earlier candidate is strictly farther (ties go to the first) |
| Nearest.FirstNearestIsFound | frontend/src/components/IceHoverInfo.jsx:29-32 | any index that is first-nearest is exactly the one the scan returns |
| Nearest.UniqueZeroIsFound | frontend/src/components/IceHoverInfo.jsx:29-32 | a candidate at distance 0, with every other present candidate at a positive distance, is the one found |
| Nearest.SkipAbsent | frontend/src/components/IceHoverInfo.jsx:26 | skipped candidates (`continue`) do not change the result |
| Nearest.StepFirstArgMin | frontend/src/components/IceHoverInfo.jsx:28-32 | one loop step: the new candidate replaces the best only when it is present and strictly closer |
| IceUtils.ClampIce | frontend/src/utils/iceUtils.js:4-9 | no data iff the input is no data; otherwise a value in [0, 100], equal to the input when the input already lies in [0, 100] |
| IceUtils.ClampIdempotent | frontend/src/utils/iceUtils.js:8 | clamping twice is clamping once |
| IceUtils.IsVisibleIce | frontend/src/utils/iceUtils.js:13-19 | visible iff the value is present and at least 1, so 0.99 and negatives are hidden and 150 is shown |
| IceUtils.GetIceColor | frontend/src/utils/iceUtils.js:22-39 | a colour iff the value is visible; then r in [0, 198], g in [50, 218], b in [200, 254], opacity in (0.4, 1] |
| IceUtils.HalfIceColor | frontend/src/utils/iceUtils.js:30-36 | 50 % gives rgba(100, 135, 227, 0.7) |
| IceUtils.IceColorDarkens | frontend/src/utils/iceUtils.js:32-36 | between two visible values, the higher has no larger r, g or b and no smaller opacity |
| IceLayer.LayerIceColor | frontend/src/components/IceLayer.jsx:6-23 | the overlay's own colour function agrees with `getIceColor` on every input |
| IceLayer.ToUint8Clamped | frontend/src/components/IceLayer.jsx:92 | storing into the clamped byte buffer: 0 at or below 0, 255 at or above 255, and within 0.5 of the value in between |
| IceLayer.CellPosition | frontend/src/components/IceLayer.jsx:81-87 | cell i sits at row i / width and column i % width, and its row is inside the image iff i < width * height |
| IceLayer.CellIndexInRange | frontend/src/components/IceLayer.jsx:87-88 | a cell that passes the image test has an index below width * height, so its bytes are inside the buffer |
| IceLayer.RasterCell | frontend/src/components/IceLayer.jsx:88-92 | bytes 4i..4i+3 of the finished buffer are cell i's r, g, b and alpha, or four zeros for a cell without colour |
| IceLayer.RasterPixel | frontend/src/components/IceLayer.jsx:81-93 | no flip: pixel (col, row) holds the colour of cell row * width + col |
| IceLayer.AlphaMarksColouredCells | frontend/src/components/IceLayer.jsx:48-58 | a cell's alpha byte is non-zero iff the cell has a colour; cells without colour stay fully transparent |
| IceLayer.GenerateIceImage | frontend/src/components/IceLayer.jsx:26-97 | no image iff the record or one of its three arrays is missing; otherwise a fresh buffer of width * height * 4 bytes equal to the raster of the grid |
| IceLayer.PaintCell | frontend/src/components/IceLayer.jsx:55-93 | one iteration of the cell loop writes only cell i's own four bytes, and only when the cell has a colour and lies in the image |
| IceHoverInfo.LineDist | frontend/src/components/IceHoverInfo.jsx:25-28 | a coordinate without data is skipped; otherwise its distance is non-negative, and zero iff it equals the target |
| IceHoverInfo.ClosestLine | frontend/src/components/IceHoverInfo.jsx:20-33 | the chosen row lies in [0, height); it is 0 when no row has a latitude, and otherwise the first row nearest the cursor |
| IceHoverInfo.IceAtLocation | frontend/src/components/IceHoverInfo.jsx:7-10 | no data when the record or one of its arrays is missing |
| IceHoverInfo.GetIceAtLocation | frontend/src/components/IceHoverInfo.jsx:7-58 | the lookup returns the sample at closest row * width + closest column, or no data when that index is past the end of the concentration array |
| IceHoverInfo.ScanRows | frontend/src/components/IceHoverInfo.jsx:18-33 | the row loop ends at the closest line of the column-0 latitudes |
| IceHoverInfo.ScanColumns | frontend/src/components/IceHoverInfo.jsx:35-50 | the column loop ends at the closest line of the row-0 longitudes |
| IceHoverInfo.RegularGridRoundTrip | frontend/src/components/IceHoverInfo.jsx:5-57 | on a grid whose rows share one latitude and whose columns share one longitude, all distinct, pointing at cell (r, c) reads ice[r * width + c] |
| IceHoverInfo.PopupFor | frontend/src/components/IceHoverInfo.jsx:82-107 | no popup for no data; below 1 % an unhighlighted "not visible" notice; otherwise a highlighted percentage equal to the clamped value, so in [1, 100] and equal to the raw value up to 100 |
| IceHoverInfo.HighlightMatchesOverlay | frontend/src/components/IceHoverInfo.jsx:95-107 | the popup is highlighted exactly where the overlay paints a colour |
| IceHoverInfo.HoverPopup.MouseMove | frontend/src/components/IceHoverInfo.jsx:76-108 | without bounds and dimensions metadata the popup is unchanged; otherwise it becomes the popup for the sample under the cursor |
| IceHoverInfo.HoverPopup.MouseOut | frontend/src/components/IceHoverInfo.jsx:109-111 | leaving the map clears the popup |
| SampledLookup.ClosestSample | frontend/src/components/NavigationPoints.jsx:110-122 | no index iff no multiple of 50 has both coordinates; otherwise such an index no farther than any other and strictly nearer than every earlier one |
| SampledLookup.SampledIce | frontend/src/components/RoutePlannerControls.jsx:29-33 | no reading when the record or one of its arrays is missing |
| SampledLookup.IceAtPoint | frontend/src/components/RoutePlannerControls.jsx:29-51 | `getIceAtPoint` in JavaScript terms: its number is `SampledIce`, and it is `undefined` exactly when the closest candidate indexes past the end of the concentration array |
| SampledLookup.ReadAt | frontend/src/components/RoutePlannerControls.jsx:50 | `ice[closestIdx]`: the stored sample for an index inside the array, `undefined` exactly for one past its end |
| SampledLookup.GetIceAtPoint | frontend/src/components/NavigationPoints.jsx:100-125 | the scan over indices 0, 50, 100, ... returns `null`, `undefined` or the concentration of the closest candidate, exactly as `IceAtPoint` says |
| SampledLookup.SkipToNextStride | frontend/src/components/NavigationPoints.jsx:115 | the indices the `i += 50` step jumps over can never be candidates |
| SampledLookup.SampledIceAtCell | frontend/src/components/RoutePlannerControls.jsx:38-50 | a query at a sampled cell's own coordinates reads that cell's concentration, when every other candidate lies at a positive distance from it |
| SampledLookup.NoDistanceLimit | frontend/src/components/RoutePlannerControls.jsx:41-50 | once one sampled cell has coordinates, every point of the plane finds a closest candidate: there is no distance cut-off |
| Water.SearchNearby | frontend/src/components/RoutePlanner.jsx:79-96 | the every-10th-cell search finds a cell iff one with both coordinates lies strictly within 0.3 degrees; without a longitude array it throws at the first latitude it reads |
| Water.SearchWaterways | frontend/src/components/RoutePlanner.jsx:105-114 | the waterway loop succeeds iff the point is strictly inside one of the circles |
| Water.SearchLakeCenters | frontend/src/components/RoutePlanner.jsx:117-123 | the lake loop succeeds iff the point is strictly within 1 degree of a centre |
| Water.LakeCentersNearThemselves | frontend/src/components/RoutePlanner.jsx:39-45 | every lake centre lies inside the box and counts as near a lake centre |
| Water.WaterwayCentersNearThemselves | frontend/src/components/RoutePlanner.jsx:48-63 | every waterway centre lies inside the box and inside its own circle |
| RoutePlanner.PlannerOnWater | frontend/src/components/RoutePlanner.jsx:66-127 | never water outside the closed box [41, 49] x [-93, -75]; without the three arrays, water only inside a waterway circle or near a lake centre |
| RoutePlanner.IsPointOnWater | frontend/src/components/RoutePlanner.jsx:66-127 | the chain with its `foundNearbyData` flag and early returns computes exactly that rule |
| RoutePlanner.GridDataOnlyAddsWater | frontend/src/components/RoutePlanner.jsx:79-123 | grid data can only turn land into water, never water into land |
| RoutePlanner.CentresAreWater | frontend/src/components/RoutePlanner.jsx:105-123 | every lake centre and every waterway centre is water on every day |
| RoutePlanner.JsRem360 | frontend/src/components/RoutePlanner.jsx:28 | JavaScript's `% 360` keeps the sign of its operand: in [0, 360) for non-negative input, in (-360, 0] for negative input |
| RoutePlanner.NormalizedBearingInRange | frontend/src/components/RoutePlanner.jsx:27-28 | an `atan2` angle in [-180, 180] normalises into [0, 360): a negative angle gains 360, any other is kept |
| RoutePlanner.ClickResult | frontend/src/components/RoutePlanner.jsx:131-145 | a click is ignored iff the layer is not visible and drawing; it appends iff it is, and the point is water; a land click goes to the land-point handler with the point when there is one, and to the alert otherwise |
| RoutePlanner.Route.Click | frontend/src/components/RoutePlanner.jsx:130-148 | an accepted click appends exactly the clicked point at the end; any other click leaves the route unchanged; every waypoint stays inside the box |
| RoutePlannerControls.ControlsWaterCheck | frontend/src/components/RoutePlannerControls.jsx:82-135 | never water outside the box; inside it, water when `getIceAtPoint` is not `null` (a reading, or `undefined` past the end of a short concentration array); a TypeError only when the record lacks latitudes or longitudes; with no record, water iff inside a waterway circle or near a lake centre |
| RoutePlannerControls.IsPointOnWater | frontend/src/components/RoutePlannerControls.jsx:82-135 | the chain with its early returns computes exactly that classification |
| RoutePlannerControls.FullGridFloodsBox | frontend/src/components/RoutePlannerControls.jsx:95-100 | on a grid whose sampled cells all carry a concentration, every point of the box is water |
| RoutePlannerControls.PlannerWaterIsControlsWater | frontend/src/components/RoutePlannerControls.jsx:94-113 | a point the drawing layer accepts also passes this classifier, when there is no record or the record has both coordinate arrays |
| RoutePlannerControls.MissingLongitudesThrow | frontend/src/components/RoutePlannerControls.jsx:103-107 | with latitudes but no longitudes, a lake centre is water for the drawing layer while this classifier throws |
| RoutePlannerControls.MissingCoordinatesThrow | frontend/src/components/RoutePlannerControls.jsx:95-107 | with neither coordinate array, a lake centre is water for the drawing layer while this classifier throws at `lats.length` |
| RoutePlannerControls.UndefinedReadIsWater | frontend/src/components/RoutePlannerControls.jsx:50-98 | with a concentration array shorter than the coordinates, a point whose closest candidate lies past its end has no reading, yet `getIceAtPoint` gives `undefined` and the point is water |
| RoutePlannerControls.LegSamples | frontend/src/components/RoutePlannerControls.jsx:148-153 | six samples per leg, the first the leg's start and the last its end |
| RoutePlannerControls.RouteSamples | frontend/src/components/RoutePlannerControls.jsx:143-154 | n >= 2 waypoints give exactly 6 * (n - 1) samples; fewer give none |
| RoutePlannerControls.RouteSampleOnLeg | frontend/src/components/RoutePlannerControls.jsx:143-153 | sample 6i + j lies on leg i at t = j / 5, so samples 6i and 6i + 5 are waypoints i and i + 1 |
| RoutePlannerControls.SampleRoute | frontend/src/components/RoutePlannerControls.jsx:142-154 | the nested push loops produce exactly those samples, in order |
| RoutePlannerControls.IceValues | frontend/src/components/RoutePlannerControls.jsx:157-159 | the `map`/`filter` keeps at most one reading per sample, and yields no reading iff no sample has one |
| RoutePlannerControls.IceValuesFromSamples | frontend/src/components/RoutePlannerControls.jsx:157-159 | every kept reading is the lookup result of some sample |
| RoutePlannerControls.IceValuesKeepsReadings | frontend/src/components/RoutePlannerControls.jsx:157-159 | every sample that has a reading contributes it |
| RoutePlannerControls.CollectIceValues | frontend/src/components/RoutePlannerControls.jsx:157-159 | the lookup loop collects exactly those readings |
| RoutePlannerControls.MaxOf | frontend/src/components/RoutePlannerControls.jsx:164 | `Math.max(...)` is one of the readings and no smaller than any |
| RoutePlannerControls.CountAbove | frontend/src/components/RoutePlannerControls.jsx:165 | the high-ice count never exceeds the number of readings |
| RoutePlannerControls.MeanBetween | frontend/src/components/RoutePlannerControls.jsx:163 | the mean of readings in [lo, hi] lies in [lo, hi] |
| RoutePlannerControls.MeanWithinReadings | frontend/src/components/RoutePlannerControls.jsx:163-164 | `avgIce` lies between the smallest reading and `maxIce` |
| RoutePlannerControls.UniformReadings | frontend/src/components/RoutePlannerControls.jsx:163-165 | readings that all equal c have mean c, and all count as high ice iff c > 70 |
| RoutePlannerControls.SeverityOf | frontend/src/components/RoutePlannerControls.jsx:167-178 | blocked iff avg > 70, difficult iff 50 < avg <= 70, moderate iff 30 < avg <= 50, clear iff avg <= 30 |
| RoutePlannerControls.SeverityMonotone | frontend/src/components/RoutePlannerControls.jsx:169-178 | a higher mean never gives a lower severity |
| RoutePlannerControls.SeverityColorsDistinct | frontend/src/components/RoutePlannerControls.jsx:168-177 | two levels share a colour iff they are the same level |
| RoutePlannerControls.RouteLengthNonNegative | frontend/src/components/RoutePlannerControls.jsx:181-193 | with a non-negative leg distance, the summed route length is non-negative |
| RoutePlannerControls.Analyze | frontend/src/components/RoutePlannerControls.jsx:138-209 | no analysis iff there is no record, there are fewer than two waypoints, or no sample has a reading; otherwise avg <= max, the high-ice count is at most 6 * (n - 1), the colour matches the severity, and the route is blocked iff avg > 70 |
| RoutePlannerControls.AnalyzeRoute | frontend/src/components/RoutePlannerControls.jsx:138-209 | the memo body, with its sampling, lookup and length loops, computes exactly that analysis |
| RoutePlannerControls.MeasureRoute | frontend/src/components/RoutePlannerControls.jsx:180-193 | the length loop adds up the leg distances of consecutive waypoints, in route order |
| RoutePlannerControls.LandCount | frontend/src/components/RoutePlannerControls.jsx:357 | the number of land waypoints is at most the number of waypoints |
| RoutePlannerControls.LandCountZero | frontend/src/components/RoutePlannerControls.jsx:357-359 | no land waypoint iff every waypoint is water |
| RoutePlannerControls.ExportOpensIffAllWater | frontend/src/components/RoutePlannerControls.jsx:355-365 | the dialog opens iff every waypoint is water; a single land waypoint blocks it |
| RoutePlannerControls.DrawnRouteExports | frontend/src/components/RoutePlannerControls.jsx:355-365 | a route built from points the drawing layer accepted can be exported, when there is no record or the record has both coordinate arrays |
| RoutePlannerControls.ExportClick | frontend/src/components/RoutePlannerControls.jsx:355-365 | the click handler aborts on a thrown classifier, warns with the land count, or opens the dialog, as the rule says |
| TimeSlider.ResolveDay | frontend/src/components/TimeSlider.jsx:32-33 | flooring (v - 1) * 5 and then the step / 5 gives exactly the whole part of v, so 2.2 gives 2, 3.99 gives 3 and 4.0 gives 4 |
| TimeSlider.ResolvedDayInRange | frontend/src/components/TimeSlider.jsx:32-33 | a slider value in [1, 4] resolves to a day in [1, 4] |
| TimeSlider.DayToLoad | frontend/src/components/TimeSlider.jsx:35-37 | `onDayChange` fires iff the resolved day differs from the current day and lies in [1, 4], and then with that day |
| TimeSlider.SameDayNoReload | frontend/src/components/TimeSlider.jsx:32-37 | moving within one day never reloads it |
| TimeSlider.Progress | frontend/src/components/TimeSlider.jsx:55 | progress lies in [0, 100] for v in [1, 4]: 0 at day 1, 100 at day 4 |
| TimeSlider.Slider.constructor | frontend/src/components/TimeSlider.jsx:4-5 | the slider starts at the current day, not playing |
| TimeSlider.Slider.Tick | frontend/src/components/TimeSlider.jsx:12-22 | a tick adds 0.05; on reaching 4 the value becomes exactly 4 and playback stops; values below 4 are reported; the value never exceeds 4 |
| TimeSlider.Slider.SliderChange | frontend/src/components/TimeSlider.jsx:40-46 | a dragged value becomes the slider value and is reported |
| TimeSlider.Slider.PlayPause | frontend/src/components/TimeSlider.jsx:48-53 | at or past 4 the slider first returns to 1; playback then toggles |
| TimeSlider.PlaybackStops | frontend/src/components/TimeSlider.jsx:12-17 | playback from any value in [1, 4) stops after at most 60 ticks |
| MapView.Widen | frontend/src/components/Map.jsx:72-76 | the running min/max box contains the new point and everything the old box contained |
| MapView.ExtentCharacterised | frontend/src/components/Map.jsx:66-83 | the fold has a box iff some cell contributes; the box is ordered, contains every contributor, and each edge is a contributor's coordinate (the tightest such box) |
| MapView.ExtentSkip | frontend/src/components/Map.jsx:67 | cells that do not contribute leave the box unchanged |
| MapView.ViewBounds | frontend/src/components/Map.jsx:52-53 | without data the view is the default box [[38.87, -92.41], [50.60, -75.87]] |
| MapView.GridViewFitsIce | frontend/src/components/Map.jsx:62-83 | with a contributing cell, the view is exactly the extent of the contributing cells, so it is the tightest ordered box around them and the metadata is ignored |
| MapView.NoIceUsesMetadata | frontend/src/components/Map.jsx:86-94 | with no contributing cell, the view is the metadata box when there is one, else the default |
| MapView.ComputeBounds | frontend/src/components/Map.jsx:52-95 | the every-100th loop with its four running extremes and `hasValidData` computes exactly that view |
| MapView.Center | frontend/src/components/Map.jsx:98-101 | the centre is equidistant from both corners on each axis, and inside the box when the box is ordered |
| MapView.CenterInsideView | frontend/src/components/Map.jsx:52-101 | with ordered metadata, the view is ordered and its centre lies inside it |
| NavigationPoints.HazardOf | frontend/src/components/NavigationPoints.jsx:132 | high iff above 70, medium iff in (40, 70], low iff in (15, 40], minimal otherwise, including no reading |
| NavigationPoints.HazardMonotone | frontend/src/components/NavigationPoints.jsx:132 | more ice never gives a lower hazard |
| NavigationPoints.HazardColor | frontend/src/components/NavigationPoints.jsx:133 | each hazard colour is a `#rrggbb` code: '#' followed by six lower-case hexadecimal digits |
| NavigationPoints.HazardColorInjective | frontend/src/components/NavigationPoints.jsx:133 | two levels share a colour iff they are the same level |
| NavigationPoints.ReportFor | frontend/src/components/NavigationPoints.jsx:131-133 | the concentration block shows exactly the reading, the badge carries its hazard and that hazard's colour, and no reading means minimal |
| NavigationPoints.Reports | frontend/src/components/NavigationPoints.jsx:130-133 | one report per chokepoint, in table order, each from the sampled lookup at its own position; without data every hazard is minimal |
| NavigationPoints.BuildReports | frontend/src/components/NavigationPoints.jsx:130-133 | the per-chokepoint loop yields exactly those reports |
| NavigationPoints.ChokepointReport | frontend/src/components/NavigationPoints.jsx:130-133 | one callback run reports the sampled lookup at the chokepoint's position |
| RouteExportModal.LabelOf | frontend/src/components/RouteExportModal.jsx:10 | "Start" iff the first point, "End" iff the last point and not the first, otherwise "Waypoint idx"; a one-point route is labelled "Start" |
| RouteExportModal.LabelsUnique | frontend/src/components/RouteExportModal.jsx:10 | no two points of a route share a label |
| RouteExportModal.ConvertToDms | frontend/src/components/RouteExportModal.jsx:22-29 | degrees are the floor of the magnitude; minutes lie in [0, 59] and seconds in [0, 60); the letter is N/S or E/W by sign |
| RouteExportModal.DmsRoundTrip | frontend/src/components/RouteExportModal.jsx:22-29 | degrees + minutes / 60 + seconds / 3600 is the magnitude, and the letter restores the sign |
| RouteExportModal.DmsLongitudeAlwaysEast | frontend/src/components/RouteExportModal.jsx:15-16 | as written, every longitude is labelled E, and a western longitude reads back with the wrong sign |
| RouteExportModal.SooLocksListedEast | frontend/src/components/RouteExportModal.jsx:16 | the Soo Locks at longitude -84.3475 are listed as 84.3475 east |
| RouteExportModal.DmsLine | frontend/src/components/RouteExportModal.jsx:15-17 | the corrected DMS line reads back to the waypoint, with W for a negative longitude |
| RouteExportModal.FormatCoordinatesAsWritten | frontend/src/components/RouteExportModal.jsx:8-20 | as written: the decimal listing equals the corrected one, and every DMS line is the `Math.abs` line of line 16 |
| RouteExportModal.ListingAsWrittenLosesWest | frontend/src/components/RouteExportModal.jsx:13-17 | as written, the DMS listing of a route with any western waypoint does not read back to the route |
| RouteExportModal.FormatCoordinates | frontend/src/components/RouteExportModal.jsx:8-20 | the corrected listing: one line per waypoint, in route order, each with its label and that waypoint's coordinates; its DMS lines use the signed longitude (`DmsLine`), not line 16 as written |
| RouteExportModal.ListingRoundTrip | frontend/src/components/RouteExportModal.jsx:8-20 | either corrected listing, decimal or DMS, reads back to the route itself |
| RouteExportModal.GenerateGpx | frontend/src/components/RouteExportModal.jsx:59-87 | the route element and the waypoint list have one element per waypoint, and they are the same list; the description counts the waypoints |
| RouteExportModal.GpxRoundTrip | frontend/src/components/RouteExportModal.jsx:69-86 | both the `rtept` list and the `wpt` list read back to the route in order; with two or more points they run from "Start" to "End" |
| RouteExportModal.MarineTrafficCentre | frontend/src/components/RouteExportModal.jsx:54 | no centre iff the route is empty; otherwise the point at index n / 2, which splits the route into halves whose sizes differ by at most one |

## Left out

- Data loading (`fetch` of the per-day files, loading and error state) is I/O.
  The model takes one day's record as an `Option<IceData>` input.
- UI-only components (day selector, info panel, legend, navigation controls)
  only render markup or flip a visibility flag, so they are not modelled. The
  same goes for all JSX markup, panel dragging, React memoisation and effect
  ordering.
- Leaflet and canvas plumbing is left out: image overlay add/remove,
  `putImageData`, `canvas.toDataURL`, and the map updaters with their zoom
  timers. `IceLayer.GenerateIceImage` returns the byte buffer instead of a data URL.
- The haversine distance and the bearing trigonometry are transcendental
  floating point. `RoutePlannerControls.RouteLength` takes the leg distance as a
  function parameter. `RoutePlanner.NormalizeBearing` takes the `atan2` angle as
  its input.
- String formatting is not modelled: `toFixed`, the `rgba(...)` string and its
  regex re-parse, the popup and listing texts, the `'\n'` join, the GPX text,
  its timestamp and the MarineTraffic URL. Colours are tuples, popups and
  listing lines are datatypes, and the GPX document is its route and waypoint
  elements.
- Timers and browser side effects are not modelled: the 150 ms interval,
  clipboard, Blob download, `window.open`, `alert` and console logging.
  `TimeSlider.Slider.Tick` is one interval callback.
- The descriptive metadata of chokepoints and icebreakers is not modelled; only
  the chokepoint positions feed the hazard lookup.
- Floating point is modelled with exact reals. The 0.05 playback step does not
  accumulate rounding error, and `isFinite(minLat)` in the bounds memo always
  holds once a cell has contributed.
- `RoutePlannerControls.IceValues` drops every missing reading. The source's
  `v !== null` keeps an `undefined` read past the end of the concentration
  array, and that would make the mean NaN. The model assumes the three arrays
  have equal length, as the data files do. The water check
  (`RoutePlannerControls.ControlsWaterCheck`) does model that `undefined`.
- `RouteExportModal.FormatCoordinates` is the corrected listing: its DMS lines
  carry the signed longitude. The listing as written, whose DMS longitudes are
  always east, is `RouteExportModal.FormatCoordinatesAsWritten` (see Findings).
- `NavigationPoints.ReportFor` treats an `undefined` reading as no reading. In
  the source it passes `iceConc !== null` and makes `toFixed` throw.
- `RoutePlannerControls.ControlsWaterCheck` folds `NaN` coordinates into no
  data. The source's `lats[i] === null` tests let `NaN` through to a `lons[i]`
  read. JSON data cannot carry `NaN`, so this only matters for the thrown
  `TypeError` case.
- `RoutePlannerControls.SampleRoute` requires at least two waypoints, because
  `routeAnalysis` returns early before sampling otherwise.
- `RoutePlannerControls.ExportClick` accepts any route. The source shows the
  button only for two or more waypoints.
- `TimeSlider.Slider.SliderChange` requires a value in [1, 4], because the range
  input's `min`/`max` keep the browser from producing anything else.
- `SampledLookup.SampledIceAtCell` assumes that every other sampled cell lies at
  a positive distance from the queried cell. With duplicate coordinates, the
  scan keeps the earlier cell.

## Findings

| source | as written | input that shows it | evidently intended | confidence | as-written member | corrected member |
|---|---|---|---|---|---|---|
| frontend/src/components/RouteExportModal.jsx:16 | the DMS listing passes `Math.abs(lon)` to `convertToDMS`, which then always picks 'E' | the Soo Locks waypoint (46.5063, -84.3475) is listed as 84°20'51.00"E | pass the signed longitude so `convertToDMS` picks 'W' for it: 84°20'51.00"W | high, not executed | RouteExportModal.DmsLongitudeAlwaysEast | RouteExportModal.DmsLine |
