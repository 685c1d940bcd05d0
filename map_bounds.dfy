// The map's initial view (frontend/src/components/Map.jsx): the bounding box of
// the sampled grid cells that carry ice, the metadata box when there are none,
// a fixed Great Lakes box when there is no data at all, and the view centre.
module MapView {

  import opened IceGrid

  /** `[[south, west], [north, east]]`. */
  datatype Box = Box(southWest: Point, northEast: Point)
  {
    /** Both corners are in order. */
    predicate Ordered()
    {
      southWest.lat <= northEast.lat && southWest.lon <= northEast.lon
    }

    predicate Contains(p: Point)
    {
      southWest.lat <= p.lat <= northEast.lat && southWest.lon <= p.lon <= northEast.lon
    }
  }

  /** The box used without data, or when neither the grid nor the metadata gives one. */
  const DefaultBox: Box := Box(Point(38.87, -92.41), Point(50.60, -75.87))

  /** `sampleRate`: every 100th cell is looked at. */
  const SampleRate: nat := 100

  /** Cell `i` widens the box: it is a sampled index within the ice array, its
      concentration is present and positive, and both coordinates are present. */
  predicate Contributor(ice: seq<Sample>, lats: seq<Sample>, lons: seq<Sample>, i: int)
  {
    && 0 <= i < |ice| && i % SampleRate == 0
    && At(ice, i).Some? && At(ice, i).value > 0.0
    && At(lats, i).Some? && At(lons, i).Some?
  }

  function CellAt(lats: seq<Sample>, lons: seq<Sample>, i: int): Point
    requires At(lats, i).Some? && At(lons, i).Some?
  {
    Point(At(lats, i).value, At(lons, i).value)
  }

  function Min(a: real, b: real): real { if a <= b then a else b }
  function Max(a: real, b: real): real { if a >= b then a else b }

  /** The running `Math.min`/`Math.max` update; no box yet plays the part of
      the infinite initial values. */
  function Widen(b: Option<Box>, p: Point): (w: Box)
    ensures w.Contains(p)
    ensures b.Some? && b.value.Ordered() ==> w.Ordered()
    ensures b.Some? ==> forall q | b.value.Contains(q) :: w.Contains(q)
  {
    if b.None? then Box(p, p)
    else Box(Point(Min(b.value.southWest.lat, p.lat), Min(b.value.southWest.lon, p.lon)),
             Point(Max(b.value.northEast.lat, p.lat), Max(b.value.northEast.lon, p.lon)))
  }

  /** The box over the contributors among the first `n` indices. */
  function Extent(ice: seq<Sample>, lats: seq<Sample>, lons: seq<Sample>, n: nat): Option<Box>
  {
    if n == 0 then None
    else
      var prev := Extent(ice, lats, lons, n - 1);
      if Contributor(ice, lats, lons, n - 1) then Some(Widen(prev, CellAt(lats, lons, n - 1))) else prev
  }

  /** The extent exists exactly when some contributor was seen; it is ordered,
      contains every contributor, and each of its four edges is some
      contributor's coordinate, so no smaller box contains them all. */
  lemma {:induction false} ExtentCharacterised(ice: seq<Sample>, lats: seq<Sample>, lons: seq<Sample>, n: nat)
    ensures var e := Extent(ice, lats, lons, n);
      && (e.None? <==> forall i | 0 <= i < n :: !Contributor(ice, lats, lons, i))
      && (e.Some? ==> e.value.Ordered())
      && (e.Some? ==> forall i | 0 <= i < n && Contributor(ice, lats, lons, i) :: e.value.Contains(CellAt(lats, lons, i)))
      && (e.Some? ==> exists i | 0 <= i < n && Contributor(ice, lats, lons, i) :: CellAt(lats, lons, i).lat == e.value.southWest.lat)
      && (e.Some? ==> exists i | 0 <= i < n && Contributor(ice, lats, lons, i) :: CellAt(lats, lons, i).lat == e.value.northEast.lat)
      && (e.Some? ==> exists i | 0 <= i < n && Contributor(ice, lats, lons, i) :: CellAt(lats, lons, i).lon == e.value.southWest.lon)
      && (e.Some? ==> exists i | 0 <= i < n && Contributor(ice, lats, lons, i) :: CellAt(lats, lons, i).lon == e.value.northEast.lon)
  {
    if n > 0 {
      ExtentCharacterised(ice, lats, lons, n - 1);
    }
  }

  /** Indices that are not contributors leave the extent as it is. */
  lemma {:induction false} ExtentSkip(ice: seq<Sample>, lats: seq<Sample>, lons: seq<Sample>, a: nat, b: nat)
    requires a <= b
    requires forall i | a <= i < b :: !Contributor(ice, lats, lons, i)
    ensures Extent(ice, lats, lons, b) == Extent(ice, lats, lons, a)
    decreases b - a
  {
    if a < b {
      ExtentSkip(ice, lats, lons, a, b - 1);
    }
  }

  /** The metadata fallback `[[south, west], [north, east]]`. */
  function MetadataBox(g: GeoBounds): Box
  {
    Box(Point(g.south, g.west), Point(g.north, g.east))
  }

  /** The `bounds` memo: no data gives the default box; with the three arrays
      and at least one contributor, their extent; otherwise the metadata
      bounds when present, and the default box last. */
  function ViewBounds(data: Option<IceData>): (b: Box)
    ensures data.None? ==> b == DefaultBox
  {
    if data.None? then DefaultBox
    else
      var d := data.value;
      var e := if d.HasArrays() then Extent(d.ice.value, d.lats.value, d.lons.value, |d.ice.value|) else None;
      if e.Some? then e.value
      else if d.bounds.Some? then MetadataBox(d.bounds.value)
      else DefaultBox
  }

  /** When the grid has a positive, located, sampled reading, the view is the
      tightest box around all such readings and is ordered; the metadata is
      ignored. */
  lemma GridViewFitsIce(d: IceData, i: nat)
    requires d.HasArrays() && Contributor(d.ice.value, d.lats.value, d.lons.value, i)
    ensures Extent(d.ice.value, d.lats.value, d.lons.value, |d.ice.value|).Some?
      && ViewBounds(Some(d)) == Extent(d.ice.value, d.lats.value, d.lons.value, |d.ice.value|).value
    ensures ViewBounds(Some(d)).Ordered()
    ensures forall j | Contributor(d.ice.value, d.lats.value, d.lons.value, j) ::
      ViewBounds(Some(d)).Contains(CellAt(d.lats.value, d.lons.value, j))
  {
    ExtentCharacterised(d.ice.value, d.lats.value, d.lons.value, |d.ice.value|);
  }

  /** Without any contributor the view is the metadata box, or the default. */
  lemma NoIceUsesMetadata(d: IceData)
    requires forall j :: !(d.HasArrays() && Contributor(d.ice.value, d.lats.value, d.lons.value, j))
    ensures d.bounds.Some? ==> ViewBounds(Some(d)) == MetadataBox(d.bounds.value)
    ensures d.bounds.None? ==> ViewBounds(Some(d)) == DefaultBox
  {
    if d.HasArrays() {
      ExtentCharacterised(d.ice.value, d.lats.value, d.lons.value, |d.ice.value|);
    }
  }

  lemma MultipleOfSampleRate(m: nat)
    ensures (SampleRate * m) % SampleRate == 0
  {
  }

  lemma OffSampleRate(i: nat, j: nat)
    requires i % SampleRate == 0 && i < j < i + SampleRate
    ensures j % SampleRate != 0
  {
    assert j == i + (j - i) && 0 < j - i < SampleRate;
  }

  /** The memo body: the `i += sampleRate` loop with the four running extremes
      and `hasValidData`, then the metadata and default fallbacks. */
  method ComputeBounds(iceData: Option<IceData>) returns (b: Box)
    ensures b == ViewBounds(iceData)
  {
    if iceData.None? {
      return DefaultBox;
    }
    var d := iceData.value;
    if d.HasArrays() {
      var ice, lats, lons := d.ice.value, d.lats.value, d.lons.value;
      var minLat, maxLat, minLon, maxLon := 0.0, 0.0, 0.0, 0.0;
      var hasValidData := false;
      var i := 0;
      ghost var m := 0;
      while i < |ice|
        invariant i == SampleRate * m
        invariant var e := Extent(ice, lats, lons, if i < |ice| then i else |ice|);
          (hasValidData <==> e.Some?)
          && (hasValidData ==> e.value == Box(Point(minLat, minLon), Point(maxLat, maxLon)))
        decreases |ice| - i
      {
        MultipleOfSampleRate(m);
        var v := At(ice, i);
        if v.Some? && v.value > 0.0 {
          var lat := At(lats, i);
          var lon := At(lons, i);
          if lat.Some? && lon.Some? {
            minLat := if hasValidData then Min(minLat, lat.value) else lat.value;
            maxLat := if hasValidData then Max(maxLat, lat.value) else lat.value;
            minLon := if hasValidData then Min(minLon, lon.value) else lon.value;
            maxLon := if hasValidData then Max(maxLon, lon.value) else lon.value;
            hasValidData := true;
          }
        }
        var next := if i + SampleRate < |ice| then i + SampleRate else |ice|;
        forall j | i + 1 <= j < next
          ensures !Contributor(ice, lats, lons, j)
        {
          OffSampleRate(i, j);
        }
        ExtentSkip(ice, lats, lons, i + 1, next);
        i := i + SampleRate;
        m := m + 1;
      }
      if hasValidData {
        return Box(Point(minLat, minLon), Point(maxLat, maxLon));
      }
    }
    if d.bounds.Some? {
      return MetadataBox(d.bounds.value);
    }
    return DefaultBox;
  }

  /** The `center` memo: the midpoint of the two corners. */
  function Center(b: Box): (c: Point)
    ensures b.Ordered() ==> b.Contains(c)
    ensures c.lat - b.southWest.lat == b.northEast.lat - c.lat
    ensures c.lon - b.southWest.lon == b.northEast.lon - c.lon
  {
    Point((b.southWest.lat + b.northEast.lat) / 2.0, (b.southWest.lon + b.northEast.lon) / 2.0)
  }

  /** The view opens centred inside its box whenever that box is ordered, which
      the default box and every grid extent are. */
  lemma CenterInsideView(data: Option<IceData>)
    requires data.Some? && data.value.bounds.Some? ==>
      data.value.bounds.value.south <= data.value.bounds.value.north
      && data.value.bounds.value.west <= data.value.bounds.value.east
    ensures ViewBounds(data).Ordered()
    ensures ViewBounds(data).Contains(Center(ViewBounds(data)))
  {
    if data.Some? && data.value.HasArrays() {
      var d := data.value;
      ExtentCharacterised(d.ice.value, d.lats.value, d.lons.value, |d.ice.value|);
    }
  }
}
