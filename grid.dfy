// The shared data model: one forecast day's ice grid as the viewer receives it
// (the per-day JSON record with ice_concentration, latitude, longitude,
// dimensions and bounds), and the small helpers every component uses on it.
module IceGrid {

  datatype Option<T> = None | Some(value: T)
  {
    function GetOr(default: T): T
    {
      if Some? then value else default
    }
  }

  /** One entry of a flat grid array. `None` stands for "no data": a JavaScript
      null, undefined (a read past the end of an array) or NaN. */
  type Sample = Option<real>

  /** A `[lat, lon]` pair in degrees. */
  datatype Point = Point(lat: real, lon: real)

  datatype Dimensions = Dimensions(width: nat, height: nat)

  datatype GeoBounds = GeoBounds(south: real, north: real, west: real, east: real)

  /** One day's dataset. Each of the three flat arrays may be missing from the
      record; the arrays are row-major (row 0 north, column 0 west). */
  datatype IceData = IceData(
    ice: Option<seq<Sample>>,
    lats: Option<seq<Sample>>,
    lons: Option<seq<Sample>>,
    dimensions: Option<Dimensions>,
    bounds: Option<GeoBounds>)
  {
    /** All three arrays are present (JavaScript arrays are truthy even when empty). */
    predicate HasArrays()
    {
      ice.Some? && lats.Some? && lons.Some?
    }

    /** `dimensions?.width || 1024`: a missing or zero width falls back to 1024. */
    function Width(): (w: nat)
      ensures w > 0
      ensures dimensions.Some? && dimensions.value.width > 0 ==> w == dimensions.value.width
      ensures !(dimensions.Some? && dimensions.value.width > 0) ==> w == 1024
    {
      if dimensions.Some? && dimensions.value.width != 0 then dimensions.value.width else 1024
    }

    /** `dimensions?.height || 1024`. */
    function Height(): (h: nat)
      ensures h > 0
      ensures dimensions.Some? && dimensions.value.height > 0 ==> h == dimensions.value.height
      ensures !(dimensions.Some? && dimensions.value.height > 0) ==> h == 1024
    {
      if dimensions.Some? && dimensions.value.height != 0 then dimensions.value.height else 1024
    }
  }

  /** Indexing a JavaScript array: a read outside it yields undefined, i.e. no data. */
  function At(s: seq<Sample>, i: int): Sample
  {
    if 0 <= i < |s| then s[i] else None
  }

  function Abs(x: real): real
  {
    if x < 0.0 then -x else x
  }

  /** Squared planar distance in degrees. The source compares
      `Math.sqrt(dLat^2 + dLon^2)` values; the square root preserves their order,
      and `sqrt(d) < r` holds exactly when `d < r * r` for a positive radius. */
  function SqDist(a: Point, b: Point): real
  {
    (a.lat - b.lat) * (a.lat - b.lat) + (a.lon - b.lon) * (a.lon - b.lon)
  }
}
