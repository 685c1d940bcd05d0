// The decimated nearest-point lookup `getIceAtPoint`, written out identically in
// frontend/src/components/NavigationPoints.jsx and in
// frontend/src/components/RoutePlannerControls.jsx: it looks only at every 50th
// cell and returns the concentration of the closest one, however far away it is.
module SampledLookup {

  import opened IceGrid
  import opened Nearest

  /** Only indices 0, 50, 100, ... are looked at. */
  const Stride: nat := 50

  /** Index `j` takes part in the scan: it is a multiple of the stride inside the
      latitude array, and both of its coordinates are present. */
  predicate Candidate(lats: seq<Sample>, lons: seq<Sample>, j: int)
  {
    0 <= j < |lats| && j % Stride == 0 && At(lats, j).Some? && At(lons, j).Some?
  }

  /** Where candidate `j` lies. */
  function CellPoint(lats: seq<Sample>, lons: seq<Sample>, j: int): Point
    requires Candidate(lats, lons, j)
  {
    Point(At(lats, j).value, At(lons, j).value)
  }

  /** The scan's view of the latitude array: the squared distance of each
      candidate from `p`, nothing for every other index. */
  function SampleDists(lats: seq<Sample>, lons: seq<Sample>, p: Point): (ds: seq<Option<real>>)
    ensures |ds| == |lats|
  {
    seq(|lats|, j requires 0 <= j < |lats| =>
      if Candidate(lats, lons, j) then Some(SqDist(CellPoint(lats, lons, j), p)) else None)
  }

  /** The index the scan ends with: nothing exactly when there is no candidate;
      otherwise a candidate no farther from `p` than any other candidate, and
      strictly nearer than every candidate before it. */
  function ClosestSample(lats: seq<Sample>, lons: seq<Sample>, p: Point): (k: Option<nat>)
    ensures k.None? <==> forall j :: !Candidate(lats, lons, j)
    ensures k.Some? ==> Candidate(lats, lons, k.value)
    ensures k.Some? ==> forall j | Candidate(lats, lons, j) ::
      SqDist(CellPoint(lats, lons, k.value), p) <= SqDist(CellPoint(lats, lons, j), p)
    ensures k.Some? ==> forall j | 0 <= j < k.value && Candidate(lats, lons, j) ::
      SqDist(CellPoint(lats, lons, k.value), p) < SqDist(CellPoint(lats, lons, j), p)
  {
    var ds := SampleDists(lats, lons, p);
    assert forall j | Candidate(lats, lons, j) :: ds[j].Some?;
    FirstArgMin(ds)
  }

  /** `getIceAtPoint` as a value: no data without the three arrays or without a
      candidate; otherwise the concentration stored at the closest candidate. */
  function SampledIce(data: Option<IceData>, p: Point): (r: Sample)
    ensures data.None? || !data.value.HasArrays() ==> r.None?
  {
    if data.None? || !data.value.HasArrays() then None
    else
      var k := ClosestSample(data.value.lats.value, data.value.lons.value, p);
      if k.None? then None else At(data.value.ice.value, k.value)
  }

  /** What `getIceAtPoint` returns, as `!== null` tells it apart: `null`
      without the arrays, without a candidate or at a null entry; `undefined`
      when the closest candidate lies past the end of the concentration array;
      otherwise the number stored there. */
  datatype IceRead = Null | Undefined | Reading(value: real)
  {
    /** The reading as a sample: `null` and `undefined` are both no data. */
    function Number(): Sample
    {
      if Reading? then Some(value) else None
    }
  }

  /** `getIceAtPoint` in JavaScript terms. Its number is `SampledIce`, and it is
      `undefined` exactly when the closest candidate indexes past the end of the
      concentration array. */
  function IceAtPoint(data: Option<IceData>, p: Point): (r: IceRead)
    ensures r.Number() == SampledIce(data, p)
    ensures r.Undefined? <==>
      (&& data.Some? && data.value.HasArrays()
       && ClosestSample(data.value.lats.value, data.value.lons.value, p).Some?
       && ClosestSample(data.value.lats.value, data.value.lons.value, p).value >= |data.value.ice.value|)
  {
    if data.None? || !data.value.HasArrays() then Null
    else
      var k := ClosestSample(data.value.lats.value, data.value.lons.value, p);
      if k.None? then Null
      else ReadAt(data.value.ice.value, k.value)
  }

  /** `ice[i]` for an index the scan produced. */
  function ReadAt(ice: seq<Sample>, i: nat): (r: IceRead)
    ensures r.Number() == At(ice, i)
    ensures r.Undefined? <==> i >= |ice|
  {
    if i >= |ice| then Undefined
    else if ice[i].Some? then Reading(ice[i].value)
    else Null
  }

  /** `getIceAtPoint`: a loop over 0, 50, 100, ... keeping the running minimum
      (`None` playing the part of the initial `Infinity`, -1 of "no index yet"). */
  method GetIceAtPoint(iceData: Option<IceData>, lat: real, lon: real) returns (value: IceRead)
    ensures value == IceAtPoint(iceData, Point(lat, lon))
  {
    if iceData.None? || !iceData.value.HasArrays() {
      return Null;
    }
    var lats := iceData.value.lats.value;
    var lons := iceData.value.lons.value;
    var ice := iceData.value.ice.value;
    var p := Point(lat, lon);
    ghost var ds := SampleDists(lats, lons, p);

    var minDist: Option<real> := None;
    var closestIdx := -1;
    var i := 0;
    ghost var m := 0;
    while i < |lats|
      invariant 0 <= i && i == Stride * m
      invariant FirstArgMin(ds[..if i < |lats| then i else |lats|]) ==
        if closestIdx < 0 then None else Some(closestIdx)
      invariant -1 <= closestIdx && (closestIdx < 0 <==> minDist.None?)
      invariant closestIdx >= 0 ==> closestIdx < i && closestIdx < |lats| && ds[closestIdx] == minDist
      decreases |lats| - i
    {
      MultipleOfStride(m);
      StepFirstArgMin(ds, i);
      var gridLat := At(lats, i);
      var gridLon := At(lons, i);
      if gridLat.Some? && gridLon.Some? {
        var dist := SqDist(Point(gridLat.value, gridLon.value), p);
        if minDist.None? || dist < minDist.value {
          minDist := Some(dist);
          closestIdx := i;
        }
      }
      SkipToNextStride(lats, lons, p, i);
      i := i + Stride;
      m := m + 1;
    }
    assert ds[..|lats|] == ds;
    value := if closestIdx >= 0 then ReadAt(ice, closestIdx) else Null;
  }

  lemma MultipleOfStride(m: nat)
    ensures (Stride * m) % Stride == 0
  {
  }

  /** Between two consecutive multiples of the stride no index is a multiple. */
  lemma OffStride(i: nat, j: nat)
    requires i % Stride == 0 && i < j < i + Stride
    ensures j % Stride != 0
  {
    assert j == i + (j - i) && 0 < j - i < Stride;
  }

  /** The indices between two multiples of the stride are never candidates, so
      the scan may jump straight to the next multiple. */
  lemma SkipToNextStride(lats: seq<Sample>, lons: seq<Sample>, p: Point, i: nat)
    requires i < |lats| && i % Stride == 0
    ensures var ds := SampleDists(lats, lons, p);
      var next := if i + Stride < |lats| then i + Stride else |lats|;
      FirstArgMin(ds[..next]) == FirstArgMin(ds[..i + 1])
  {
    var ds := SampleDists(lats, lons, p);
    var next := if i + Stride < |lats| then i + Stride else |lats|;
    forall j | i + 1 <= j < next
      ensures ds[j].None?
    {
      OffStride(i, j);
    }
    SkipAbsent(ds, i + 1, next);
  }

  /** A query made exactly at a sampled cell, when every other candidate lies
      some positive distance away, reads that cell's concentration. */
  lemma {:induction false} SampledIceAtCell(d: IceData, k: nat)
    requires d.HasArrays() && Candidate(d.lats.value, d.lons.value, k)
    requires forall j | Candidate(d.lats.value, d.lons.value, j) && j != k ::
      SqDist(CellPoint(d.lats.value, d.lons.value, j), CellPoint(d.lats.value, d.lons.value, k)) > 0.0
    ensures SampledIce(Some(d), CellPoint(d.lats.value, d.lons.value, k)) == At(d.ice.value, k)
  {
    var lats, lons := d.lats.value, d.lons.value;
    var p := CellPoint(lats, lons, k);
    var found := ClosestSample(lats, lons, p);
    assert found.Some?;
    var m := found.value;
    assert SqDist(p, p) == 0.0;
  }

  /** Unlike the hover search, this lookup has no distance limit: as soon as one
      sampled cell has coordinates, every point of the plane gets that day's
      reading from some candidate. */
  lemma NoDistanceLimit(d: IceData, p: Point, q: Point, j: nat)
    requires d.HasArrays() && Candidate(d.lats.value, d.lons.value, j)
    ensures ClosestSample(d.lats.value, d.lons.value, p).Some?
    ensures ClosestSample(d.lats.value, d.lons.value, q).Some?
  {
  }
}
