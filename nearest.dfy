// The running-minimum search that several components repeat: walk a list of
// candidates in order, skip the ones without data, and keep the first one whose
// distance is strictly smaller than the best seen so far.
module Nearest {

  import opened IceGrid

  /** No candidate has a distance. */
  predicate NonePresent(ds: seq<Option<real>>)
  {
    forall j | 0 <= j < |ds| :: ds[j].None?
  }

  /** `k` holds a least distance, and every earlier candidate is strictly farther. */
  predicate IsFirstNearest(ds: seq<Option<real>>, k: nat)
  {
    && k < |ds|
    && ds[k].Some?
    && (forall j | 0 <= j < |ds| && ds[j].Some? :: ds[k].value <= ds[j].value)
    && (forall j | 0 <= j < k && ds[j].Some? :: ds[k].value < ds[j].value)
  }

  /** The index the scanning loops end with: the loop keeps the old best unless
      the new candidate is present and strictly closer (`dist < minDist`, with
      `minDist` starting at +Infinity). */
  function FirstArgMin(ds: seq<Option<real>>): (r: Option<nat>)
    ensures r.None? <==> NonePresent(ds)
    ensures r.Some? ==> IsFirstNearest(ds, r.value)
    decreases |ds|
  {
    if |ds| == 0 then None
    else
      var init := ds[..|ds| - 1];
      var prev := FirstArgMin(init);
      var last := |ds| - 1;
      assert forall j | 0 <= j < last :: init[j] == ds[j];
      if ds[last].Some? && (prev.None? || ds[last].value < ds[prev.value].value) then Some(last)
      else prev
  }

  /** The characterisation determines the index: a first nearest candidate is
      exactly what the scan returns. */
  lemma FirstNearestIsFound(ds: seq<Option<real>>, k: nat)
    requires IsFirstNearest(ds, k)
    ensures FirstArgMin(ds) == Some(k)
  {
    assert !NonePresent(ds);
  }

  /** A candidate at distance zero wins when every other present candidate is
      strictly farther. */
  lemma {:induction false} UniqueZeroIsFound(ds: seq<Option<real>>, k: nat)
    requires k < |ds| && ds[k] == Some(0.0)
    requires forall j | 0 <= j < |ds| && j != k && ds[j].Some? :: ds[j].value > 0.0
    ensures FirstArgMin(ds) == Some(k)
  {
    assert IsFirstNearest(ds, k);
    FirstNearestIsFound(ds, k);
  }

  /** Candidates without data do not move the result: scanning on over a run of
      absent candidates keeps the index found so far. */
  lemma {:induction false} SkipAbsent(ds: seq<Option<real>>, a: nat, b: nat)
    requires a <= b <= |ds|
    requires forall j | a <= j < b :: ds[j].None?
    ensures FirstArgMin(ds[..b]) == FirstArgMin(ds[..a])
    decreases b - a
  {
    if a < b {
      SkipAbsent(ds, a, b - 1);
      assert ds[..b][..b - 1] == ds[..b - 1];
    }
  }

  /** The scan over one more candidate, as the loops take it. */
  lemma StepFirstArgMin(ds: seq<Option<real>>, i: nat)
    requires i < |ds|
    ensures FirstArgMin(ds[..i + 1]) ==
      var prev := FirstArgMin(ds[..i]);
      if ds[i].Some? && (prev.None? || ds[i].value < ds[prev.value].value) then Some(i) else prev
  {
    assert ds[..i + 1][..i] == ds[..i];
  }
}
