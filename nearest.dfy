/**
 * The frontend's linear nearest-node scans: a running minimum that starts at
 * Infinity and is replaced only by a strictly smaller distance, so the first
 * of several equally near candidates wins.
 */
module Nearest {
  import opened Wrappers

  /**
   * The distance of each candidate, None for an element the scan skips.
   * k is the first candidate of minimum distance.
   */
  predicate IsFirstMin(ds: seq<Option<real>>, k: nat) {
    && k < |ds| && ds[k].Some?
    && (forall j :: 0 <= j < |ds| && ds[j].Some? ==> ds[k].value <= ds[j].value)
    && (forall j :: 0 <= j < k && ds[j].Some? ==> ds[k].value < ds[j].value)
  }

  predicate NoCandidate(ds: seq<Option<real>>) {
    forall j :: 0 <= j < |ds| ==> ds[j].None?
  }

  /** A scan of ds keeping the smallest distance seen so far; None stands for Infinity. */
  method FirstMinimum(ds: seq<Option<real>>) returns (r: Option<nat>)
    ensures r.None? <==> NoCandidate(ds)
    ensures r.Some? ==> IsFirstMin(ds, r.value)
  {
    r := None;
    var min: Option<real> := None;
    for i := 0 to |ds|
      invariant r.None? <==> min.None?
      invariant r.None? ==> forall j :: 0 <= j < i ==> ds[j].None?
      invariant r.Some? ==> r.value < i && ds[r.value] == min
      invariant r.Some? ==> forall j :: 0 <= j < i && ds[j].Some? ==> min.value <= ds[j].value
      invariant r.Some? ==> forall j :: 0 <= j < r.value && ds[j].Some? ==> min.value < ds[j].value
    {
      if ds[i].Some? && (min.None? || ds[i].value < min.value) {
        min := ds[i];
        r := Some(i);
      }
    }
  }

  /** The first minimum is unique, so the scan's answer is determined by the distances. */
  lemma FirstMinUnique(ds: seq<Option<real>>, k: nat, k': nat)
    requires IsFirstMin(ds, k) && IsFirstMin(ds, k')
    ensures k == k'
  {
  }
}
