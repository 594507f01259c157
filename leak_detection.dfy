/**
 * The derivations of the leak-detection results page: the intensity bar and
 * its label, the pressure and demand chart series, and the network node
 * nearest to the predicted leak.  parseFloat is not modelled: the histories
 * arrive as (time in seconds, value) pairs.
 */
module LeakDetection {
  import opened Wrappers
  import opened Seqs
  import opened Sorting
  import opened MapData
  import opened Nearest

  /** leakIntensityPercent: 0 for a falsy size, else the size as a percentage of 50 LPS, capped at 100. */
  function IntensityPercent(leakSize: Option<real>): (p: real)
    ensures p <= 100.0
    ensures !Truthy(leakSize) ==> p == 0.0
  {
    if !Truthy(leakSize) then 0.0 else Min((leakSize.value / 50.0) * 100.0, 100.0)
  }

  lemma IntensityPercentRange(leakSize: Option<real>)
    requires leakSize.Some? ==> leakSize.value >= 0.0
    ensures 0.0 <= IntensityPercent(leakSize) <= 100.0
    ensures Truthy(leakSize) && leakSize.value <= 50.0 ==> IntensityPercent(leakSize) == 2.0 * leakSize.value
  {
  }

  /** getIntensityLabel; an undefined size compares false everywhere and is Low. */
  function IntensityLabel(lps: Option<real>): string {
    if lps.None? then "Low"
    else if lps.value > 30.0 then "Severe"
    else if lps.value > 15.0 then "High"
    else if lps.value > 5.0 then "Moderate"
    else "Low"
  }

  function LabelRank(name: string): nat {
    if name == "Severe" then 3 else if name == "High" then 2 else if name == "Moderate" then 1 else 0
  }

  /** A larger size never gets a milder label; each threshold itself belongs to the band below. */
  lemma IntensityLabelMonotone(a: real, b: real)
    requires a <= b
    ensures LabelRank(IntensityLabel(Some(a))) <= LabelRank(IntensityLabel(Some(b)))
    ensures IntensityLabel(Some(30.0)) == "High" && IntensityLabel(Some(15.0)) == "Moderate"
      && IntensityLabel(Some(5.0)) == "Low"
  {
  }

  datatype PressurePoint = PressurePoint(time: real, pressure: real)

  function PressureLe(a: PressurePoint, b: PressurePoint): bool {
    a.time <= b.time
  }

  lemma PressureLeTotal()
    ensures TotalPreorder(PressureLe)
  {
  }

  /** { time: seconds / 3600, pressure } for each entry. */
  function ToHours(data: seq<(real, real)>): (ps: seq<PressurePoint>)
    ensures |ps| == |data| && forall i :: 0 <= i < |data| ==> ps[i] == PressurePoint(data[i].0 / 3600.0, data[i].1)
  {
    seq(|data|, i requires 0 <= i < |data| => PressurePoint(data[i].0 / 3600.0, data[i].1))
  }

  /**
   * pressureChartData: no history gives []; otherwise one point per entry,
   * time in hours, sorted by time.  JavaScript's sort is stable, and so is
   * this one: entries of equal time keep their order.
   */
  function PressureChartData(history: Option<seq<(real, real)>>): (r: seq<PressurePoint>)
    ensures history.None? ==> r == []
    ensures history.Some? ==> multiset(r) == multiset(ToHours(history.value))
    ensures forall i, j :: 0 <= i < j < |r| ==> r[i].time <= r[j].time
    ensures history.Some? ==>
      forall k :: Filter(r, SameKey(PressureLe, k)) == Filter(ToHours(history.value), SameKey(PressureLe, k))
  {
    PressureLeTotal();
    if history.None? then [] else
      SortByStableAll(ToHours(history.value), PressureLe);
      SortBy(ToHours(history.value), PressureLe)
  }

  /** Two readings at the same time are charted in the order they were recorded. */
  lemma EqualTimesKeepOrder()
    ensures PressureChartData(Some([(1800.0, 5.0), (1800.0, 3.0)])) == [PressurePoint(0.5, 5.0), PressurePoint(0.5, 3.0)]
  {
    var h := [(1800.0, 5.0), (1800.0, 3.0)];
    ChartIsSorted(h);
    assert ToHours(h) == [PressurePoint(0.5, 5.0), PressurePoint(0.5, 3.0)];
    SortTwo(PressurePoint(0.5, 5.0), PressurePoint(0.5, 3.0), PressureLe);
  }

  lemma ChartIsSorted(h: seq<(real, real)>)
    ensures TotalPreorder(PressureLe) && PressureChartData(Some(h)) == SortBy(ToHours(h), PressureLe)
  {
    PressureLeTotal();
  }

  lemma PressureChartLength(history: seq<(real, real)>)
    ensures |PressureChartData(Some(history))| == |history|
  {
    PressureLeTotal();
    SortByLength(ToHours(history), PressureLe);
  }

  datatype DemandEntry = DemandEntry(time: real, demand: real)
  datatype DemandPoint = DemandPoint(time: real, baseDemand: real, actualDemand: real)

  const Threshold: real := 0.001

  function Abs(x: real): real {
    if x < 0.0 then -x else x
  }

  function DemandLe(a: DemandEntry, b: DemandEntry): bool {
    a.time <= b.time
  }

  lemma DemandLeTotal()
    ensures TotalPreorder(DemandLe)
  {
  }

  /** Entry i differs from the first entry by more than the threshold. */
  predicate Changes(es: seq<DemandEntry>, i: nat)
    requires 0 < |es| && i < |es|
  {
    Abs(es[i].demand - es[0].demand) > Threshold
  }

  /**
   * start is one entry before the first change, or 0 when the demand never
   * changes.
   */
  predicate StartsAt(es: seq<DemandEntry>, start: nat)
    requires |es| > 0
  {
    && start < |es|
    && ((forall i :: 1 <= i < |es| ==> !Changes(es, i)) ==> start == 0)
    && ((exists i :: 1 <= i < |es| && Changes(es, i)) ==>
          start + 1 < |es| && Changes(es, start + 1) && forall i :: 1 <= i <= start ==> !Changes(es, i))
  }

  /** The loop with `break` that finds the start index. */
  method StartIndex(es: seq<DemandEntry>) returns (start: nat)
    requires |es| > 0
    ensures StartsAt(es, start)
  {
    start := 0;
    var initial := es[0].demand;
    var i := 1;
    while i < |es|
      invariant 1 <= i <= |es|
      invariant forall k :: 1 <= k < i ==> !Changes(es, k)
    {
      if Abs(es[i].demand - initial) > Threshold {
        start := i - 1;
        assert Changes(es, start + 1);
        return;
      }
      i := i + 1;
    }
  }

  /** The first entry whose demand is above the threshold in size, or the first entry. */
  function BaseDemand(es: seq<DemandEntry>): (d: real)
    requires |es| > 0
    ensures (exists i :: 0 <= i < |es| && Abs(es[i].demand) > Threshold) ==>
      exists i :: 0 <= i < |es| && d == es[i].demand && Abs(d) > Threshold
        && forall j :: 0 <= j < i ==> Abs(es[j].demand) <= Threshold
    ensures (forall i :: 0 <= i < |es| ==> Abs(es[i].demand) <= Threshold) ==> d == es[0].demand
  {
    var nonZero := Filter(es, (e: DemandEntry) => Abs(e.demand) > Threshold);
    if |nonZero| > 0 then
      FilterFirst(es, (e: DemandEntry) => Abs(e.demand) > Threshold);
      nonZero[0].demand
    else
      es[0].demand
  }

  /** The entries { time, demand } sorted by time, entries of equal time in their order. */
  function SortedDemand(h: seq<(real, real)>): (es: seq<DemandEntry>)
    ensures |es| == |h|
    ensures forall i, j :: 0 <= i < j < |es| ==> es[i].time <= es[j].time
    ensures multiset(es) == multiset(seq(|h|, i requires 0 <= i < |h| => DemandEntry(h[i].0, h[i].1)))
    ensures forall k :: Filter(es, SameKey(DemandLe, k))
                     == Filter(seq(|h|, i requires 0 <= i < |h| => DemandEntry(h[i].0, h[i].1)), SameKey(DemandLe, k))
  {
    var raw := seq(|h|, i requires 0 <= i < |h| => DemandEntry(h[i].0, h[i].1));
    DemandLeTotal();
    SortByLength(raw, DemandLe);
    SortByStableAll(raw, DemandLe);
    SortBy(raw, DemandLe)
  }

  /** The chart points for the entries from start on. */
  ghost predicate DemandSeries(es: seq<DemandEntry>, start: nat, r: seq<DemandPoint>)
    requires start < |es|
  {
    && |r| == |es| - start
    && forall i :: 0 <= i < |r| ==>
         r[i] == DemandPoint((es[start + i].time - es[start].time) / 3600.0, Abs(BaseDemand(es[start..])), Abs(es[start + i].demand))
  }

  /**
   * demandComparisonData: [] without entries; otherwise the sorted entries
   * from the start index on, with hours since the first of them, the base
   * demand and each demand as absolute values.
   */
  method DemandComparisonData(history: Option<seq<(real, real)>>) returns (r: seq<DemandPoint>)
    ensures history.None? || history.value == [] ==> r == []
    ensures history.Some? && history.value != [] ==>
      var es := SortedDemand(history.value);
      exists start: nat :: StartsAt(es, start) && DemandSeries(es, start, r)
  {
    if history.None? || |history.value| == 0 {
      return [];
    }
    var es := SortedDemand(history.value);
    var start := StartIndex(es);
    var relevant := es[start..];
    var base := BaseDemand(relevant);
    var offset := relevant[0].time;
    r := seq(|relevant|, i requires 0 <= i < |relevant| =>
      DemandPoint((relevant[i].time - offset) / 3600.0, Abs(base), Abs(relevant[i].demand)));
    assert DemandSeries(es, start, r);
  }

  /** The demand chart starts at hour 0 and shows one constant base line and non-negative demands. */
  lemma DemandPointsShape(es: seq<DemandEntry>, start: nat, r: seq<DemandPoint>)
    requires start < |es| && DemandSeries(es, start, r)
    ensures r[0].time == 0.0
    ensures forall i :: 0 <= i < |r| ==> r[i].baseDemand == r[0].baseDemand && r[i].baseDemand >= 0.0 && r[i].actualDemand >= 0.0
  {
  }

  /** `{ ...node, distance: Math.round(distance) }`. */
  datatype Nearby = Nearby(node: MapNode, distance: int)

  /** Math.round: halves go up. */
  function Round(x: real): int {
    (x + 0.5).Floor
  }

  /** √(dLat² + dLng²) · 111320 for each node with truthy coordinates, with the square root a parameter. */
  function Distances(nodes: seq<MapNode>, lat: real, lng: real, sqrt: real -> real): (ds: seq<Option<real>>)
    ensures |ds| == |nodes|
    ensures forall i :: 0 <= i < |nodes| ==>
      ds[i] == if Located(nodes[i]) then Some(sqrt(SquaredOffset(lat, lng, nodes[i])) * 111320.0) else None
  {
    seq(|nodes|, i requires 0 <= i < |nodes| =>
      if Located(nodes[i]) then Some(sqrt(SquaredOffset(lat, lng, nodes[i])) * 111320.0) else None)
  }

  function SquaredOffset(lat: real, lng: real, n: MapNode): (q: real)
    requires Located(n)
    ensures q >= 0.0
  {
    var dLat, dLng := lat - n.lat.value, lng - n.lng.value;
    dLat * dLat + dLng * dLng
  }

  /** The squared planar offsets alone, with no square root. */
  function SquaredOffsets(nodes: seq<MapNode>, lat: real, lng: real): (ds: seq<Option<real>>)
    ensures |ds| == |nodes|
    ensures forall i :: 0 <= i < |nodes| ==>
      ds[i] == if Located(nodes[i]) then Some(SquaredOffset(lat, lng, nodes[i])) else None
  {
    seq(|nodes|, i requires 0 <= i < |nodes| => if Located(nodes[i]) then Some(SquaredOffset(lat, lng, nodes[i])) else None)
  }

  /**
   * nearestNode: null for a falsy predicted position or absent nodes;
   * otherwise the first node of least distance, its distance rounded.
   */
  method NearestNode(leakLat: Option<real>, leakLng: Option<real>, nodes: Option<seq<MapNode>>, sqrt: real -> real)
    returns (r: Option<Nearby>)
    ensures !Truthy(leakLat) || !Truthy(leakLng) || nodes.None? ==> r.None?
    ensures Truthy(leakLat) && Truthy(leakLng) && nodes.Some? ==>
      var ds := Distances(nodes.value, leakLat.value, leakLng.value, sqrt);
      && (r.None? <==> NoCandidate(ds))
      && (r.Some? ==> exists k: nat :: IsFirstMin(ds, k) && r.value == Nearby(nodes.value[k], Round(ds[k].value)))
  {
    if !Truthy(leakLat) || !Truthy(leakLng) || nodes.None? {
      return None;
    }
    var ds := Distances(nodes.value, leakLat.value, leakLng.value, sqrt);
    var k := FirstMinimum(ds);
    if k.None? {
      r := None;
    } else {
      r := Some(Nearby(nodes.value[k.value], Round(ds[k.value].value)));
    }
  }

  /** Scaling a strictly increasing square root keeps the order of its arguments. */
  lemma SqrtOrder(sqrt: real -> real, a: real, b: real)
    requires forall a, b :: 0.0 <= a < b ==> sqrt(a) < sqrt(b)
    requires a >= 0.0 && b >= 0.0
    ensures sqrt(a) * 111320.0 < sqrt(b) * 111320.0 <==> a < b
    ensures sqrt(a) * 111320.0 <= sqrt(b) * 111320.0 <==> a <= b
  {
    if a < b {
      assert sqrt(a) < sqrt(b);
    } else if b < a {
      assert sqrt(b) < sqrt(a);
    }
  }

  /**
   * For any strictly increasing square root, the chosen node is the first
   * node of least squared offset: the square root does not change the choice.
   */
  lemma NearestBySquares(nodes: seq<MapNode>, lat: real, lng: real, sqrt: real -> real, k: nat)
    requires forall a, b :: 0.0 <= a < b ==> sqrt(a) < sqrt(b)
    ensures IsFirstMin(Distances(nodes, lat, lng, sqrt), k) <==> IsFirstMin(SquaredOffsets(nodes, lat, lng), k)
  {
    var ds, qs := Distances(nodes, lat, lng, sqrt), SquaredOffsets(nodes, lat, lng);
    forall i, j | 0 <= i < |nodes| && 0 <= j < |nodes| && qs[i].Some? && qs[j].Some?
      ensures ds[i].Some? && ds[j].Some?
      ensures ds[i].value < ds[j].value <==> qs[i].value < qs[j].value
      ensures ds[i].value <= ds[j].value <==> qs[i].value <= qs[j].value
    {
      SqrtOrder(sqrt, qs[i].value, qs[j].value);
    }
    assert forall i :: 0 <= i < |nodes| ==> (ds[i].Some? <==> qs[i].Some?);
  }
}
