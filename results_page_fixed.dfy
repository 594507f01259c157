/**
 * The reworked results page: where the predicted leak is placed, which
 * network node is nearest to it, the pressure and demand series drawn from
 * the simulation run for that node, the leak markers and their colours.
 */
module ResultsPageFixed {
  import opened Wrappers
  import opened Seqs
  import opened Strings
  import opened JsValues
  import MapData
  import opened CoordinateTransform
  import opened Nearest
  import ResultsPage

  type GpsNode = ResultsPage.GpsNode

  /**
   * A prediction response. An array field that is missing or not an array is
   * None; a missing or empty `node_id` is "".
   */
  datatype Prediction = Prediction(leakX: Option<seq<real>>, leakY: Option<seq<real>>,
                                   sizes: Option<seq<real>>, nodeId: string)

  /** `predictions || { leak_x: [], leak_y: [], leak_size_lps: [] }`. */
  function Loaded(predictions: Option<Prediction>): Prediction {
    if predictions.Some? then predictions.value else Prediction(Some([]), Some([]), Some([]), "")
  }

  // ---------------------------------------------------------------------------
  // The predicted position

  /**
   * `predGps`: none, a position, or the position built from `leak_y[0]` when
   * leak_y is empty — an object whose coordinates are NaN.
   */
  datatype Predicted = NoPosition | NaNPosition | PlacedAt(gps: LatLng)

  predicate FromArrays(p: Prediction) {
    p.leakX.Some? && p.leakY.Some? && |p.leakX.value| > 0
  }

  function PredictedPosition(predictions: Option<Prediction>, ns: seq<GpsNode>): (r: Predicted)
    ensures predictions.Some? && FromArrays(predictions.value) ==>
      r == (var p := predictions.value;
            if |p.leakY.value| > 0 then PlacedAt(ToGps(p.leakX.value[0], p.leakY.value[0])) else NaNPosition)
    ensures r.NoPosition? <==>
      predictions.None? ||
      (!FromArrays(predictions.value) &&
       (predictions.value.nodeId == [] || forall j :: 0 <= j < |ns| ==> ns[j].node.id != predictions.value.nodeId))
    ensures predictions.Some? && !FromArrays(predictions.value) && r.PlacedAt? ==>
      exists k :: 0 <= k < |ns| && ns[k].node.id == predictions.value.nodeId && r.gps == ns[k].gps &&
        forall j :: 0 <= j < k ==> ns[j].node.id != predictions.value.nodeId
  {
    if predictions.None? then NoPosition
    else
      var p := predictions.value;
      if FromArrays(p) then
        if |p.leakY.value| > 0 then PlacedAt(ToGps(p.leakX.value[0], p.leakY.value[0])) else NaNPosition
      else if p.nodeId != [] then
        match ResultsPage.FindGps(ns, p.nodeId)
        case Some(n) => PlacedAt(n.gps)
        case None => NoPosition
      else NoPosition
  }

  // ---------------------------------------------------------------------------
  // The nearest node

  /** The haversine distance, left abstract. */
  type Distance = (real, real, real, real) -> real

  /** The distance of each node from the predicted position; NaN (None) for a NaN position. */
  function Distances(p: Predicted, ns: seq<GpsNode>, dist: Distance): (ds: seq<Option<real>>)
    requires !p.NoPosition?
    ensures |ds| == |ns|
    ensures p.NaNPosition? ==> NoCandidate(ds)
    ensures p.PlacedAt? ==> forall i :: 0 <= i < |ns| ==> ds[i] == Some(dist(p.gps.lat, p.gps.lng, ns[i].gps.lat, ns[i].gps.lng))
  {
    seq(|ns|, i requires 0 <= i < |ns| =>
      if p.PlacedAt? then Some(dist(p.gps.lat, p.gps.lng, ns[i].gps.lat, ns[i].gps.lng)) else None)
  }

  /**
   * The scan in `loadAll`: it runs only for a position and a non-empty node
   * list, and picks the first node of least distance. A NaN position compares
   * false with everything, and so picks none.
   */
  method NearestToPrediction(p: Predicted, ns: seq<GpsNode>, dist: Distance) returns (r: Option<GpsNode>)
    ensures r.None? <==> !p.PlacedAt? || ns == []
    ensures r.Some? ==> exists k: nat :: IsFirstMin(Distances(p, ns, dist), k) && r.value == ns[k]
  {
    if p.NoPosition? || ns == [] {
      return None;
    }
    var ds := Distances(p, ns, dist);
    if p.PlacedAt? {
      assert ds[0].Some?;
    }
    var k := FirstMinimum(ds);
    if k.None? {
      return None;
    }
    r := Some(ns[k.value]);
  }

  /** The node picked is no farther than any other node. */
  lemma NearestIsClosest(p: Predicted, ns: seq<GpsNode>, dist: Distance, k: nat, j: nat)
    requires p.PlacedAt? && IsFirstMin(Distances(p, ns, dist), k) && j < |ns|
    ensures dist(p.gps.lat, p.gps.lng, ns[k].gps.lat, ns[k].gps.lng) <= dist(p.gps.lat, p.gps.lng, ns[j].gps.lat, ns[j].gps.lng)
  {
    var ds := Distances(p, ns, dist);
    assert ds[j].Some?;
  }

  // ---------------------------------------------------------------------------
  // The pressure series

  datatype PressurePoint = PressurePoint(time: nat, pressure: Option<real>)

  /** `keys.find(k => k.includes(id))`. */
  function FirstContaining(keys: seq<string>, id: string): (r: Option<nat>)
    ensures r.None? ==> forall j :: 0 <= j < |keys| ==> !Contains(keys[j], id)
    ensures r.Some? ==>
      r.value < |keys| && Contains(keys[r.value], id) && forall j :: 0 <= j < r.value ==> !Contains(keys[j], id)
  {
    if keys == [] then None
    else if Contains(keys[0], id) then Some(0)
    else
      match FirstContaining(keys[1..], id)
      case None => None
      case Some(j) => Some(j + 1)
  }

  /**
   * The column read from every row: the first key, unless a key mentions the
   * nearest node's id; the first such key then wins if it is not "".
   */
  function Column(keys: seq<string>, nearest: Option<GpsNode>): (col: Option<string>)
    ensures keys == [] ==> col.None?
    ensures col.Some? ==> col.value in keys
    ensures nearest.Some? && (exists j :: 0 <= j < |keys| && keys[j] != [] && Contains(keys[j], nearest.value.node.id) &&
                                forall i :: 0 <= i < j ==> !Contains(keys[i], nearest.value.node.id)) ==>
      col.Some? && col.value != [] && Contains(col.value, nearest.value.node.id)
    ensures keys != [] && (nearest.None? || forall j :: 0 <= j < |keys| ==> !Contains(keys[j], nearest.value.node.id)) ==>
      col == Some(keys[0])
  {
    if keys == [] then None
    else if nearest.Some? then
      match FirstContaining(keys, nearest.value.node.id)
      case Some(f) => if keys[f] != [] then Some(keys[f]) else Some(keys[0])
      case None => Some(keys[0])
    else Some(keys[0])
  }

  /** The plotted pressure of a cell: the mean of an array's numbers, a number, or null. */
  function PressureOf(v: Option<JsValue>): (p: Option<real>)
    ensures v.Some? && v.value.JNum? ==> p == Some(v.value.n)
    ensures v.Some? && v.value.JList? ==> (p.Some? <==> exists x :: JNum(x) in v.value.items)
    ensures p.Some? ==> v.Some? && (v.value.JNum? || v.value.JList?)
    ensures v.Some? && v.value.JList? && p.Some? ==>
      |Numbers(v.value.items)| > 0 && p.value == Mean(Numbers(v.value.items))
  {
    if v.None? then None
    else match v.value
      case JList(items) =>
        var nums := Numbers(items);
        if nums == [] then
          None
        else
          assert nums[0] in nums;
          Some(Mean(nums))
      case JNum(n) => Some(n)
      case _ => None
  }

  /** An array cell's pressure lies between its smallest and largest numbers. */
  lemma ArrayPressureBetween(items: seq<JsValue>)
    requires exists x :: JNum(x) in items
    ensures |Numbers(items)| > 0
    ensures PressureOf(Some(JList(items))).Some?
    ensures MinOf(Numbers(items)) <= PressureOf(Some(JList(items))).value <= MaxOf(Numbers(items))
  {
    var nums := Numbers(items);
    assert |nums| > 0 by {
      var x :| JNum(x) in items;
      assert x in nums;
    }
    assert PressureOf(Some(JList(items))) == Some(Mean(nums));
    assert MinOf(nums) <= Mean(nums) <= MaxOf(nums) by {
      MeanWithin(nums, MinOf(nums), MaxOf(nums));
    }
  }

  /**
   * `ph[i]` for i below `ph.length`, with ph = `simData.pressure_history || []`:
   * an array's elements, or a string's characters.
   */
  function PressureRows(simData: Option<JsValue>): (rows: seq<JsValue>)
    ensures var ph := Or(Prop(simData, "pressure_history"), Some(JList([])));
      (ph.value.JList? ==> rows == ph.value.items) &&
      (ph.value.JStr? ==> |rows| == |ph.value.s| && forall i :: 0 <= i < |rows| ==> rows[i] == JStr([ph.value.s[i]])) &&
      (!ph.value.JList? && !ph.value.JStr? ==> rows == [])
  {
    var ph := Or(Prop(simData, "pressure_history"), Some(JList([])));
    match ph.value
    case JList(items) => items
    case JStr(s) => Chars(s)
    case _ => []
  }

  /** The characters of a string, each as a one-character string. */
  function Chars(s: string): (cs: seq<JsValue>)
    ensures |cs| == |s| && forall i :: 0 <= i < |s| ==> cs[i] == JStr([s[i]])
  {
    seq(|s|, i requires 0 <= i < |s| => JStr([s[i]]))
  }

  /** The property `ph[i][col]` reads: col, or "undefined" when the first row has no keys. */
  function PropertyName(col: Option<string>): string {
    if col.Some? then col.value else "undefined"
  }

  /**
   * The pressure effect: time is the row index, the column is picked from
   * the first row's keys. A null row makes `ph[i][col]` raise a TypeError,
   * which ends the effect before either series is set.
   */
  method PressureSeries(simData: Option<JsValue>, nearest: Option<GpsNode>) returns (r: Result<seq<PressurePoint>, JsError>)
    ensures !Truthy(simData) ==> r == Ok([])
    ensures Truthy(simData) ==>
      var rows := PressureRows(simData);
      (rows == [] ==> r == Ok([])) &&
      (rows != [] ==>
        r == ColumnSeries(rows, PropertyName(Column(Keys(Or(Some(rows[0]), Some(JObject(Dict.Empty())))), nearest))))
  {
    if !Truthy(simData) {
      return Ok([]);
    }
    var rows := PressureRows(simData);
    if rows == [] {
      return Ok([]);
    }
    var keys := Keys(Or(Some(rows[0]), Some(JObject(Dict.Empty()))));
    var col := Column(keys, nearest);
    r := ReadColumn(rows, PropertyName(col));
  }

  /** The pressure series of the rows read under one key: a TypeError at a null row. */
  function ColumnSeries(rows: seq<JsValue>, key: string): (r: Result<seq<PressurePoint>, JsError>)
    ensures r.Err? <==> exists i :: 0 <= i < |rows| && rows[i].JNull?
    ensures r.Err? ==> r.error == TypeError
    ensures r.Ok? ==>
      |r.value| == |rows| &&
      forall i :: 0 <= i < |rows| ==> r.value[i] == PressurePoint(i, PressureOf(Member(rows[i], key)))
  {
    if exists i :: 0 <= i < |rows| && rows[i].JNull? then Err(TypeError)
    else Ok(seq(|rows|, i requires 0 <= i < |rows| => PressurePoint(i, PressureOf(Member(rows[i], key)))))
  }

  /** The loop over the rows: `ph[i][col]`, then the plotted pressure of what it reads. */
  method ReadColumn(rows: seq<JsValue>, key: string) returns (r: Result<seq<PressurePoint>, JsError>)
    ensures r == ColumnSeries(rows, key)
  {
    var ps: seq<PressurePoint> := [];
    for i := 0 to |rows|
      invariant |ps| == i
      invariant forall j :: 0 <= j < i ==> !rows[j].JNull?
      invariant forall j :: 0 <= j < i ==> ps[j] == PressurePoint(j, PressureOf(Member(rows[j], key)))
    {
      if rows[i].JNull? {
        assert exists j :: 0 <= j < |rows| && rows[j].JNull?;
        return Err(TypeError);
      }
      var v := Member(rows[i], key);
      var point;
      if v.Some? && v.value.JList? {
        var nums := Numbers(v.value.items);
        point := PressurePoint(i, if |nums| > 0 then Some(Mean(nums)) else None);
      } else if v.Some? && v.value.JNum? {
        point := PressurePoint(i, Some(v.value.n));
      } else {
        point := PressurePoint(i, None);
      }
      assert point == PressurePoint(i, PressureOf(v));
      ps := ps + [point];
    }
    assert !exists j :: 0 <= j < |rows| && rows[j].JNull?;
    var c := ColumnSeries(rows, key);
    assert c.Ok? && c.value == ps;
    r := Ok(ps);
  }

  // ---------------------------------------------------------------------------
  // The demand series

  datatype DemandPoint = DemandPoint(time: nat, demand: Option<JsValue>)

  /** `typeof v === 'number' ? v : (Object.values(v || {})[0] || null)`; None is null. */
  function DemandOf(v: JsValue): (d: Option<JsValue>)
    ensures v.JNum? ==> d == Some(v)
    ensures !v.JNum? && d.Some? ==> Truthy(d) && d == FirstValue(Some(v))
  {
    if v.JNum? then Some(v) else if Truthy(FirstValue(Some(v))) then FirstValue(Some(v)) else None
  }

  /**
   * `simData.demand_history || simData.leak_demand_time || []`, mapped entry
   * by entry when it is an array.
   */
  function DemandSeries(simData: Option<JsValue>): (ds: seq<DemandPoint>)
    ensures
      var dh := Or(Or(Prop(simData, "demand_history"), Prop(simData, "leak_demand_time")), Some(JList([])));
      (!Truthy(simData) || !dh.value.JList? ==> ds == []) &&
      (Truthy(simData) && dh.value.JList? ==>
        |ds| == |dh.value.items| &&
        forall i :: 0 <= i < |ds| ==> ds[i].time == i && ds[i].demand == DemandOf(dh.value.items[i]))
  {
    if !Truthy(simData) then []
    else
      var dh := Or(Or(Prop(simData, "demand_history"), Prop(simData, "leak_demand_time")), Some(JList([])));
      if dh.value.JList? then
        var items := dh.value.items;
        seq(|items|, i requires 0 <= i < |items| => DemandPoint(i, DemandOf(items[i])))
      else []
  }

  /** A numeric history is drawn unchanged, zero demands included. */
  lemma NumericDemandKept(simData: Option<JsValue>, i: nat)
    requires Truthy(simData) && Prop(simData, "demand_history").Some?
    requires var dh := Prop(simData, "demand_history").value;
      dh.JList? && dh.items != [] && i < |dh.items| && dh.items[i].JNum?
    ensures i < |DemandSeries(simData)|
    ensures DemandSeries(simData)[i] == DemandPoint(i, Some(Prop(simData, "demand_history").value.items[i]))
  {
  }

  // ---------------------------------------------------------------------------
  // Leak markers

  datatype Leak = Leak(id: string, gps: LatLng, size: real, radius: real)

  /** `(pred.leak_size_lps && pred.leak_size_lps[i]) || 0.1`. */
  function SizeAt(sizes: Option<seq<real>>, i: nat): (s: real)
    ensures s != 0.0
    ensures sizes.Some? && i < |sizes.value| && sizes.value[i] != 0.0 ==> s == sizes.value[i]
    ensures s != 0.1 ==> sizes.Some? && i < |sizes.value| && sizes.value[i] == s
  {
    if sizes.Some? && i < |sizes.value| && sizes.value[i] != 0.0 then sizes.value[i] else 0.1
  }

  /** The marker of the `node_id` node, when that node is in the network. */
  function NodeLeak(p: Prediction, ns: seq<GpsNode>): (l: Option<Leak>)
    ensures l.Some? ==> p.nodeId != [] && l.value.id == p.nodeId && l.value.radius == 30.0 && l.value.size == SizeAt(p.sizes, 0)
    ensures l.Some? <==> p.nodeId != [] && exists j :: 0 <= j < |ns| && ns[j].node.id == p.nodeId
  {
    if p.nodeId == [] then None
    else match ResultsPage.FindGps(ns, p.nodeId)
      case Some(n) => Some(Leak(n.node.id, n.gps, SizeAt(p.sizes, 0), 30.0))
      case None => None
  }

  /** How many `L{i}` markers there are: one per position both arrays hold. */
  function IndexedCount(p: Prediction): (n: nat)
    ensures p.leakX.Some? && p.leakY.Some? ==> n <= |p.leakX.value| && n <= |p.leakY.value|
    ensures p.leakX.Some? && p.leakY.Some? ==> n == |p.leakX.value| || n == |p.leakY.value|
    ensures p.leakX.None? || p.leakY.None? ==> n == 0
  {
    if p.leakX.Some? && p.leakY.Some? then
      if |p.leakX.value| <= |p.leakY.value| then |p.leakX.value| else |p.leakY.value|
    else 0
  }

  function IndexedLeak(p: Prediction, i: nat): Leak
    requires i < IndexedCount(p)
  {
    var size := SizeAt(p.sizes, i);
    Leak("L" + NatToString(i), ToGps(p.leakX.value[i], p.leakY.value[i]), size, 20.0 + size * 10.0)
  }

  function OptionSeq<T>(o: Option<T>): (s: seq<T>)
    ensures |s| <= 1 && (o.Some? <==> |s| == 1) && (o.Some? ==> s == [o.value])
  {
    if o.Some? then [o.value] else []
  }

  /** `leakLocations`: the node marker first, then the indexed markers in order. */
  method LeakLocations(p: Prediction, ns: seq<GpsNode>) returns (ls: seq<Leak>)
    ensures var head := OptionSeq(NodeLeak(p, ns));
      |ls| == |head| + IndexedCount(p) && ls[..|head|] == head &&
      forall i :: 0 <= i < IndexedCount(p) ==> ls[|head| + i] == IndexedLeak(p, i)
  {
    ls := OptionSeq(NodeLeak(p, ns));
    ghost var head := ls;
    var n := IndexedCount(p);
    for i := 0 to n
      invariant |ls| == |head| + i && ls[..|head|] == head
      invariant forall j :: 0 <= j < i ==> ls[|head| + j] == IndexedLeak(p, j)
    {
      var size := SizeAt(p.sizes, i);
      var gps := ToGps(p.leakX.value[i], p.leakY.value[i]);
      ls := ls + [Leak("L" + NatToString(i), gps, size, 20.0 + size * 10.0)];
    }
  }

  /** The indexed markers have distinct ids, and a larger size draws a larger circle. */
  lemma IndexedLeaksDistinct(p: Prediction, i: nat, j: nat)
    requires i < IndexedCount(p) && j < IndexedCount(p) && i != j
    ensures IndexedLeak(p, i).id != IndexedLeak(p, j).id
  {
    if IndexedLeak(p, i).id == IndexedLeak(p, j).id {
      var a, b := NatToString(i), NatToString(j);
      assert ("L" + a)[1..] == a && ("L" + b)[1..] == b;
      NatToStringInjective(i, j);
    }
  }

  lemma IndexedRadiusGrows(p: Prediction, i: nat, j: nat)
    requires i < IndexedCount(p) && j < IndexedCount(p)
    requires IndexedLeak(p, i).size <= IndexedLeak(p, j).size
    ensures IndexedLeak(p, i).radius <= IndexedLeak(p, j).radius
    ensures IndexedLeak(p, i).radius == 20.0 + 10.0 * IndexedLeak(p, i).size
  {
  }

  /** With non-negative sizes every marker has a positive size, and an indexed one a radius above 20. */
  lemma LeakSizesPositive(p: Prediction, i: nat)
    requires p.sizes.Some? ==> forall k :: 0 <= k < |p.sizes.value| ==> p.sizes.value[k] >= 0.0
    requires i < IndexedCount(p)
    ensures IndexedLeak(p, i).size > 0.0 && IndexedLeak(p, i).radius > 20.0
  {
  }

  // ---------------------------------------------------------------------------
  // Leak colours

  /** `Math.max(...leakLocations.map(l => l.size || 0.1), 0.1)`. */
  function Divisor(ls: seq<Leak>): (m: real)
    ensures m >= 0.1
    ensures forall i :: 0 <= i < |ls| ==> (if ls[i].size != 0.0 then ls[i].size else 0.1) <= m
    ensures m == 0.1 || exists i :: 0 <= i < |ls| && ls[i].size == m
  {
    if ls == [] then 0.1
    else
      var rest := Divisor(ls[1..]);
      assert forall i :: 1 <= i < |ls| ==> ls[i] == ls[1..][i - 1];
      Max(if ls[0].size != 0.0 then ls[0].size else 0.1, rest)
  }

  /** getLeakColor: the thresholds of the results page applied to size / Divisor. */
  function LeakColor(s: real, ls: seq<Leak>): string {
    ResultsPage.LeakColor(Some(s), Some(Divisor(ls)))
  }

  /** The largest marker is red, and colours never fall as size grows. */
  lemma LargestLeakIsRed(ls: seq<Leak>, i: nat)
    requires i < |ls| && ls[i].size == Divisor(ls)
    ensures LeakColor(ls[i].size, ls) == "#ef4444"
  {
    var m := Divisor(ls);
    QuotientOfItself(m);
    assert ResultsPage.ShareAbove(Some(m), Some(m), 0.7);
  }

  lemma QuotientOfItself(m: real)
    requires m >= 0.1
    ensures m / m == 1.0
  {
  }

  lemma LeakColorMonotone(a: real, b: real, ls: seq<Leak>)
    requires a <= b
    ensures ResultsPage.ColorRank(LeakColor(a, ls)) <= ResultsPage.ColorRank(LeakColor(b, ls))
  {
    ResultsPage.LeakColorMonotone(a, b, Divisor(ls));
  }
}
