/**
 * The derivations of the leak-result map component: the node nearest to the
 * predicted leak, the GPS extent of the network, the size and layers of the
 * elliptical leak zone, the widened set of affected pipes, the drawable pipes
 * and the marker styles.  Distances on the sphere and the cosine of the
 * centre's latitude are parameters.
 */
module LeakResultMap {
  import opened Wrappers
  import opened Seqs
  import opened MapData
  import opened Nearest

  /** calculateDistance(lat1, lng1, lat2, lng2), the Haversine distance in metres. */
  type Distance = (real, real, real, real) -> real

  /** `{ ...node, distance }`. */
  datatype NearestNode = NearestNode(node: MapNode, distance: real)

  /** The distance of each node with truthy coordinates to the target; None for the others. */
  function Candidates(nodes: seq<MapNode>, lat: real, lng: real, dist: Distance): (ds: seq<Option<real>>)
    ensures |ds| == |nodes|
    ensures forall i :: 0 <= i < |nodes| ==>
      ds[i] == if Located(nodes[i]) then Some(dist(lat, lng, nodes[i].lat.value, nodes[i].lng.value)) else None
  {
    seq(|nodes|, i requires 0 <= i < |nodes| =>
      if Located(nodes[i]) then Some(dist(lat, lng, nodes[i].lat.value, nodes[i].lng.value)) else None)
  }

  /**
   * findNearestNode: null for absent or empty nodes, a falsy target or no node
   * with coordinates; otherwise the first node of least distance.
   */
  method FindNearestNode(nodes: Option<seq<MapNode>>, targetLat: Option<real>, targetLng: Option<real>, dist: Distance)
    returns (r: Option<NearestNode>)
    ensures r.None? <==>
      nodes.None? || nodes.value == [] || !Truthy(targetLat) || !Truthy(targetLng)
      || forall i :: 0 <= i < |nodes.value| ==> !Located(nodes.value[i])
    ensures r.Some? ==> (Truthy(targetLat) && Truthy(targetLng) && nodes.Some? &&
      var ds := Candidates(nodes.value, targetLat.value, targetLng.value, dist);
      exists k: nat :: IsFirstMin(ds, k) && r.value == NearestNode(nodes.value[k], ds[k].value))
  {
    if nodes.None? || |nodes.value| == 0 || !Truthy(targetLat) || !Truthy(targetLng) {
      return None;
    }
    var ds := Candidates(nodes.value, targetLat.value, targetLng.value, dist);
    var k := FirstMinimum(ds);
    if k.None? {
      r := None;
    } else {
      r := Some(NearestNode(nodes.value[k.value], ds[k.value].value));
    }
  }

  /** The found node has coordinates, and no node with coordinates is nearer. */
  lemma NearestIsClosest(nodes: seq<MapNode>, lat: real, lng: real, dist: Distance, k: nat)
    requires IsFirstMin(Candidates(nodes, lat, lng, dist), k)
    ensures Located(nodes[k])
    ensures forall j :: 0 <= j < |nodes| && Located(nodes[j]) ==>
      dist(lat, lng, nodes[k].lat.value, nodes[k].lng.value) <= dist(lat, lng, nodes[j].lat.value, nodes[j].lng.value)
    ensures forall j :: 0 <= j < k && Located(nodes[j]) ==>
      dist(lat, lng, nodes[k].lat.value, nodes[k].lng.value) < dist(lat, lng, nodes[j].lat.value, nodes[j].lng.value)
  {
    var ds := Candidates(nodes, lat, lng, dist);
    forall j | 0 <= j < |nodes| && Located(nodes[j])
      ensures dist(lat, lng, nodes[k].lat.value, nodes[k].lng.value) <= dist(lat, lng, nodes[j].lat.value, nodes[j].lng.value)
    {
      assert ds[j].Some?;
    }
    forall j | 0 <= j < k && Located(nodes[j])
      ensures dist(lat, lng, nodes[k].lat.value, nodes[k].lng.value) < dist(lat, lng, nodes[j].lat.value, nodes[j].lng.value)
    {
      assert ds[j].Some?;
    }
  }

  /**
   * { minLat, maxLat, minLng, maxLng }; NoExtent is the object whose minima are
   * still Infinity and maxima -Infinity because no node had coordinates.
   */
  datatype LatLngBox = NoExtent | Box(minLat: real, maxLat: real, minLng: real, maxLng: real)

  /** Over the first n nodes, b is the smallest box around the nodes with coordinates. */
  ghost predicate Spans(nodes: seq<MapNode>, n: nat, b: LatLngBox)
    requires n <= |nodes|
  {
    && (b.NoExtent? <==> forall j :: 0 <= j < n ==> !Located(nodes[j]))
    && (b.Box? ==>
      && (forall j :: 0 <= j < n && Located(nodes[j]) ==>
            b.minLat <= nodes[j].lat.value <= b.maxLat && b.minLng <= nodes[j].lng.value <= b.maxLng)
      && LatOf(nodes, n, b.minLat) && LatOf(nodes, n, b.maxLat)
      && LngOf(nodes, n, b.minLng) && LngOf(nodes, n, b.maxLng))
  }

  /** Some node among the first n with coordinates has latitude v. */
  ghost predicate LatOf(nodes: seq<MapNode>, n: nat, v: real)
    requires n <= |nodes|
  {
    exists j :: 0 <= j < n && Located(nodes[j]) && nodes[j].lat.value == v
  }

  /** Some node among the first n with coordinates has longitude v. */
  ghost predicate LngOf(nodes: seq<MapNode>, n: nat, v: real)
    requires n <= |nodes|
  {
    exists j :: 0 <= j < n && Located(nodes[j]) && nodes[j].lng.value == v
  }

  /** A coordinate attained among the first n nodes, or by node n, is attained among the first n + 1. */
  lemma AttainedStep(nodes: seq<MapNode>, n: nat, prev: real, v: real)
    requires n < |nodes| && Located(nodes[n])
    requires v == prev || v == nodes[n].lat.value
    requires LatOf(nodes, n, prev)
    ensures LatOf(nodes, n + 1, v)
  {
    if v != nodes[n].lat.value {
      var j :| 0 <= j < n && Located(nodes[j]) && nodes[j].lat.value == prev;
      assert 0 <= j < n + 1;
    }
  }

  /** The same for longitudes. */
  lemma AttainedStepLng(nodes: seq<MapNode>, n: nat, prev: real, v: real)
    requires n < |nodes| && Located(nodes[n])
    requires v == prev || v == nodes[n].lng.value
    requires LngOf(nodes, n, prev)
    ensures LngOf(nodes, n + 1, v)
  {
    if v != nodes[n].lng.value {
      var j :| 0 <= j < n && Located(nodes[j]) && nodes[j].lng.value == prev;
      assert 0 <= j < n + 1;
    }
  }

  /** One step of the forEach: a node with coordinates widens the box. */
  function Widen(b: LatLngBox, n: MapNode): LatLngBox
    requires Located(n)
  {
    var lat, lng := n.lat.value, n.lng.value;
    match b
    case NoExtent => Box(lat, lat, lng, lng)
    case Box(a, z, c, d) => Box(Min(a, lat), Max(z, lat), Min(c, lng), Max(d, lng))
  }

  lemma SpansStep(nodes: seq<MapNode>, n: nat, b: LatLngBox)
    requires n < |nodes| && Spans(nodes, n, b) && Located(nodes[n])
    ensures Spans(nodes, n + 1, Widen(b, nodes[n]))
  {
    var b' := Widen(b, nodes[n]);
    if b.Box? {
      AttainedStep(nodes, n, b.minLat, b'.minLat);
      AttainedStep(nodes, n, b.maxLat, b'.maxLat);
      AttainedStepLng(nodes, n, b.minLng, b'.minLng);
      AttainedStepLng(nodes, n, b.maxLng, b'.maxLng);
    } else {
      assert forall j :: 0 <= j < n + 1 && Located(nodes[j]) ==> j == n;
    }
  }

  /**
   * calculateNetworkBounds: null for absent or empty nodes; otherwise the
   * tightest box around the nodes with truthy coordinates.
   */
  method CalculateNetworkBounds(nodes: Option<seq<MapNode>>) returns (r: Option<LatLngBox>)
    ensures r.None? <==> nodes.None? || nodes.value == []
    ensures r.Some? ==> Spans(nodes.value, |nodes.value|, r.value)
  {
    if nodes.None? || |nodes.value| == 0 {
      return None;
    }
    var ns := nodes.value;
    var b := NoExtent;
    for n := 0 to |ns|
      invariant Spans(ns, n, b)
    {
      if Located(ns[n]) {
        SpansStep(ns, n, b);
        var lat, lng := ns[n].lat.value, ns[n].lng.value;
        if b.NoExtent? {
          b := Box(lat, lat, lng, lng);
        } else {
          b := Box(Min(b.minLat, lat), Max(b.maxLat, lat), Min(b.minLng, lng), Max(b.maxLng, lng));
        }
      }
    }
    r := Some(b);
  }

  /** A box that some node spans has its minima below its maxima. */
  lemma SpansOrdered(nodes: seq<MapNode>, b: LatLngBox)
    requires Spans(nodes, |nodes|, b) && b.Box?
    ensures b.minLat <= b.maxLat && b.minLng <= b.maxLng
  {
    assert LatOf(nodes, |nodes|, b.minLat);
    var j :| 0 <= j < |nodes| && Located(nodes[j]) && nodes[j].lat.value == b.minLat;
  }

  // ---------------------------------------------------------------------
  // The elliptical leak zone

  datatype Radii = Radii(x: real, y: real)

  const BaseRadius: real := 80.0
  const Padding: real := 20.0
  const MetresPerDegree: real := 111320.0

  /** min(1 + leakSize / 30, 3). */
  function ScaleFactor(leakSize: real): real {
    Min(1.0 + leakSize / 30.0, 3.0)
  }

  /** The radii before the clamp: 80 m scaled, the horizontal one half again as wide. */
  function BaseRadii(leakSize: real): Radii {
    Radii(BaseRadius * ScaleFactor(leakSize) * 1.5, BaseRadius * ScaleFactor(leakSize))
  }

  lemma BaseRadiiShape(leakSize: real)
    requires leakSize >= 0.0
    ensures 1.0 <= ScaleFactor(leakSize) <= 3.0
    ensures ScaleFactor(leakSize) == 3.0 <==> leakSize >= 60.0
    ensures BaseRadii(leakSize).x == 1.5 * BaseRadii(leakSize).y
    ensures 80.0 <= BaseRadii(leakSize).y <= 240.0
  {
  }

  /** Larger leaks never give a smaller zone before the clamp. */
  lemma BaseRadiiMonotone(a: real, b: real)
    requires a <= b
    ensures BaseRadii(a).y <= BaseRadii(b).y && BaseRadii(a).x <= BaseRadii(b).x
  {
  }

  /**
   * maxRadiusX / maxRadiusY: the metres from the centre to the nearer side of
   * the box, less the padding.  cosLat is cos(center[0]·π/180); a degree of
   * longitude spans MetresPerDegree·cosLat metres, negative beyond the poles.
   */
  function Room(center: (real, real), b: LatLngBox, cosLat: real): (r: Option<Radii>)
    requires cosLat != 0.0
    ensures r.None? <==> b.NoExtent?
    ensures b.Box? ==>
      r.value.y + Padding == Min((center.0 - b.minLat) * MetresPerDegree, (b.maxLat - center.0) * MetresPerDegree)
    ensures b.Box? ==>
      r.value.x + Padding == Min((center.1 - b.minLng) * MetresPerDegree * cosLat, (b.maxLng - center.1) * MetresPerDegree * cosLat)
  {
    match b
    case NoExtent => None
    case Box(minLat, maxLat, minLng, maxLng) =>
      var latDegPerMeter := 1.0 / MetresPerDegree;
      var lngDegPerMeter := 1.0 / (MetresPerDegree * cosLat);
      var toMinLat, toMaxLat := (center.0 - minLat) / latDegPerMeter, (maxLat - center.0) / latDegPerMeter;
      var toMinLng, toMaxLng := (center.1 - minLng) / lngDegPerMeter, (maxLng - center.1) / lngDegPerMeter;
      PerReciprocal(center.0 - minLat, MetresPerDegree);
      PerReciprocal(maxLat - center.0, MetresPerDegree);
      PerReciprocal(center.1 - minLng, MetresPerDegree * cosLat);
      PerReciprocal(maxLng - center.1, MetresPerDegree * cosLat);
      Some(Radii(Min(toMinLng, toMaxLng) - Padding, Min(toMinLat, toMaxLat) - Padding))
  }

  /** Dividing by 1/d multiplies by d. */
  lemma PerReciprocal(a: real, d: real)
    requires d != 0.0
    ensures 1.0 / d != 0.0 && a / (1.0 / d) == a * d
  {
    assert (1.0 / d) * d == 1.0;
  }

  predicate RoomPositive(room: Option<Radii>) {
    room.Some? && room.value.y > 0.0 && room.value.x > 0.0
  }

  function Clamp(r: Radii, room: Option<Radii>): Radii {
    if RoomPositive(room) then Radii(Min(r.x, room.value.x), Min(r.y, room.value.y)) else r
  }

  /**
   * The radii EllipticalLeakZone draws: clamped to the network when there is
   * room, then floored.  Without positive room on both axes the zone is its
   * base size; with it, each radius stays within its room unless the floor
   * raises it.
   */
  function ZoneRadii(leakSize: real, bounds: Option<LatLngBox>, center: (real, real), cosLat: real): (z: Radii)
    requires cosLat != 0.0
    ensures z.x >= 30.0 && z.y >= 20.0
    ensures bounds.None? || !RoomPositive(Room(center, bounds.value, cosLat)) ==>
      z == Radii(Max(BaseRadii(leakSize).x, 30.0), Max(BaseRadii(leakSize).y, 20.0))
    ensures bounds.Some? && RoomPositive(Room(center, bounds.value, cosLat)) ==>
      var room := Room(center, bounds.value, cosLat).value;
      z.x <= Max(room.x, 30.0) && z.y <= Max(room.y, 20.0)
  {
    var base := BaseRadii(leakSize);
    var clamped := if bounds.Some? then Clamp(base, Room(center, bounds.value, cosLat)) else base;
    Radii(Max(clamped.x, 30.0), Max(clamped.y, 20.0))
  }

  /**
   * The clamp never enlarges a radius; it applies only when both rooms are
   * positive, and then keeps each radius within its room.
   */
  lemma ClampShrinks(r: Radii, room: Option<Radii>)
    ensures Clamp(r, room).x <= r.x && Clamp(r, room).y <= r.y
    ensures !RoomPositive(room) ==> Clamp(r, room) == r
    ensures RoomPositive(room) ==> Clamp(r, room).x <= room.value.x && Clamp(r, room).y <= room.value.y
  {
  }

  /** Without a network box, or with no node located, the zone keeps its base size (above the floors). */
  lemma ZoneUnclamped(leakSize: real, bounds: Option<LatLngBox>, center: (real, real), cosLat: real)
    requires cosLat != 0.0 && (bounds.None? || bounds.value.NoExtent?)
    ensures ZoneRadii(leakSize, bounds, center, cosLat)
         == Radii(Max(BaseRadii(leakSize).x, 30.0), Max(BaseRadii(leakSize).y, 20.0))
  {
  }

  /**
   * A centre beyond a pole (cos(lat) < 0) inside the box's longitudes has
   * negative longitude room, so the clamp is skipped and the zone keeps its
   * base size.
   */
  lemma BeyondPoleUnclamped(leakSize: real, b: LatLngBox, center: (real, real), cosLat: real)
    requires cosLat < 0.0 && b.Box? && b.minLng <= center.1 <= b.maxLng
    ensures !RoomPositive(Room(center, b, cosLat))
    ensures ZoneRadii(leakSize, Some(b), center, cosLat)
         == Radii(Max(BaseRadii(leakSize).x, 30.0), Max(BaseRadii(leakSize).y, 20.0))
  {
    NonPositiveProduct(center.1 - b.minLng, MetresPerDegree * cosLat);
  }

  lemma NonPositiveProduct(a: real, c: real)
    requires a >= 0.0 && c < 0.0
    ensures a * c <= 0.0
  {
  }

  /** The floors hold, and the zone is never wider than its unclamped size. */
  lemma ZoneRadiiBounds(leakSize: real, bounds: Option<LatLngBox>, center: (real, real), cosLat: real)
    requires cosLat != 0.0
    ensures var z := ZoneRadii(leakSize, bounds, center, cosLat);
      z.x >= 30.0 && z.y >= 20.0
      && z.x <= Max(BaseRadii(leakSize).x, 30.0) && z.y <= Max(BaseRadii(leakSize).y, 20.0)
  {
    if bounds.Some? {
      ClampShrinks(BaseRadii(leakSize), Room(center, bounds.value, cosLat));
    }
  }

  /** The fill opacity of the outer layer. */
  function ZoneOpacity(leakSize: real): (o: real)
    ensures o <= 0.3
    ensures leakSize >= 0.0 ==> o >= 0.15
  {
    Min(0.15 + leakSize / 200.0, 0.3)
  }

  const Layers: nat := 5
  const Segments: nat := 36

  /** 1 − (i / layers)·0.7. */
  function LayerFactor(i: nat): real {
    1.0 - (i as real / Layers as real) * 0.7
  }

  /** 1 − i / layers, the opacity's fade. */
  function LayerFade(i: nat): real {
    1.0 - i as real / Layers as real
  }

  /** One polygon of the zone. */
  datatype Layer = Layer(radiusX: real, radiusY: real, fillOpacity: real, stroke: bool, weight: nat,
                         color: string, points: seq<(real, real)>)

  /** sin and cos of the j-th angle j/36·2π. */
  type UnitCircle = nat -> (real, real)

  /** The j-th vertex lies ry·sin metres north and rx·cos metres east of the centre. */
  function Vertex(center: (real, real), rx: real, ry: real, cosLat: real, unit: UnitCircle, j: nat): (v: (real, real))
    requires cosLat != 0.0
    ensures (v.0 - center.0) * MetresPerDegree == ry * unit(j).0
    ensures (v.1 - center.1) * (MetresPerDegree * cosLat) == rx * unit(j).1
  {
    var v := (center.0 + (ry / MetresPerDegree) * unit(j).0, center.1 + (rx / (MetresPerDegree * cosLat)) * unit(j).1);
    OffsetMetres(ry, MetresPerDegree, unit(j).0);
    OffsetMetres(rx, MetresPerDegree * cosLat, unit(j).1);
    v
  }

  /** An offset of (r / d)·u degrees is r·u metres at d metres per degree. */
  lemma OffsetMetres(r: real, d: real, u: real)
    requires d != 0.0
    ensures ((r / d) * u) * d == r * u
  {
    assert (r / d) * d == r;
  }

  /** Angles with the same sine and cosine give the same vertex. */
  lemma SameAngleSameVertex(center: (real, real), rx: real, ry: real, cosLat: real, unit: UnitCircle, j: nat, j': nat)
    requires cosLat != 0.0
    ensures unit(j) == unit(j') ==> Vertex(center, rx, ry, cosLat, unit, j) == Vertex(center, rx, ry, cosLat, unit, j')
  {
    var v, v' := Vertex(center, rx, ry, cosLat, unit, j), Vertex(center, rx, ry, cosLat, unit, j');
    assert v.0 == center.0 + (ry / MetresPerDegree) * unit(j).0 && v.1 == center.1 + (rx / (MetresPerDegree * cosLat)) * unit(j).1;
    assert v'.0 == center.0 + (ry / MetresPerDegree) * unit(j').0 && v'.1 == center.1 + (rx / (MetresPerDegree * cosLat)) * unit(j').1;
    if unit(j) == unit(j') {
      assert unit(j).0 == unit(j').0 && unit(j).1 == unit(j').1;
      assert v.0 == v'.0 && v.1 == v'.1;
    }
  }

  /** The 37 points of an ellipse with radii (rx, ry) metres, the last one closing it. */
  function LayerPoints(center: (real, real), rx: real, ry: real, cosLat: real, unit: UnitCircle): (ps: seq<(real, real)>)
    requires cosLat != 0.0
    ensures |ps| == Segments + 1
    ensures forall j :: 0 <= j <= Segments ==> ps[j] == Vertex(center, rx, ry, cosLat, unit, j)
    ensures unit(Segments) == unit(0) ==> ps[Segments] == ps[0]
  {
    var ps := seq(Segments + 1, j requires 0 <= j <= Segments => Vertex(center, rx, ry, cosLat, unit, j));
    assert ps[Segments] == Vertex(center, rx, ry, cosLat, unit, Segments) && ps[0] == Vertex(center, rx, ry, cosLat, unit, 0);
    SameAngleSameVertex(center, rx, ry, cosLat, unit, Segments, 0);
    ps
  }

  /** Layer i as the nested loops of EllipticalLeakZone build it. */
  function LayerAt(center: (real, real), radii: Radii, opacity: real, cosLat: real, unit: UnitCircle, i: nat): (l: Layer)
    requires cosLat != 0.0
    ensures l.radiusX == radii.x * (1.0 - 0.14 * i as real) && l.radiusY == radii.y * (1.0 - 0.14 * i as real)
    ensures l.fillOpacity == opacity * (1.0 - i as real / 5.0)
    ensures (l.stroke <==> i == 0) && (l.weight == 2 <==> i == 0) && (l.color == "#e53e3e" <==> i == 0)
    ensures l.points == LayerPoints(center, l.radiusX, l.radiusY, cosLat, unit)
  {
    var rx, ry := radii.x * LayerFactor(i), radii.y * LayerFactor(i);
    Layer(rx, ry, opacity * LayerFade(i), i == 0, if i == 0 then 2 else 0,
          if i == 0 then "#e53e3e" else "transparent", LayerPoints(center, rx, ry, cosLat, unit))
  }

  /** The layer the outer loop builds from layer i's radii and points is LayerAt(i). */
  lemma LayerIs(center: (real, real), radii: Radii, opacity: real, cosLat: real, unit: UnitCircle, i: nat, layer: Layer)
    requires cosLat != 0.0
    requires layer == Layer(radii.x * LayerFactor(i), radii.y * LayerFactor(i), opacity * LayerFade(i), i == 0,
                            if i == 0 then 2 else 0, if i == 0 then "#e53e3e" else "transparent",
                            LayerPoints(center, radii.x * LayerFactor(i), radii.y * LayerFactor(i), cosLat, unit))
    ensures layer == LayerAt(center, radii, opacity, cosLat, unit, i)
  {
    var l := LayerAt(center, radii, opacity, cosLat, unit, i);
    assert l.radiusX == layer.radiusX;
    assert l.radiusY == layer.radiusY;
    assert l.fillOpacity == layer.fillOpacity;
    assert l.stroke == layer.stroke;
    assert l.weight == layer.weight;
    assert l.color == layer.color;
    assert l.points == layer.points;
  }

  /** A positive factor keeps a strict order. */
  lemma ScaleStrict(c: real, a: real, b: real)
    requires c > 0.0 && a < b
    ensures c * a < c * b
  {
    assert c * b - c * a == c * (b - a);
  }

  /**
   * Layers further in are smaller and fainter: the radius factor is 1 − 0.14·i
   * and the opacity opacity·(1 − i/5), both strictly decreasing; only the
   * outermost layer is stroked, and every polygon has 37 vertices.
   */
  lemma LayersShrink(center: (real, real), radii: Radii, opacity: real, cosLat: real, unit: UnitCircle, i: nat, i': nat)
    requires cosLat != 0.0 && i < i' < Layers && radii.x > 0.0 && radii.y > 0.0 && opacity > 0.0
    ensures LayerFactor(i) == 1.0 - 0.14 * i as real
    ensures var a, b := LayerAt(center, radii, opacity, cosLat, unit, i), LayerAt(center, radii, opacity, cosLat, unit, i');
      b.radiusX < a.radiusX && b.radiusY < a.radiusY && b.fillOpacity < a.fillOpacity && 0.0 < b.fillOpacity
      && !b.stroke && (a.stroke <==> i == 0) && |a.points| == 37
  {
    var a, b := LayerAt(center, radii, opacity, cosLat, unit, i), LayerAt(center, radii, opacity, cosLat, unit, i');
    var f, f' := LayerFactor(i), LayerFactor(i');
    assert f == 1.0 - 0.14 * i as real && f' == 1.0 - 0.14 * i' as real;
    ScaleStrict(radii.x, f', f);
    ScaleStrict(radii.y, f', f);
    var o, o' := LayerFade(i), LayerFade(i');
    assert o == 1.0 - i as real / 5.0 && o' == 1.0 - i' as real / 5.0;
    ScaleStrict(opacity, o', o);
    ScaleStrict(opacity, 0.0, o');
  }

  /** The inner loop of EllipticalLeakZone: one point per angle step, 0 to 36. */
  method EllipsePoints(center: (real, real), rx: real, ry: real, cosLat: real, unit: UnitCircle)
    returns (points: seq<(real, real)>)
    requires cosLat != 0.0
    ensures points == LayerPoints(center, rx, ry, cosLat, unit)
  {
    points := [];
    for j := 0 to Segments + 1
      invariant |points| == j
      invariant forall k :: 0 <= k < j ==> points[k] == Vertex(center, rx, ry, cosLat, unit, k)
    {
      points := points + [Vertex(center, rx, ry, cosLat, unit, j)];
    }
  }

  /** EllipticalLeakZone's outer loop, over the five layers. */
  method ZoneLayers(center: (real, real), radii: Radii, opacity: real, cosLat: real, unit: UnitCircle)
    returns (ellipses: seq<Layer>)
    requires cosLat != 0.0
    ensures |ellipses| == Layers
    ensures forall i :: 0 <= i < Layers ==> ellipses[i] == LayerAt(center, radii, opacity, cosLat, unit, i)
  {
    ellipses := [];
    for i := 0 to Layers
      invariant |ellipses| == i
      invariant forall k :: 0 <= k < i ==> ellipses[k] == LayerAt(center, radii, opacity, cosLat, unit, k)
    {
      var rx, ry := radii.x * LayerFactor(i), radii.y * LayerFactor(i);
      var points := EllipsePoints(center, rx, ry, cosLat, unit);
      var layer := Layer(rx, ry, opacity * LayerFade(i), i == 0, if i == 0 then 2 else 0,
                         if i == 0 then "#e53e3e" else "transparent", points);
      LayerIs(center, radii, opacity, cosLat, unit, i, layer);
      ellipses := ellipses + [layer];
    }
  }

  // ---------------------------------------------------------------------
  // Pipes and markers

  /** Pipes touching the node with the given id. */
  predicate Incident(p: MapPipe, id: string) {
    p.fromNode == id || p.toNode == id
  }

  /**
   * enhancedAffectedPipes: the given pipe ids, and with a nearest node also
   * the ids of the pipes that touch it.
   */
  method EnhancedAffectedPipes(affectedPipes: seq<string>, nearest: Option<NearestNode>, pipes: seq<MapPipe>)
    returns (affected: set<string>)
    ensures forall id :: id in affected <==>
      id in affectedPipes
      || (nearest.Some? && exists k :: 0 <= k < |pipes| && pipes[k].id == id && Incident(pipes[k], nearest.value.node.id))
  {
    affected := set id | id in affectedPipes;
    if nearest.Some? {
      for k := 0 to |pipes|
        invariant forall id :: id in affected <==>
          id in affectedPipes
          || exists k' :: 0 <= k' < k && pipes[k'].id == id && Incident(pipes[k'], nearest.value.node.id)
      {
        if pipes[k].fromNode == nearest.value.node.id || pipes[k].toNode == nearest.value.node.id {
          affected := affected + {pipes[k].id};
        }
      }
    }
  }

  /** A polyline: both end positions, whether it is drawn as affected, and the pipe. */
  datatype PipeLine = PipeLine(id: string, positions: seq<(Option<real>, Option<real>)>, isAffected: bool, pipe: MapPipe)

  predicate Resolves(nodeMap: map<string, MapNode>, p: MapPipe) {
    p.fromNode in nodeMap && p.toNode in nodeMap
  }

  function Line(nodeMap: map<string, MapNode>, affected: set<string>, p: MapPipe): PipeLine
    requires Resolves(nodeMap, p)
  {
    var a, b := nodeMap[p.fromNode], nodeMap[p.toNode];
    PipeLine(p.id, [(a.lat, a.lng), (b.lat, b.lng)], p.id in affected, p)
  }

  function PipesOf(ls: seq<PipeLine>): (ps: seq<MapPipe>)
    ensures |ps| == |ls| && forall i :: 0 <= i < |ls| ==> ps[i] == ls[i].pipe
  {
    seq(|ls|, i requires 0 <= i < |ls| => ls[i].pipe)
  }

  /**
   * pipeLines: exactly the pipes whose two end nodes are in the lookup, in
   * their order, each marked affected iff its id is in the widened set.
   */
  function PipeLines(pipes: seq<MapPipe>, nodeMap: map<string, MapNode>, affected: set<string>): (r: seq<PipeLine>)
    ensures IsSubsequence(PipesOf(r), pipes)
    ensures forall p :: p in pipes && Resolves(nodeMap, p) <==> p in PipesOf(r)
    ensures forall i :: 0 <= i < |r| ==> r[i].isAffected == (r[i].id in affected) && r[i].id == r[i].pipe.id
    decreases |pipes|
  {
    if pipes == [] then []
    else
      var rest := PipeLines(pipes[1..], nodeMap, affected);
      assert forall p :: p in pipes <==> p == pipes[0] || p in pipes[1..];
      if Resolves(nodeMap, pipes[0]) then
        var r := [Line(nodeMap, affected, pipes[0])] + rest;
        assert PipesOf(r)[1..] == PipesOf(rest);
        r
      else rest
  }

  /** With the lookup built from the nodes, a pipe is drawn iff both its end ids name some node. */
  lemma PipeLinesOfNodes(nodes: seq<MapNode>, pipes: seq<MapPipe>, affected: set<string>, p: MapPipe)
    requires p in pipes
    ensures p in PipesOf(PipeLines(pipes, NodeMap(nodes), affected)) <==>
      (exists i :: 0 <= i < |nodes| && nodes[i].id == p.fromNode) && (exists i :: 0 <= i < |nodes| && nodes[i].id == p.toNode)
  {
    NodeMapLookup(nodes, p.fromNode);
    NodeMapLookup(nodes, p.toNode);
  }

  datatype PathStyle = PathStyle(color: string, weight: nat, opacity: real)

  /** A polyline's path options: red, heavy and opaque iff it is drawn as affected. */
  function PipeStyle(l: PipeLine): (s: PathStyle)
    ensures s.color == "#e53e3e" <==> l.isAffected
    ensures s == if l.isAffected then PathStyle("#e53e3e", 4, 1.0) else PathStyle("#4a90d9", 2, 0.5)
  {
    if l.isAffected then PathStyle("#e53e3e", 4, 1.0) else PathStyle("#4a90d9", 2, 0.5)
  }

  /**
   * With the widened set of EnhancedAffectedPipes, a drawn pipe is red iff its
   * id was given or some pipe with its id touches the nearest node; in
   * particular every drawn pipe touching the nearest node is red.
   */
  lemma DrawnPipeStyle(affectedPipes: seq<string>, nearest: Option<NearestNode>, pipes: seq<MapPipe>,
                       nodeMap: map<string, MapNode>, affected: set<string>, k: nat)
    requires forall id :: id in affected <==>
      id in affectedPipes
      || (nearest.Some? && exists k :: 0 <= k < |pipes| && pipes[k].id == id && Incident(pipes[k], nearest.value.node.id))
    requires k < |PipeLines(pipes, nodeMap, affected)|
    ensures var l := PipeLines(pipes, nodeMap, affected)[k];
      (PipeStyle(l).color == "#e53e3e" <==>
        (l.pipe.id in affectedPipes
         || (nearest.Some? && exists k' :: 0 <= k' < |pipes| && pipes[k'].id == l.pipe.id && Incident(pipes[k'], nearest.value.node.id))))
      && (nearest.Some? && Incident(l.pipe, nearest.value.node.id) ==> PipeStyle(l).color == "#e53e3e")
  {
    var ls := PipeLines(pipes, nodeMap, affected);
    var l := ls[k];
    assert PipesOf(ls)[k] == l.pipe;
    assert l.pipe in pipes;
    var j :| 0 <= j < |pipes| && pipes[j] == l.pipe;
    if nearest.Some? && Incident(l.pipe, nearest.value.node.id) {
      assert pipes[j].id == l.id;
    }
  }

  /**
   * actualLeakLat / actualLeakLng: the nearest node's coordinates where they
   * are truthy, the predicted ones otherwise.
   */
  function LeakCentre(nearest: Option<NearestNode>, leakLat: Option<real>, leakLng: Option<real>): (Option<real>, Option<real>) {
    var lat := if nearest.Some? && Truthy(nearest.value.node.lat) then nearest.value.node.lat else leakLat;
    var lng := if nearest.Some? && Truthy(nearest.value.node.lng) then nearest.value.node.lng else leakLng;
    (lat, lng)
  }

  /** A found nearest node always has coordinates, so the zone snaps to it. */
  lemma LeakCentreSnaps(nodes: Option<seq<MapNode>>, leakLat: Option<real>, leakLng: Option<real>, dist: Distance,
                        r: Option<NearestNode>)
    requires r.Some? ==> (Truthy(leakLat) && Truthy(leakLng) && nodes.Some? &&
      var ds := Candidates(nodes.value, leakLat.value, leakLng.value, dist);
      exists k: nat :: IsFirstMin(ds, k) && r.value == NearestNode(nodes.value[k], ds[k].value))
    ensures r.Some? ==> LeakCentre(r, leakLat, leakLng) == (r.value.node.lat, r.value.node.lng)
    ensures r.None? ==> LeakCentre(r, leakLat, leakLng) == (leakLat, leakLng)
  {
    if r.Some? {
      var ds := Candidates(nodes.value, leakLat.value, leakLng.value, dist);
      var k: nat :| IsFirstMin(ds, k) && r.value == NearestNode(nodes.value[k], ds[k].value);
      assert Located(nodes.value[k]);
    }
  }

  datatype MarkerStyle = MarkerStyle(radius: nat, color: string, fillOpacity: real, weight: nat)

  /** The monitored node outranks the nearest node, which outranks the rest. */
  function NodeMarker(id: string, monitored: Option<string>, nearest: Option<NearestNode>): (m: MarkerStyle)
    ensures m.radius == if monitored == Some(id) then 10 else if nearest.Some? && nearest.value.node.id == id then 8 else 4
  {
    if monitored == Some(id) then MarkerStyle(10, "#3182ce", 0.9, 3)
    else if nearest.Some? && nearest.value.node.id == id then MarkerStyle(8, "#e53e3e", 0.9, 2)
    else MarkerStyle(4, "#38a169", 0.4, 1)
  }

  /**
   * The monitored node's marker is never smaller than any other, the
   * nearest node's marker is never smaller than a plain node's, and the
   * monitored style wins when one node is both.
   */
  lemma MarkerPrecedence(id: string, other: string, monitored: Option<string>, nearest: Option<NearestNode>)
    ensures monitored == Some(id) ==> NodeMarker(other, monitored, nearest).radius <= NodeMarker(id, monitored, nearest).radius
    ensures nearest.Some? && nearest.value.node.id == id && monitored != Some(id) && monitored != Some(other) ==>
      NodeMarker(other, monitored, nearest).radius <= NodeMarker(id, monitored, nearest).radius
    ensures monitored == Some(id) ==> NodeMarker(id, monitored, nearest) == NodeMarker(id, monitored, None)
    ensures NodeMarker(id, monitored, nearest).radius in {4, 8, 10}
  {
  }

  /** The zone and the centre marker are drawn only when the centre's coordinates are truthy. */
  predicate ZoneDrawn(centre: (Option<real>, Option<real>)) {
    Truthy(centre.0) && Truthy(centre.1)
  }
}
