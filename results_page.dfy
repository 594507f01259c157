/**
 * The render-time derivations of the results page: nodes and pipes in GPS,
 * one leak location per predicted position, the nodes and pipes within a
 * leak's radius, the leak colour and the highlight rules.  The Haversine
 * distance is a parameter.  A leak_y or leak_size_lps entry missing for an
 * index of leak_x is undefined in JavaScript and makes the derived numbers
 * NaN; here it is None, and every comparison with it is false.
 */
module ResultsPage {
  import opened Wrappers
  import opened Seqs
  import opened MapData
  import opened CoordinateTransform

  type Distance = (real, real, real, real) -> real

  /** `{ ...node, gps: transformToGPS(node.coordinates.x, node.coordinates.y) }`. */
  datatype GpsNode = GpsNode(node: MapNode, gps: LatLng)

  function TransformedNodes(nodes: seq<MapNode>): (r: seq<GpsNode>)
    ensures |r| == |nodes| && forall i :: 0 <= i < |nodes| ==> r[i] == GpsNode(nodes[i], ToGps(nodes[i].x, nodes[i].y))
  {
    seq(|nodes|, i requires 0 <= i < |nodes| => GpsNode(nodes[i], ToGps(nodes[i].x, nodes[i].y)))
  }

  /** `transformedNodes.find(n => n.id === id)`. */
  function FindGps(ns: seq<GpsNode>, id: string): (r: Option<GpsNode>)
    ensures r.None? ==> forall j :: 0 <= j < |ns| ==> ns[j].node.id != id
    ensures r.Some? ==>
      exists k :: 0 <= k < |ns| && ns[k] == r.value && r.value.node.id == id && forall j :: 0 <= j < k ==> ns[j].node.id != id
  {
    if ns == [] then None
    else if ns[0].node.id == id then Some(ns[0])
    else
      var r := FindGps(ns[1..], id);
      if r.Some? then
        var k :| 0 <= k < |ns[1..]| && ns[1..][k] == r.value && r.value.node.id == id
          && forall j :: 0 <= j < k ==> ns[1..][j].node.id != id;
        assert ns[k + 1] == r.value;
        r
      else r
  }

  /** A pipe with the GPS positions of its two end nodes. */
  datatype GpsPipe = GpsPipe(pipe: MapPipe, from: LatLng, to: LatLng)

  predicate BothFound(ns: seq<GpsNode>, p: MapPipe) {
    FindGps(ns, p.fromNode).Some? && FindGps(ns, p.toNode).Some?
  }

  /** The pipe's end nodes are found and it lies between their GPS positions. */
  predicate Positioned(ns: seq<GpsNode>, g: GpsPipe) {
    BothFound(ns, g.pipe) && g.from == FindGps(ns, g.pipe.fromNode).value.gps && g.to == FindGps(ns, g.pipe.toNode).value.gps
  }

  function PipesOf(gs: seq<GpsPipe>): (ps: seq<MapPipe>)
    ensures |ps| == |gs| && forall i :: 0 <= i < |gs| ==> ps[i] == gs[i].pipe
  {
    seq(|gs|, i requires 0 <= i < |gs| => gs[i].pipe)
  }

  function Position(ns: seq<GpsNode>, p: MapPipe): (g: GpsPipe)
    requires BothFound(ns, p)
    ensures Positioned(ns, g) && g.pipe == p
  {
    GpsPipe(p, FindGps(ns, p.fromNode).value.gps, FindGps(ns, p.toNode).value.gps)
  }

  /**
   * transformedPipes: exactly the pipes whose two end nodes are found, in
   * order (a filter), positioned at the GPS of those nodes.
   */
  function TransformedPipes(ns: seq<GpsNode>, pipes: seq<MapPipe>): (r: seq<GpsPipe>)
    ensures PipesOf(r) == Filter(pipes, (p: MapPipe) => BothFound(ns, p))
    ensures forall i :: 0 <= i < |r| ==> Positioned(ns, r[i])
  {
    var kept := Filter(pipes, (p: MapPipe) => BothFound(ns, p));
    seq(|kept|, i requires 0 <= i < |kept| => Position(ns, kept[i]))
  }

  /** Element i, undefined past the end. */
  function At(s: seq<real>, i: nat): (r: Option<real>)
    ensures r.Some? <==> i < |s|
    ensures i < |s| ==> r.value == s[i]
  {
    if i < |s| then Some(s[i]) else None
  }

  datatype LeakLocation = LeakLocation(id: nat, x: real, y: Option<real>, gps: Option<LatLng>, size: Option<real>,
                                       radius: Option<real>)

  function LeakAt(leakX: seq<real>, leakY: seq<real>, sizes: seq<real>, i: nat): LeakLocation
    requires i < |leakX|
  {
    var y, size := At(leakY, i), At(sizes, i);
    LeakLocation(i, leakX[i], y, if y.Some? then Some(ToGps(leakX[i], y.value)) else None, size,
                 if size.Some? then Some(20.0 + size.value * 10.0) else None)
  }

  /**
   * leakLocations: one per index of leak_x, paired with leak_y and
   * leak_size_lps at that index, with radius 20 + 10·size metres.
   */
  function LeakLocations(leakX: seq<real>, leakY: seq<real>, sizes: seq<real>): (r: seq<LeakLocation>)
    ensures |r| == |leakX|
    ensures forall i :: 0 <= i < |r| ==> r[i] == LeakAt(leakX, leakY, sizes, i)
  {
    seq(|leakX|, i requires 0 <= i < |leakX| => LeakAt(leakX, leakY, sizes, i))
  }

  /** With parallel arrays every location is defined, at the GPS of its position. */
  lemma LeakLocationsParallel(leakX: seq<real>, leakY: seq<real>, sizes: seq<real>, i: nat)
    requires |leakY| == |leakX| == |sizes| && i < |leakX|
    ensures var l := LeakLocations(leakX, leakY, sizes)[i];
      l.gps == Some(ToGps(leakX[i], leakY[i])) && l.radius == Some(20.0 + 10.0 * sizes[i]) && l.id == i
  {
  }

  /** `calculateDistance(leak.gps, gps) <= leak.radius`; false when either side is NaN. */
  predicate Within(dist: Distance, leak: LeakLocation, gps: LatLng) {
    leak.gps.Some? && leak.radius.Some? && dist(leak.gps.value.lat, leak.gps.value.lng, gps.lat, gps.lng) <= leak.radius.value
  }

  /** getAffectedElements(leak).affectedNodes. */
  function AffectedNodes(dist: Distance, ns: seq<GpsNode>, leak: LeakLocation): (r: seq<GpsNode>)
    ensures IsSubsequence(r, ns)
    ensures forall n :: n in r <==> n in ns && Within(dist, leak, n.gps)
  {
    Filter(ns, (n: GpsNode) => Within(dist, leak, n.gps))
  }

  /** Either end of the pipe is within the leak's radius. */
  predicate PipeAffected(dist: Distance, ns: seq<GpsNode>, leak: LeakLocation, p: GpsPipe) {
    var a, b := FindGps(ns, p.pipe.fromNode), FindGps(ns, p.pipe.toNode);
    a.Some? && b.Some? && (Within(dist, leak, a.value.gps) || Within(dist, leak, b.value.gps))
  }

  /** getAffectedElements(leak).affectedPipes. */
  function AffectedPipes(dist: Distance, ns: seq<GpsNode>, ps: seq<GpsPipe>, leak: LeakLocation): (r: seq<GpsPipe>)
    ensures IsSubsequence(r, ps)
    ensures forall p :: p in r <==> p in ps && PipeAffected(dist, ns, leak, p)
  {
    Filter(ps, (p: GpsPipe) => PipeAffected(dist, ns, leak, p))
  }

  /**
   * A transformed pipe that touches an affected node is affected; the
   * touching node is the one the pipe's lookup finds.
   */
  lemma TouchingAffectedNode(dist: Distance, nodes: seq<MapNode>, pipes: seq<MapPipe>, leak: LeakLocation, p: GpsPipe)
    requires p in TransformedPipes(TransformedNodes(nodes), pipes)
    requires var ns := TransformedNodes(nodes);
      FindGps(ns, p.pipe.fromNode).value in AffectedNodes(dist, ns, leak)
      || FindGps(ns, p.pipe.toNode).value in AffectedNodes(dist, ns, leak)
    ensures var ns := TransformedNodes(nodes);
      p in AffectedPipes(dist, ns, TransformedPipes(ns, pipes), leak)
  {
    var ns := TransformedNodes(nodes);
    var ps := TransformedPipes(ns, pipes);
    var k :| 0 <= k < |ps| && ps[k] == p;
    assert Positioned(ns, ps[k]);
  }

  /** getLeakColor: the share of the largest leak; red above 0.7, orange above 0.4, else yellow. */
  function LeakColor(size: Option<real>, maxSize: Option<real>): string {
    if ShareAbove(size, maxSize, 0.7) then "#ef4444"
    else if ShareAbove(size, maxSize, 0.4) then "#f59e0b"
    else "#eab308"
  }

  /**
   * size / maxSize > t in JavaScript: a missing size is NaN; a missing maximum
   * is -Infinity (Math.max of no values), giving a share of at most zero; a
   * zero maximum gives ±Infinity, or NaN for a zero size.
   */
  predicate ShareAbove(size: Option<real>, maxSize: Option<real>, t: real)
    requires t > 0.0
  {
    size.Some? && maxSize.Some? &&
    if maxSize.value == 0.0 then size.value > 0.0 else size.value / maxSize.value > t
  }

  /** Math.max(...leak_size_lps); None is -Infinity. */
  function MaxSize(sizes: seq<real>): (m: Option<real>)
    ensures m.None? <==> sizes == []
    ensures m.Some? ==> m.value in sizes && forall i :: 0 <= i < |sizes| ==> sizes[i] <= m.value
  {
    if sizes == [] then None else Some(MaxOf(sizes))
  }

  /** The largest leak is red whenever it is positive; a larger share never gets a milder colour. */
  lemma LargestLeakIsRed(sizes: seq<real>, i: nat)
    requires i < |sizes| && sizes[i] == MaxOf(sizes) && sizes[i] > 0.0
    ensures LeakColor(Some(sizes[i]), MaxSize(sizes)) == "#ef4444"
  {
    assert sizes[i] / sizes[i] == 1.0;
  }

  function ColorRank(c: string): nat {
    if c == "#ef4444" then 2 else if c == "#f59e0b" then 1 else 0
  }

  lemma LeakColorMonotone(a: real, b: real, maxSize: real)
    requires maxSize > 0.0 && a <= b
    ensures ColorRank(LeakColor(Some(a), Some(maxSize))) <= ColorRank(LeakColor(Some(b), Some(maxSize)))
  {
    assert b / maxSize - a / maxSize == (b - a) / maxSize;
    assert (b - a) / maxSize >= 0.0;
  }

  /** A pipe is highlighted iff some leak's affected pipes include one with its id. */
  predicate PipeHighlighted(dist: Distance, ns: seq<GpsNode>, ps: seq<GpsPipe>, leaks: seq<LeakLocation>, p: GpsPipe) {
    exists l, q :: l in leaks && q in AffectedPipes(dist, ns, ps, l) && q.pipe.id == p.pipe.id
  }

  datatype PipeStyle = PipeStyle(color: string, weight: nat, opacity: real)

  /** A pipe's path options: amber, heavy and bright iff it is highlighted, dimmed slate otherwise. */
  function PipeStyleOf(dist: Distance, ns: seq<GpsNode>, ps: seq<GpsPipe>, leaks: seq<LeakLocation>, p: GpsPipe): (s: PipeStyle)
    ensures s == PipeStyle("#f59e0b", 4, 0.9) <==> PipeHighlighted(dist, ns, ps, leaks, p)
    ensures s == PipeStyle("#475569", 2, 0.4) <==> !PipeHighlighted(dist, ns, ps, leaks, p)
  {
    if PipeHighlighted(dist, ns, ps, leaks, p) then PipeStyle("#f59e0b", 4, 0.9) else PipeStyle("#475569", 2, 0.4)
  }

  /** A drawn pipe with an end node within some leak's radius is highlighted. */
  lemma PipeWithinIsHighlighted(dist: Distance, ns: seq<GpsNode>, ps: seq<GpsPipe>, leaks: seq<LeakLocation>,
                                l: LeakLocation, p: GpsPipe)
    requires l in leaks && p in ps
    requires var a, b := FindGps(ns, p.pipe.fromNode), FindGps(ns, p.pipe.toNode);
      a.Some? && b.Some? && (Within(dist, l, a.value.gps) || Within(dist, l, b.value.gps))
    ensures PipeStyleOf(dist, ns, ps, leaks, p).weight == 4
  {
    assert p in AffectedPipes(dist, ns, ps, l);
  }

  /** A node is drawn large iff some leak's affected nodes include one with its id. */
  predicate NodeHighlighted(dist: Distance, ns: seq<GpsNode>, leaks: seq<LeakLocation>, n: GpsNode) {
    exists l, m :: l in leaks && m in AffectedNodes(dist, ns, l) && m.node.id == n.node.id
  }

  function NodeRadius(dist: Distance, ns: seq<GpsNode>, leaks: seq<LeakLocation>, n: GpsNode): (r: nat)
    ensures r == 6 <==> NodeHighlighted(dist, ns, leaks, n)
    ensures r == 4 <==> !NodeHighlighted(dist, ns, leaks, n)
  {
    if NodeHighlighted(dist, ns, leaks, n) then 6 else 4
  }

  /** A node within some leak's radius is drawn large. */
  lemma NodeWithinIsHighlighted(dist: Distance, ns: seq<GpsNode>, leaks: seq<LeakLocation>, l: LeakLocation, n: GpsNode)
    requires l in leaks && n in ns && Within(dist, l, n.gps)
    ensures NodeRadius(dist, ns, leaks, n) == 6
  {
    assert n in AffectedNodes(dist, ns, l);
  }
}
