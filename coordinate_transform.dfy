/**
 * The frontend's affine map between the parser's 0..1000 display square and
 * latitude/longitude around the Kathmandu city centre, its inverse, and the
 * bounding box of a node list.  Numbers are reals: the model has no
 * floating-point rounding.
 */
module CoordinateTransform {
  import opened Wrappers
  import opened Seqs

  const CenterLat: real := 27.7172
  const CenterLng: real := 85.3240
  /** Degrees per 1000 display units. */
  const ScaleFactor: real := 0.02

  datatype LatLng = LatLng(lat: real, lng: real)

  /** A node's `coordinates` in the display square. */
  datatype Point = Point(x: real, y: real)

  /** [[south, west], [north, east]]. */
  datatype Bounds = Bounds(south: real, west: real, north: real, east: real)

  /** transformToGPS: y drives latitude, x drives longitude, (500, 500) is the centre. */
  function ToGps(x: real, y: real): LatLng {
    var centeredX := x - 500.0;
    var centeredY := y - 500.0;
    LatLng(CenterLat + (centeredY / 1000.0) * ScaleFactor, CenterLng + (centeredX / 1000.0) * ScaleFactor)
  }

  /** transformFromGPS. */
  function FromGps(lat: real, lng: real): Point {
    Point(((lng - CenterLng) / ScaleFactor) * 1000.0 + 500.0, ((lat - CenterLat) / ScaleFactor) * 1000.0 + 500.0)
  }

  /** The middle of the display square is the city centre. */
  lemma ToGpsCentre()
    ensures ToGps(500.0, 500.0) == LatLng(CenterLat, CenterLng)
  {
  }

  /** Back from GPS after going to GPS gives the display point again. */
  lemma FromGpsToGps(x: real, y: real)
    ensures FromGps(ToGps(x, y).lat, ToGps(x, y).lng) == Point(x, y)
  {
    var g := ToGps(x, y);
    assert (g.lat - CenterLat) / ScaleFactor * 1000.0 == y - 500.0;
    assert (g.lng - CenterLng) / ScaleFactor * 1000.0 == x - 500.0;
  }

  /** To GPS after back from GPS gives the position again. */
  lemma ToGpsFromGps(lat: real, lng: real)
    ensures ToGps(FromGps(lat, lng).x, FromGps(lat, lng).y) == LatLng(lat, lng)
  {
    var p := FromGps(lat, lng);
    assert (p.y - 500.0) / 1000.0 * ScaleFactor == lat - CenterLat;
    assert (p.x - 500.0) / 1000.0 * ScaleFactor == lng - CenterLng;
  }

  /**
   * Latitude depends on y alone and longitude on x alone; both grow strictly,
   * by 0.02 degrees for every 1000 units.
   */
  lemma ToGpsAxes(x: real, y: real, x': real, y': real)
    ensures ToGps(x, y).lat == ToGps(x', y).lat && ToGps(x, y).lng == ToGps(x, y').lng
    ensures y < y' ==> ToGps(x, y).lat < ToGps(x, y').lat
    ensures x < x' ==> ToGps(x, y).lng < ToGps(x', y).lng
    ensures ToGps(x, y + 1000.0).lat == ToGps(x, y).lat + ScaleFactor
    ensures ToGps(x + 1000.0, y).lng == ToGps(x, y).lng + ScaleFactor
  {
  }

  function Lats(ps: seq<Point>): (lats: seq<real>)
    ensures |lats| == |ps| && forall i :: 0 <= i < |ps| ==> lats[i] == ToGps(ps[i].x, ps[i].y).lat
  {
    seq(|ps|, i requires 0 <= i < |ps| => ToGps(ps[i].x, ps[i].y).lat)
  }

  function Lngs(ps: seq<Point>): (lngs: seq<real>)
    ensures |lngs| == |ps| && forall i :: 0 <= i < |ps| ==> lngs[i] == ToGps(ps[i].x, ps[i].y).lng
  {
    seq(|ps|, i requires 0 <= i < |ps| => ToGps(ps[i].x, ps[i].y).lng)
  }

  /** getNetworkBounds; None stands for an absent node list. */
  function NetworkBounds(nodes: Option<seq<Point>>): (b: Bounds)
    ensures b.south <= b.north && b.west <= b.east
  {
    if nodes.None? || |nodes.value| == 0 then
      Bounds(CenterLat - 0.01, CenterLng - 0.01, CenterLat + 0.01, CenterLng + 0.01)
    else
      var lats, lngs := Lats(nodes.value), Lngs(nodes.value);
      Bounds(MinOf(lats), MinOf(lngs), MaxOf(lats), MaxOf(lngs))
  }

  /** No nodes: the fixed box 0.01 degrees around the centre. */
  lemma NetworkBoundsEmpty(nodes: Option<seq<Point>>)
    requires nodes.None? || nodes.value == []
    ensures NetworkBounds(nodes) == Bounds(CenterLat - 0.01, CenterLng - 0.01, CenterLat + 0.01, CenterLng + 0.01)
  {
  }

  /** Every node lies in the box, and each side of the box is reached by some node. */
  lemma NetworkBoundsTight(ps: seq<Point>)
    requires ps != []
    ensures var b := NetworkBounds(Some(ps));
      && (forall i :: 0 <= i < |ps| ==>
            var g := ToGps(ps[i].x, ps[i].y);
            b.south <= g.lat <= b.north && b.west <= g.lng <= b.east)
      && (exists i :: 0 <= i < |ps| && ToGps(ps[i].x, ps[i].y).lat == b.south)
      && (exists i :: 0 <= i < |ps| && ToGps(ps[i].x, ps[i].y).lat == b.north)
      && (exists i :: 0 <= i < |ps| && ToGps(ps[i].x, ps[i].y).lng == b.west)
      && (exists i :: 0 <= i < |ps| && ToGps(ps[i].x, ps[i].y).lng == b.east)
  {
    var lats, lngs := Lats(ps), Lngs(ps);
    var b := NetworkBounds(Some(ps));
    assert b == Bounds(MinOf(lats), MinOf(lngs), MaxOf(lats), MaxOf(lngs));
    var i1 :| 0 <= i1 < |lats| && lats[i1] == b.south;
    var i2 :| 0 <= i2 < |lats| && lats[i2] == b.north;
    var i3 :| 0 <= i3 < |lngs| && lngs[i3] == b.west;
    var i4 :| 0 <= i4 < |lngs| && lngs[i4] == b.east;
  }
}
