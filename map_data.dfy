/**
 * The network as the frontend components receive it: nodes with display
 * coordinates (x, y) and GPS coordinates (lat, lng); pipes naming their two
 * end nodes.  Every caller builds a `coordinates` object for every node, so
 * that object is always present; only its `lat` and `lng` fields may be
 * missing.
 */
module MapData {
  import opened Wrappers
  import opened Seqs

  /** `coordinates` is always present; its `lat` / `lng` fields may be missing, hence Option. */
  datatype MapNode = MapNode(id: string, kind: string, x: real, y: real, lat: Option<real>, lng: Option<real>)

  datatype MapPipe = MapPipe(id: string, fromNode: string, toNode: string)

  /**
   * JavaScript truthiness of a number that may be undefined: undefined and 0
   * are falsy (NaN, also falsy, has no counterpart among the reals).
   */
  predicate Truthy(v: Option<real>) {
    v.Some? && v.value != 0.0
  }

  /** `node.coordinates?.lat && node.coordinates?.lng`. */
  predicate Located(n: MapNode) {
    Truthy(n.lat) && Truthy(n.lng)
  }

  /** Among the first n nodes, nodes[i] is the last one with id k. */
  predicate LastWithIdBefore(nodes: seq<MapNode>, n: nat, k: string, i: nat) {
    i < n <= |nodes| && nodes[i].id == k && forall j :: i < j < n ==> nodes[j].id != k
  }

  /**
   * The `nodeMap` that `nodes.forEach(node => { nodeMap[node.id] = node })`
   * fills: the nodes' own ids only.  The names a plain object inherits from
   * `Object.prototype`, and the special `__proto__` key, are not modelled.
   */
  function NodeMap(nodes: seq<MapNode>): map<string, MapNode> {
    if nodes == [] then map[]
    else NodeMap(nodes[..|nodes| - 1])[nodes[|nodes| - 1].id := nodes[|nodes| - 1]]
  }

  /** One entry per id, holding the last node with that id. */
  lemma {:induction false} NodeMapLookup(nodes: seq<MapNode>, k: string)
    ensures k in NodeMap(nodes) <==> exists i :: 0 <= i < |nodes| && nodes[i].id == k
    ensures k in NodeMap(nodes) ==> exists i: nat :: LastWithIdBefore(nodes, |nodes|, k, i) && NodeMap(nodes)[k] == nodes[i]
  {
    if nodes != [] {
      var n := |nodes| - 1;
      var init := nodes[..n];
      NodeMapLookup(init, k);
      assert forall i :: 0 <= i < n ==> init[i] == nodes[i];
      if k != nodes[n].id && k in NodeMap(nodes) {
        var i: nat :| LastWithIdBefore(init, n, k, i) && NodeMap(init)[k] == init[i];
        assert LastWithIdBefore(nodes, |nodes|, k, i);
      } else if k == nodes[n].id {
        assert LastWithIdBefore(nodes, |nodes|, k, n);
      }
    }
  }

  method BuildNodeMap(nodes: seq<MapNode>) returns (m: map<string, MapNode>)
    ensures m == NodeMap(nodes)
  {
    m := map[];
    for n := 0 to |nodes|
      invariant m == NodeMap(nodes[..n])
    {
      PrefixSnoc(nodes, n);
      assert nodes[..n + 1][..n] == nodes[..n];
      m := m[nodes[n].id := nodes[n]];
    }
    PrefixAll(nodes);
  }

  /** `nodes.find(n => n.id === id)`: the first node with that id. */
  function Find(nodes: seq<MapNode>, id: string): (r: Option<nat>)
    ensures r.None? ==> forall j :: 0 <= j < |nodes| ==> nodes[j].id != id
    ensures r.Some? ==>
      r.value < |nodes| && nodes[r.value].id == id && forall j :: 0 <= j < r.value ==> nodes[j].id != id
  {
    if nodes == [] then None
    else if nodes[0].id == id then Some(0)
    else
      match Find(nodes[1..], id)
      case None => None
      case Some(j) => Some(j + 1)
  }
}
