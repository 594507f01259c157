/**
 * The network map: how each node is styled by its kind, by being an
 * observation (sensor) node and by being selected; which nodes react to a
 * click; and which pipes are drawn between which positions.
 */
module NetworkMap {
  import opened Wrappers
  import opened Seqs
  import opened MapData

  // ---------------------------------------------------------------------------
  // Node styles

  /** getNodeColor: sensors are black whatever their kind. */
  function NodeColor(kind: string, isObservation: bool): string {
    if isObservation then "#000000"
    else if kind == "reservoir" then "#1e7b34"
    else if kind == "tank" then "#b8860b"
    else "#00bcd4"
  }

  /** getNodeRadius. */
  function NodeRadius(kind: string, isObservation: bool): nat {
    if isObservation then 8
    else if kind == "reservoir" then 10
    else if kind == "tank" then 9
    else 5
  }

  /** getTypeLabel: the kind the popup names. */
  function TypeLabel(kind: string, isObservation: bool): string {
    if isObservation then "Sensor Node"
    else if kind == "reservoir" then "Reservoir"
    else if kind == "tank" then "Tank"
    else "Junction"
  }

  /**
   * Colour, radius and popup label make the same four-way split: two nodes
   * share a colour iff they share a radius iff they share a label.
   */
  lemma StyleMatchesLabel(k1: string, o1: bool, k2: string, o2: bool)
    ensures NodeColor(k1, o1) == NodeColor(k2, o2) <==> TypeLabel(k1, o1) == TypeLabel(k2, o2)
    ensures NodeRadius(k1, o1) == NodeRadius(k2, o2) <==> TypeLabel(k1, o1) == TypeLabel(k2, o2)
  {
  }

  datatype Style = Style(radius: nat, color: string, fillColor: string, fillOpacity: real, weight: nat)

  /** The marker of one node; `selected` is the id of the selected node, if any. */
  function NodeStyle(n: MapNode, observationIds: set<string>, selected: Option<string>): (s: Style)
    ensures var isObs := n.id in observationIds;
      s.fillOpacity == (if isObs then 0.8 else 0.5) && s.weight == (if isObs then 2 else 1)
  {
    var isObs := n.id in observationIds;
    var isSelected := selected == Some(n.id);
    var base := NodeColor(n.kind, isObs);
    Style(if isSelected then NodeRadius(n.kind, isObs) + 3 else NodeRadius(n.kind, isObs),
          if isSelected then "#e53e3e" else base,
          if isSelected then "#e53e3e" else base,
          if isObs then 0.8 else 0.5,
          if isObs then 2 else 1)
  }

  /**
   * The selected node is drawn three units larger and in red, a colour no
   * unselected node has; every other node keeps its base style.
   */
  lemma SelectedStandsOut(n: MapNode, observationIds: set<string>, selected: Option<string>, m: MapNode)
    ensures var isObs := n.id in observationIds;
      selected == Some(n.id) ==>
        NodeStyle(n, observationIds, selected).radius == NodeRadius(n.kind, isObs) + 3 &&
        NodeStyle(n, observationIds, selected).color == "#e53e3e" &&
        NodeStyle(n, observationIds, selected).color != NodeColor(m.kind, m.id in observationIds)
    ensures var isObs := n.id in observationIds;
      selected != Some(n.id) ==>
        NodeStyle(n, observationIds, selected).radius == NodeRadius(n.kind, isObs) &&
        NodeStyle(n, observationIds, selected).color == NodeColor(n.kind, isObs) &&
        NodeStyle(n, observationIds, selected).fillColor == NodeColor(n.kind, isObs)
  {
  }

  // ---------------------------------------------------------------------------
  // Clicks and popups

  /** Sensors and junctions respond to the user. */
  predicate Clickable(n: MapNode, observationIds: set<string>) {
    n.id in observationIds || n.kind == "junction"
  }

  /** What the click handler passes on to `onNodeClick`: the node, or nothing. */
  function Click(n: MapNode, observationIds: set<string>, hasHandler: bool): (r: Option<MapNode>)
    ensures r.Some? <==> hasHandler && (n.id in observationIds || n.kind == "junction")
    ensures r.Some? ==> r.value == n
  {
    if Clickable(n, observationIds) && hasHandler then Some(n) else None
  }

  predicate HasPopup(n: MapNode, observationIds: set<string>, showPopup: bool) {
    showPopup && Clickable(n, observationIds)
  }

  /** A reservoir or tank that is not a sensor neither forwards clicks nor opens a popup. */
  lemma PlainReservoirsAndTanksInert(n: MapNode, observationIds: set<string>, hasHandler: bool, showPopup: bool)
    requires n.kind == "reservoir" || n.kind == "tank"
    requires n.id !in observationIds
    ensures Click(n, observationIds, hasHandler).None?
    ensures !HasPopup(n, observationIds, showPopup)
  {
  }

  /** A popup is shown only on nodes whose clicks a handler would receive. */
  lemma PopupOnlyWhereClickable(n: MapNode, observationIds: set<string>, showPopup: bool)
    requires HasPopup(n, observationIds, showPopup)
    ensures Click(n, observationIds, true) == Some(n)
  {
  }

  // ---------------------------------------------------------------------------
  // Pipes

  /** A drawn pipe: its id and the coordinates of its two end nodes, which may be missing. */
  datatype PipeLine = PipeLine(id: string, positions: seq<(Option<real>, Option<real>)>, pipe: MapPipe)

  predicate Resolves(nodeMap: map<string, MapNode>, p: MapPipe) {
    p.fromNode in nodeMap && p.toNode in nodeMap
  }

  function Line(nodeMap: map<string, MapNode>, p: MapPipe): (l: PipeLine)
    requires Resolves(nodeMap, p)
    ensures l.pipe == p && l.id == p.id && |l.positions| == 2
  {
    var a, b := nodeMap[p.fromNode], nodeMap[p.toNode];
    PipeLine(p.id, [(a.lat, a.lng), (b.lat, b.lng)], p)
  }

  function PipesOf(ls: seq<PipeLine>): (ps: seq<MapPipe>)
    ensures |ps| == |ls| && forall i :: 0 <= i < |ls| ==> ps[i] == ls[i].pipe
  {
    seq(|ls|, i requires 0 <= i < |ls| => ls[i].pipe)
  }

  /** pipeLines: the pipes with both ends in the lookup, in order, with their end positions. */
  function PipeLines(nodeMap: map<string, MapNode>, pipes: seq<MapPipe>): (r: seq<PipeLine>)
    ensures PipesOf(r) == Filter(pipes, (p: MapPipe) => Resolves(nodeMap, p))
    ensures forall i :: 0 <= i < |r| ==> Resolves(nodeMap, r[i].pipe) && r[i] == Line(nodeMap, r[i].pipe)
  {
    var kept := Filter(pipes, (p: MapPipe) => Resolves(nodeMap, p));
    seq(|kept|, i requires 0 <= i < |kept| => Line(nodeMap, kept[i]))
  }

  /**
   * With the lookup built from the node list, a pipe is drawn iff both end
   * ids name nodes, and each end is drawn at the last node with that id.
   */
  lemma PipeLinesOfNodes(nodes: seq<MapNode>, pipes: seq<MapPipe>, i: nat)
    requires i < |PipeLines(NodeMap(nodes), pipes)|
    ensures var l := PipeLines(NodeMap(nodes), pipes)[i];
      exists a: nat, b: nat ::
        LastWithIdBefore(nodes, |nodes|, l.pipe.fromNode, a) && LastWithIdBefore(nodes, |nodes|, l.pipe.toNode, b) &&
        l.positions == [(nodes[a].lat, nodes[a].lng), (nodes[b].lat, nodes[b].lng)]
  {
    var l := PipeLines(NodeMap(nodes), pipes)[i];
    NodeMapLookup(nodes, l.pipe.fromNode);
    NodeMapLookup(nodes, l.pipe.toNode);
    var a: nat :| LastWithIdBefore(nodes, |nodes|, l.pipe.fromNode, a) && NodeMap(nodes)[l.pipe.fromNode] == nodes[a];
    var b: nat :| LastWithIdBefore(nodes, |nodes|, l.pipe.toNode, b) && NodeMap(nodes)[l.pipe.toNode] == nodes[b];
    assert l.positions == [(nodes[a].lat, nodes[a].lng), (nodes[b].lat, nodes[b].lng)];
  }

  /** A pipe of the input is drawn iff both of its end ids name some node. */
  lemma PipeDrawnIffEndsExist(nodes: seq<MapNode>, pipes: seq<MapPipe>, p: MapPipe)
    requires p in pipes
    ensures p in PipesOf(PipeLines(NodeMap(nodes), pipes)) <==>
      (exists i :: 0 <= i < |nodes| && nodes[i].id == p.fromNode) && (exists i :: 0 <= i < |nodes| && nodes[i].id == p.toNode)
  {
    NodeMapLookup(nodes, p.fromNode);
    NodeMapLookup(nodes, p.toNode);
  }

  /** The component: the lookup filled by its loop, then the drawn pipes. */
  method RenderPipes(nodes: seq<MapNode>, pipes: seq<MapPipe>) returns (r: seq<PipeLine>)
    ensures r == PipeLines(NodeMap(nodes), pipes)
  {
    var nodeMap := BuildNodeMap(nodes);
    r := PipeLines(nodeMap, pipes);
  }
}
