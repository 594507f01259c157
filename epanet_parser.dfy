/**
 * The EPANET .inp reader of the backend: sections are located by their bracketed
 * header, junctions, reservoirs, tanks, pipes and coordinates are read into
 * insertion-ordered tables keyed by id, the coordinates are rescaled to the
 * 0..1000 display square, and a breadth-first walk along pipe directions gives
 * the nodes downstream of a leak.
 */
module EpanetParser {
  import opened Wrappers
  import opened Strings
  import opened Seqs
  import opened Dict

  datatype NodeKind = Junction | Reservoir | Tank

  /** The `type` string the parser stores for each kind. */
  function KindName(k: NodeKind): string {
    match k
    case Junction => "junction"
    case Reservoir => "reservoir"
    case Tank => "tank"
  }

  /** The section header each kind is read from. */
  function SectionName(k: NodeKind): string {
    match k
    case Junction => "JUNCTIONS"
    case Reservoir => "RESERVOIRS"
    case Tank => "TANKS"
  }

  const PipesTitle: string := "PIPES"
  const CoordinatesTitle: string := "COORDINATES"

  datatype NodeInfo = NodeInfo(id: string, kind: NodeKind, x: real, y: real, elevation: real)

  datatype PipeInfo = PipeInfo(id: string, fromNode: string, toNode: string, length: real, diameter: real)

  /** Python's float() on one token: None where it raises ValueError. */
  type NumberParser = string -> Option<real>

  // ---------------------------------------------------------------- sections

  /** A header `[name]` (letters compared without case) starts at position i. */
  predicate HeaderAt(content: string, name: string, i: nat) {
    i + |name| + 2 <= |content| && content[i] == '[' && content[i + |name| + 1] == ']'
    && Lower(content[i + 1..i + |name| + 1]) == Lower(name)
  }

  /** The leftmost header at or after `from`. */
  function FirstHeader(content: string, name: string, from: nat): (r: Option<nat>)
    ensures r.Some? ==> from <= r.value && HeaderAt(content, name, r.value)
    ensures r.Some? ==> forall k: nat :: from <= k < r.value ==> !HeaderAt(content, name, k)
    ensures r.None? ==> forall k: nat :: from <= k ==> !HeaderAt(content, name, k)
    decreases |content| - from
  {
    if from + |name| + 2 > |content| then None
    else if HeaderAt(content, name, from) then Some(from)
    else FirstHeader(content, name, from + 1)
  }

  /** The first '[' at or after `from`, or the end of the text. */
  function NextBracket(content: string, from: nat): (j: nat)
    requires from <= |content|
    ensures from <= j <= |content| && (j < |content| ==> content[j] == '[')
    ensures forall k :: from <= k < j ==> content[k] != '['
    decreases |content| - from
  {
    if from == |content| || content[from] == '[' then from else NextBracket(content, from + 1)
  }

  /**
   * What the pattern `\[name\](.*?)(?=\[|\Z)` matches under re.search with DOTALL
   * and IGNORECASE: the leftmost header at i, and the body that ends at e, the
   * first '[' after the header or the end of the text.
   */
  ghost predicate IsSectionMatch(content: string, name: string, i: nat, e: nat) {
    HeaderAt(content, name, i)
    && (forall k: nat :: k < i ==> !HeaderAt(content, name, k))
    && i + |name| + 2 <= e <= |content|
    && (e == |content| || content[e] == '[')
    && (forall k :: i + |name| + 2 <= k < e ==> content[k] != '[')
  }

  /** The match, when there is one, is unique: the leftmost start and the shortest body. */
  lemma SectionMatchUnique(content: string, name: string, i: nat, e: nat, i': nat, e': nat)
    requires IsSectionMatch(content, name, i, e) && IsSectionMatch(content, name, i', e')
    ensures i == i' && e == e'
  {
    assert !(i < i') && !(i' < i);
  }

  /** match.group(1) of the section pattern, None when the header does not occur. */
  function SectionBody(content: string, name: string): Option<string> {
    match FirstHeader(content, name, 0)
    case None => None
    case Some(i) => Some(content[i + |name| + 2..NextBracket(content, i + |name| + 2)])
  }

  /**
   * The body is found exactly when the header occurs somewhere; it is the text
   * between the leftmost header and the next '[' (or the end), and holds no '['.
   */
  lemma SectionBodyMatches(content: string, name: string)
    ensures SectionBody(content, name).None? <==> forall k: nat :: !HeaderAt(content, name, k)
    ensures SectionBody(content, name).Some? ==>
      exists i: nat, e: nat :: IsSectionMatch(content, name, i, e) && SectionBody(content, name).value == content[i + |name| + 2..e]
    ensures SectionBody(content, name).Some? ==> '[' !in SectionBody(content, name).value
  {
    match FirstHeader(content, name, 0)
    case None =>
    case Some(i) =>
      var b := i + |name| + 2;
      var e := NextBracket(content, b);
      assert IsSectionMatch(content, name, i, e);
      var body := content[b..e];
      assert SectionBody(content, name) == Some(body);
      assert forall k :: 0 <= k < |body| ==> body[k] == content[b + k];
  }

  /** A line survives the filter when its stripped text is neither empty nor a comment. */
  predicate KeepLine(line: string) {
    var t := Strip(line);
    t != [] && t[0] != ';'
  }

  /** line.split(';')[0].strip(): the text before the first comment mark. */
  function CleanLine(line: string): string {
    Strip(Split(line, ';')[0])
  }

  predicate IsStripped(t: string) {
    t == [] || (!IsSpace(t[0]) && !IsSpace(t[|t| - 1]))
  }

  /** The first visible character of a kept line comes before its first ';'. */
  lemma KeptLineLead(line: string)
    requires KeepLine(line)
    ensures Lead(line) < IndexOf(line, ';') && !IsSpace(line[Lead(line)])
  {
    StripStartsAtLead(line);
    StripFacts(line);
    IndexOfAfter(line, ';', Lead(line));
  }

  /** Text holding a visible character does not strip to nothing. */
  lemma StripVisible(s: string, l: nat)
    requires l < |s| && !IsSpace(s[l])
    ensures Strip(s) != []
  {
    StripEmptyIff(s);
  }

  /** Stripping keeps only characters of the text. */
  lemma StripKeepsOut(s: string, c: char)
    requires c !in s
    ensures c !in Strip(s)
  {
    var r := Strip(s);
    forall k | 0 <= k < |r| ensures r[k] != c {
      assert r[k] == s[Lead(s) + k];
    }
  }

  /** What every line _parse_section returns looks like: non-empty, comment-free and stripped. */
  predicate IsCleanLine(t: string) {
    t != [] && ';' !in t && IsStripped(t)
  }

  /** A kept line keeps its first character, which is neither blank nor ';'. */
  lemma CleanLineOfKept(line: string)
    requires KeepLine(line)
    ensures IsCleanLine(CleanLine(line))
  {
    KeptLineLead(line);
    var p := IndexOf(line, ';');
    var parts := Split(line, ';');
    SplitHead(line, ';');
    var piece := parts[0];
    assert piece == line[..p];
    var l := Lead(line);
    assert l < |piece| && piece[l] == line[l];
    StripVisible(piece, l);
    assert ';' !in piece;
    StripKeepsOut(piece, ';');
    StrippedStrip(piece);
  }

  lemma StrippedStrip(s: string)
    ensures IsStripped(Strip(s))
  {
  }

  /** The list comprehension that filters and cleans the body's lines. */
  function CleanLines(lines: seq<string>): seq<string> {
    if lines == [] then []
    else if KeepLine(lines[0]) then [CleanLine(lines[0])] + CleanLines(lines[1..])
    else CleanLines(lines[1..])
  }

  /** Every line the comprehension keeps is clean. */
  lemma {:induction false} CleanLinesClean(lines: seq<string>)
    ensures forall k :: 0 <= k < |CleanLines(lines)| ==> IsCleanLine(CleanLines(lines)[k])
  {
    if lines != [] {
      CleanLinesClean(lines[1..]);
      if KeepLine(lines[0]) {
        CleanLineOfKept(lines[0]);
        var r := CleanLines(lines);
        assert r == [CleanLine(lines[0])] + CleanLines(lines[1..]);
        forall k | 0 <= k < |r| ensures IsCleanLine(r[k]) {
          if k > 0 {
            assert r[k] == CleanLines(lines[1..])[k - 1];
          }
        }
      }
    }
  }

  /** Number of the lines that survive the filter. */
  function KeptCount(lines: seq<string>): nat {
    if lines == [] then 0 else (if KeepLine(lines[0]) then 1 else 0) + KeptCount(lines[1..])
  }

  /** One cleaned line per kept line, in order. */
  lemma {:induction false} CleanLinesCount(lines: seq<string>)
    ensures |CleanLines(lines)| == KeptCount(lines)
  {
    if lines != [] {
      CleanLinesCount(lines[1..]);
    }
  }

  /** _parse_section: the cleaned, non-comment lines of the named section. */
  function ParseSection(content: string, name: string): seq<string> {
    match SectionBody(content, name)
    case None => []
    case Some(body) => CleanLines(Split(Strip(body), '\n'))
  }

  /** A missing section gives no lines, and every line given is clean. */
  lemma ParseSectionLines(content: string, name: string)
    ensures (forall k: nat :: !HeaderAt(content, name, k)) ==> ParseSection(content, name) == []
    ensures forall k :: 0 <= k < |ParseSection(content, name)| ==> IsCleanLine(ParseSection(content, name)[k])
  {
    SectionBodyMatches(content, name);
    match SectionBody(content, name)
    case None =>
    case Some(body) =>
      CleanLinesClean(Split(Strip(body), '\n'));
  }

  // ---------------------------------------------------------------- records

  /** What one section line yields: nothing, a record, or the ValueError of float(). */
  datatype Record<T> = Skip | Bad | Entry(value: T)

  /** A node line needs an id and a number; the number is the elevation (or a reservoir's head). */
  function NodeRecord(line: string, kind: NodeKind, num: NumberParser): (r: Record<NodeInfo>)
    ensures r.Skip? <==> |Tokens(line)| < 2
    ensures r.Bad? <==> |Tokens(line)| >= 2 && num(Tokens(line)[1]).None?
    ensures r.Entry? ==> r.value == NodeInfo(Tokens(line)[0], kind, 0.0, 0.0, num(Tokens(line)[1]).value)
  {
    var parts := Tokens(line);
    if |parts| < 2 then Skip
    else match num(parts[1])
      case None => Bad
      case Some(e) => Entry(NodeInfo(parts[0], kind, 0.0, 0.0, e))
  }

  /** A pipe line needs id, start node, end node, length and diameter. */
  function PipeRecord(line: string, num: NumberParser): (r: Record<PipeInfo>)
    ensures r.Skip? <==> |Tokens(line)| < 5
    ensures r.Bad? <==> |Tokens(line)| >= 5 && (num(Tokens(line)[3]).None? || num(Tokens(line)[4]).None?)
    ensures r.Entry? ==> r.value == PipeInfo(Tokens(line)[0], Tokens(line)[1], Tokens(line)[2],
                                             num(Tokens(line)[3]).value, num(Tokens(line)[4]).value)
  {
    var parts := Tokens(line);
    if |parts| < 5 then Skip
    else match num(parts[3])
      case None => Bad
      case Some(len) =>
        match num(parts[4])
        case None => Bad
        case Some(d) => Entry(PipeInfo(parts[0], parts[1], parts[2], len, d))
  }

  /** A coordinate line needs an id and two numbers. */
  function CoordRecord(line: string, num: NumberParser): (r: Record<(string, real, real)>)
    ensures r.Skip? <==> |Tokens(line)| < 3
    ensures r.Bad? <==> |Tokens(line)| >= 3 && (num(Tokens(line)[1]).None? || num(Tokens(line)[2]).None?)
    ensures r.Entry? ==> r.value == (Tokens(line)[0], num(Tokens(line)[1]).value, num(Tokens(line)[2]).value)
  {
    var parts := Tokens(line);
    if |parts| < 3 then Skip
    else match num(parts[1])
      case None => Bad
      case Some(x) =>
        match num(parts[2])
        case None => Bad
        case Some(y) => Entry((parts[0], x, y))
  }

  /**
   * The records of a node section in order, up to the first line whose number
   * does not parse; the flag says whether the section was read to its end.
   */
  function NodeEntries(lines: seq<string>, kind: NodeKind, num: NumberParser): (r: (seq<(string, NodeInfo)>, bool))
    ensures |r.0| <= |lines|
    ensures forall k :: 0 <= k < |r.0| ==> r.0[k].1.id == r.0[k].0 && r.0[k].1.kind == kind && r.0[k].0 != []
  {
    if lines == [] then ([], true)
    else match NodeRecord(lines[0], kind, num)
      case Skip => NodeEntries(lines[1..], kind, num)
      case Bad => ([], false)
      case Entry(n) =>
        var rest := NodeEntries(lines[1..], kind, num);
        ([(n.id, n)] + rest.0, rest.1)
  }

  /** The pipe records of the PIPES section, up to the first unreadable number. */
  function PipeEntries(lines: seq<string>, num: NumberParser): (r: (seq<(string, PipeInfo)>, bool))
    ensures |r.0| <= |lines|
    ensures forall k :: 0 <= k < |r.0| ==> r.0[k].1.id == r.0[k].0 && r.0[k].0 != []
  {
    if lines == [] then ([], true)
    else match PipeRecord(lines[0], num)
      case Skip => PipeEntries(lines[1..], num)
      case Bad => ([], false)
      case Entry(p) =>
        var rest := PipeEntries(lines[1..], num);
        ([(p.id, p)] + rest.0, rest.1)
  }

  /** The (id, x, y) records of the COORDINATES section, up to the first unreadable number. */
  function CoordEntries(lines: seq<string>, num: NumberParser): (r: (seq<(string, real, real)>, bool))
    ensures |r.0| <= |lines|
  {
    if lines == [] then ([], true)
    else match CoordRecord(lines[0], num)
      case Skip => CoordEntries(lines[1..], num)
      case Bad => ([], false)
      case Entry(c) =>
        var rest := CoordEntries(lines[1..], num);
        ([c] + rest.0, rest.1)
  }

  /** Moves the nodes named by coordinate records; records of unknown ids change nothing. */
  function ApplyCoords(t: Table<string, NodeInfo>, cs: seq<(string, real, real)>): (r: Table<string, NodeInfo>)
    requires Dict.Valid(t)
    ensures Dict.Valid(r) && r.keys == t.keys && r.entries.Keys == t.entries.Keys
    ensures forall id :: id in t.entries ==>
      r.entries[id] == t.entries[id].(x := r.entries[id].x, y := r.entries[id].y)
    decreases |cs|
  {
    if cs == [] then t
    else
      var (id, x, y) := cs[0];
      var t1 := if id in t.entries then Put(t, id, t.entries[id].(x := x, y := y)) else t;
      ApplyCoords(t1, cs[1..])
  }

  /** The last coordinate record for id, if any. */
  function LastCoord(cs: seq<(string, real, real)>, id: string): Option<(real, real)> {
    if cs == [] then None
    else if cs[|cs| - 1].0 == id then Some((cs[|cs| - 1].1, cs[|cs| - 1].2))
    else LastCoord(cs[..|cs| - 1], id)
  }

  /** The last record for id is in the tail, or else it is the head. */
  lemma {:induction false} LastCoordFirst(cs: seq<(string, real, real)>, id: string)
    requires cs != []
    ensures LastCoord(cs, id)
         == if LastCoord(cs[1..], id).Some? then LastCoord(cs[1..], id)
            else if cs[0].0 == id then Some((cs[0].1, cs[0].2)) else None
    decreases |cs|
  {
    if |cs| > 1 {
      var init := cs[..|cs| - 1];
      assert init[1..] == cs[1..][..|cs[1..]| - 1];
      assert init[0] == cs[0];
      LastCoordFirst(init, id);
    }
  }

  /** A known node ends at its last listed position; a node never listed keeps its position. */
  lemma {:induction false} ApplyCoordsLookup(t: Table<string, NodeInfo>, cs: seq<(string, real, real)>, id: string)
    requires Dict.Valid(t) && id in t.entries
    ensures var n := ApplyCoords(t, cs).entries[id];
      match LastCoord(cs, id)
      case Some(p) => n.x == p.0 && n.y == p.1
      case None => n == t.entries[id]
    decreases |cs|
  {
    if cs != [] {
      var (cid, x, y) := cs[0];
      var t1 := if cid in t.entries then Put(t, cid, t.entries[cid].(x := x, y := y)) else t;
      assert ApplyCoords(t, cs) == ApplyCoords(t1, cs[1..]);
      ApplyCoordsLookup(t1, cs[1..], id);
      LastCoordFirst(cs, id);
    }
  }

  /** Moving nodes one record at a time, as the coordinate loop does. */
  function MoveNode(t: Table<string, NodeInfo>, c: (string, real, real)): (r: Table<string, NodeInfo>)
    requires Dict.Valid(t)
    ensures Dict.Valid(r)
  {
    if c.0 in t.entries then Put(t, c.0, t.entries[c.0].(x := c.1, y := c.2)) else t
  }

  lemma {:induction false} ApplyCoordsSnoc(t: Table<string, NodeInfo>, cs: seq<(string, real, real)>, c: (string, real, real))
    requires Dict.Valid(t)
    ensures ApplyCoords(t, cs + [c]) == MoveNode(ApplyCoords(t, cs), c)
    decreases |cs|
  {
    if cs == [] {
      assert [] + [c] == [c];
    } else {
      TailSnoc(cs, c);
      ApplyCoordsSnoc(MoveNode(t, cs[0]), cs[1..], c);
    }
  }

  // ---------------------------------------------------------------- normalisation

  /** ((v - lo) / range) * 1000, with a range of 1 when the axis is flat. */
  function Rescale(v: real, lo: real, hi: real): real {
    (v - lo) / (if hi != lo then hi - lo else 1.0) * 1000.0
  }

  lemma DivMonotone(a: real, b: real, c: real)
    requires a <= b && c > 0.0
    ensures a / c <= b / c
  {
    assert b / c - a / c == (b - a) / c;
  }

  /** A value between the extremes lands in 0..1000; the extremes land on the ends. */
  lemma RescaleBounds(v: real, lo: real, hi: real)
    requires lo <= v <= hi
    ensures 0.0 <= Rescale(v, lo, hi) <= 1000.0
    ensures v == lo ==> Rescale(v, lo, hi) == 0.0
    ensures v == hi && hi != lo ==> Rescale(v, lo, hi) == 1000.0
  {
    if hi != lo {
      DivMonotone(0.0, v - lo, hi - lo);
      DivMonotone(v - lo, hi - lo, hi - lo);
    }
  }

  /** Rescaling keeps the order of the values along an axis. */
  lemma RescaleMonotone(a: real, b: real, lo: real, hi: real)
    requires lo <= hi && a <= b
    ensures Rescale(a, lo, hi) <= Rescale(b, lo, hi)
  {
    DivMonotone(a - lo, b - lo, if hi != lo then hi - lo else 1.0);
  }

  function Xs(t: Table<string, NodeInfo>): (xs: seq<real>)
    requires Dict.Valid(t)
    ensures |xs| == |t.keys| && forall i :: 0 <= i < |t.keys| ==> xs[i] == t.entries[t.keys[i]].x
  {
    seq(|t.keys|, i requires 0 <= i < |t.keys| => t.entries[t.keys[i]].x)
  }

  function Ys(t: Table<string, NodeInfo>): (ys: seq<real>)
    requires Dict.Valid(t)
    ensures |ys| == |t.keys| && forall i :: 0 <= i < |t.keys| ==> ys[i] == t.entries[t.keys[i]].y
  {
    seq(|t.keys|, i requires 0 <= i < |t.keys| => t.entries[t.keys[i]].y)
  }

  /** The extremes of both axes over all nodes (xs, ys of _normalize_coordinates). */
  datatype Extent = Extent(minX: real, maxX: real, minY: real, maxY: real)

  function ExtentOf(t: Table<string, NodeInfo>): (e: Extent)
    requires Dict.Valid(t) && t.keys != []
    ensures e.minX <= e.maxX && e.minY <= e.maxY
    ensures forall id :: id in t.entries ==>
      e.minX <= t.entries[id].x <= e.maxX && e.minY <= t.entries[id].y <= e.maxY
  {
    var xs, ys := Xs(t), Ys(t);
    var e := Extent(MinOf(xs), MaxOf(xs), MinOf(ys), MaxOf(ys));
    assert forall id :: id in t.entries ==> exists i :: 0 <= i < |t.keys| && t.keys[i] == id;
    e
  }

  function Moved(n: NodeInfo, e: Extent): NodeInfo {
    n.(x := Rescale(n.x, e.minX, e.maxX), y := Rescale(n.y, e.minY, e.maxY))
  }

  /** _normalize_coordinates on the node table: nothing for an empty table. */
  function Normalized(t: Table<string, NodeInfo>): (r: Table<string, NodeInfo>)
    requires Dict.Valid(t)
    ensures Dict.Valid(r) && r.keys == t.keys && r.entries.Keys == t.entries.Keys
  {
    if t.keys == [] then t
    else
      var e := ExtentOf(t);
      Table(t.keys, map id | id in t.entries :: Moved(t.entries[id], e))
  }

  /**
   * After normalisation every node lies in the 0..1000 square, the node
   * furthest left (down) is at 0, the one furthest right (up) at 1000 unless
   * the axis is flat, in which case every node is at 0; ids, kinds and
   * elevations are untouched.
   */
  lemma NormalizedSquare(t: Table<string, NodeInfo>, id: string)
    requires Dict.Valid(t) && id in t.entries
    ensures t.keys != []
    ensures var e, n, m := ExtentOf(t), t.entries[id], Normalized(t).entries[id];
      && 0.0 <= m.x <= 1000.0 && 0.0 <= m.y <= 1000.0
      && m.id == n.id && m.kind == n.kind && m.elevation == n.elevation
      && (n.x == e.minX ==> m.x == 0.0) && (n.y == e.minY ==> m.y == 0.0)
      && (n.x == e.maxX && e.maxX != e.minX ==> m.x == 1000.0)
      && (n.y == e.maxY && e.maxY != e.minY ==> m.y == 1000.0)
  {
    assert id in t.keys;
    var e := ExtentOf(t);
    RescaleBounds(t.entries[id].x, e.minX, e.maxX);
    RescaleBounds(t.entries[id].y, e.minY, e.maxY);
  }

  lemma NormalizedKeepsOrder(t: Table<string, NodeInfo>, a: string, b: string)
    requires Dict.Valid(t) && a in t.entries && b in t.entries
    ensures t.entries[a].x <= t.entries[b].x ==> Normalized(t).entries[a].x <= Normalized(t).entries[b].x
    ensures t.entries[a].y <= t.entries[b].y ==> Normalized(t).entries[a].y <= Normalized(t).entries[b].y
  {
    var e := ExtentOf(t);
    if t.entries[a].x <= t.entries[b].x {
      RescaleMonotone(t.entries[a].x, t.entries[b].x, e.minX, e.maxX);
    }
    if t.entries[a].y <= t.entries[b].y {
      RescaleMonotone(t.entries[a].y, t.entries[b].y, e.minY, e.maxY);
    }
  }

  // ---------------------------------------------------------------- whole file

  /** The records of one node section. */
  function NodeSection(content: string, kind: NodeKind, num: NumberParser): (seq<(string, NodeInfo)>, bool) {
    NodeEntries(ParseSection(content, SectionName(kind)), kind, num)
  }

  function PipeSection(content: string, num: NumberParser): (seq<(string, PipeInfo)>, bool) {
    PipeEntries(ParseSection(content, PipesTitle), num)
  }

  function CoordSection(content: string, num: NumberParser): (seq<(string, real, real)>, bool) {
    CoordEntries(ParseSection(content, CoordinatesTitle), num)
  }

  /** The parser's tables, and whether every section so far was read to its end. */
  datatype Parsed = Parsed(nodes: Table<string, NodeInfo>, pipes: Table<string, PipeInfo>, ok: bool)

  ghost predicate ValidParsed(p: Parsed) {
    Dict.Valid(p.nodes) && Dict.Valid(p.pipes)
  }

  /** One node section (_parse_junctions, _parse_reservoirs, _parse_tanks). */
  function AfterNodeSection(p: Parsed, content: string, kind: NodeKind, num: NumberParser): (r: Parsed)
    requires ValidParsed(p)
    ensures ValidParsed(r) && r.pipes == p.pipes
  {
    if !p.ok then p
    else
      var sec := NodeSection(content, kind, num);
      Parsed(PutAll(p.nodes, sec.0), p.pipes, sec.1)
  }

  /** _parse_pipes. */
  function AfterPipeSection(p: Parsed, content: string, num: NumberParser): (r: Parsed)
    requires ValidParsed(p)
    ensures ValidParsed(r) && r.nodes == p.nodes
  {
    if !p.ok then p
    else
      var sec := PipeSection(content, num);
      Parsed(p.nodes, PutAll(p.pipes, sec.0), sec.1)
  }

  /** _parse_coordinates, which normalises only when every line was read. */
  function AfterCoordSection(p: Parsed, content: string, num: NumberParser): (r: Parsed)
    requires ValidParsed(p)
    ensures ValidParsed(r) && r.pipes == p.pipes
    ensures r.nodes.keys == p.nodes.keys
  {
    if !p.ok then p
    else
      var sec := CoordSection(content, num);
      var moved := ApplyCoords(p.nodes, sec.0);
      Parsed(if sec.1 then Normalized(moved) else moved, p.pipes, sec.1)
  }

  /**
   * parse_inp_file on a readable file: junctions, reservoirs, tanks, pipes, then
   * coordinates with normalisation; the first unreadable number stops the run
   * with the tables as far as they got.
   */
  function ParseAll(nodes: Table<string, NodeInfo>, pipes: Table<string, PipeInfo>, content: string, num: NumberParser): (r: Parsed)
    requires Dict.Valid(nodes) && Dict.Valid(pipes)
    ensures ValidParsed(r)
  {
    var p0 := Parsed(nodes, pipes, true);
    var p1 := AfterNodeSection(p0, content, Junction, num);
    var p2 := AfterNodeSection(p1, content, Reservoir, num);
    var p3 := AfterNodeSection(p2, content, Tank, num);
    var p4 := AfterPipeSection(p3, content, num);
    AfterCoordSection(p4, content, num)
  }

  /** The node table of a file read to its end, section by section. */
  lemma ParseAllNodes(content: string, num: NumberParser)
    requires ParseAll(Empty(), Empty(), content, num).ok
    ensures ParseAll(Empty(), Empty(), content, num).nodes
         == Normalized(ApplyCoords(PutAll(PutAll(PutAll(Empty(), NodeSection(content, Junction, num).0),
                                                 NodeSection(content, Reservoir, num).0),
                                          NodeSection(content, Tank, num).0),
                                   CoordSection(content, num).0))
  {
    var p0 := Parsed(Empty(), Empty(), true);
    var p1 := AfterNodeSection(p0, content, Junction, num);
    var p2 := AfterNodeSection(p1, content, Reservoir, num);
    var p3 := AfterNodeSection(p2, content, Tank, num);
    var p4 := AfterPipeSection(p3, content, num);
    assert p4.ok && p3.ok && p2.ok && p1.ok;
  }

  /** Three rounds of assignment: the last round that names a key decides its value. */
  lemma ThreeRoundsLookup<V>(j: seq<(string, V)>, rv: seq<(string, V)>, tk: seq<(string, V)>, id: string)
    ensures var t := PutAll(PutAll(PutAll(Empty(), j), rv), tk);
      && (id in t.entries <==> LastValue(j, id).Some? || LastValue(rv, id).Some? || LastValue(tk, id).Some?)
      && (id in t.entries ==>
            t.entries[id] == (if LastValue(tk, id).Some? then LastValue(tk, id).value
             else if LastValue(rv, id).Some? then LastValue(rv, id).value
             else LastValue(j, id).value))
  {
    var e: Table<string, V> := Empty();
    var n1 := PutAll(e, j);
    var n2 := PutAll(n1, rv);
    PutAllLookup(e, j, id);
    PutAllLookup(n1, rv, id);
    PutAllLookup(n2, tk, id);
  }

  /**
   * In a file read to its end, a node id listed in several node sections takes
   * the kind and elevation from the last section that lists it (tanks over
   * reservoirs over junctions), and from the last line of that section.
   */
  lemma LaterSectionWins(content: string, num: NumberParser, id: string)
    requires ParseAll(Empty(), Empty(), content, num).ok
    ensures var r := ParseAll(Empty(), Empty(), content, num);
      var j := LastValue(NodeSection(content, Junction, num).0, id);
      var rv := LastValue(NodeSection(content, Reservoir, num).0, id);
      var tk := LastValue(NodeSection(content, Tank, num).0, id);
      && (id in r.nodes.entries <==> j.Some? || rv.Some? || tk.Some?)
      && (id in r.nodes.entries ==>
            var n := r.nodes.entries[id];
            var w := if tk.Some? then tk.value else if rv.Some? then rv.value else j.value;
            n.kind == w.kind && n.elevation == w.elevation && n.id == w.id)
  {
    ParseAllNodes(content, num);
    var j := NodeSection(content, Junction, num).0;
    var rv := NodeSection(content, Reservoir, num).0;
    var tk := NodeSection(content, Tank, num).0;
    ThreeRoundsLookup(j, rv, tk, id);
    var n3 := PutAll(PutAll(PutAll(Empty(), j), rv), tk);
    var n4 := ApplyCoords(n3, CoordSection(content, num).0);
    if id in n4.entries {
      NormalizedSquare(n4, id);
    }
  }

  // ---------------------------------------------------------------- mock network

  function MockId(i: nat): string {
    "J" + NatToString(i + 1)
  }

  /** Node i of the ten-node demonstration network used when the file is missing. */
  function MockNode(i: nat): NodeInfo {
    NodeInfo(MockId(i), if i > 0 then Junction else Reservoir,
             (100 + (i % 5) * 200) as real, (100 + (i / 5) * 300) as real, (100 + i * 5) as real)
  }

  /** Pipe i joins node i to node i + 1. */
  function MockPipe(i: nat): PipeInfo {
    PipeInfo("P" + NatToString(i + 1), MockId(i), MockId(i + 1), (100 + i * 10) as real, 150.0)
  }

  function MockNodes(): seq<(string, NodeInfo)> {
    seq(10, i requires 0 <= i < 10 => (MockNode(i).id, MockNode(i)))
  }

  function MockPipes(): seq<(string, PipeInfo)> {
    seq(9, i requires 0 <= i < 9 => (MockPipe(i).id, MockPipe(i)))
  }

  lemma MockIdsDistinct()
    ensures DistinctKeys(MockNodes()) && DistinctKeys(MockPipes())
  {
    forall i, j | 0 <= i < j < 10 ensures MockNodes()[i].0 != MockNodes()[j].0 {
      if MockId(i) == MockId(j) {
        PrefixedNamesDistinct("J", i + 1, j + 1);
      }
    }
    forall i, j | 0 <= i < j < 9 ensures MockPipes()[i].0 != MockPipes()[j].0 {
      if MockPipe(i).id == MockPipe(j).id {
        PrefixedNamesDistinct("P", i + 1, j + 1);
      }
    }
  }

  function MockNodeIds(): seq<string> {
    seq(10, i requires 0 <= i < 10 => MockId(i))
  }

  function MockPipeIds(): seq<string> {
    seq(9, i requires 0 <= i < 9 => MockPipe(i).id)
  }

  /** The demonstration node table holds J1..J10, in that order, with the records above. */
  lemma MockNodeTable(t: Table<string, NodeInfo>)
    requires t == PutAll(Empty(), MockNodes())
    ensures t.keys == MockNodeIds()
    ensures forall i :: 0 <= i < 10 ==> MockId(i) in t.entries && t.entries[MockId(i)] == MockNode(i)
  {
    MockNodeKeys();
    forall i | 0 <= i < 10 ensures MockId(i) in t.entries && t.entries[MockId(i)] == MockNode(i) {
      MockNodeEntry(i);
    }
  }

  lemma MockNodeKeys()
    ensures PutAll(Empty(), MockNodes()).keys == MockNodeIds()
  {
    MockIdsDistinct();
    PutAllDistinctKeys(MockNodes());
    MockNodeKeysOf();
  }

  lemma MockNodeKeysOf()
    ensures KeysOf(MockNodes()) == MockNodeIds()
  {
    forall i | 0 <= i < 10 ensures KeysOf(MockNodes())[i] == MockNodeIds()[i] {
      assert MockNodes()[i].0 == MockId(i);
    }
  }

  lemma MockNodeEntry(i: nat)
    requires i < 10
    ensures var t := PutAll(Empty(), MockNodes()); MockId(i) in t.entries && t.entries[MockId(i)] == MockNode(i)
  {
    var kvs := MockNodes();
    MockIdsDistinct();
    LastValueDistinct(kvs, i);
    assert kvs[i] == (MockId(i), MockNode(i));
    PutAllLookup(Empty(), kvs, MockId(i));
  }

  /** The demonstration pipe table holds P1..P9, in that order, with the records above. */
  lemma MockPipeTable(t: Table<string, PipeInfo>)
    requires t == PutAll(Empty(), MockPipes())
    ensures t.keys == MockPipeIds()
    ensures forall i :: 0 <= i < 9 ==> MockPipe(i).id in t.entries && t.entries[MockPipe(i).id] == MockPipe(i)
  {
    MockPipeKeys();
    forall i | 0 <= i < 9 ensures MockPipe(i).id in t.entries && t.entries[MockPipe(i).id] == MockPipe(i) {
      MockPipeEntry(i);
    }
  }

  lemma MockPipeKeys()
    ensures PutAll(Empty(), MockPipes()).keys == MockPipeIds()
  {
    MockIdsDistinct();
    PutAllDistinctKeys(MockPipes());
    MockPipeKeysOf();
  }

  lemma MockPipeKeysOf()
    ensures KeysOf(MockPipes()) == MockPipeIds()
  {
    forall i | 0 <= i < 9 ensures KeysOf(MockPipes())[i] == MockPipeIds()[i] {
      assert MockPipes()[i].0 == MockPipe(i).id;
    }
  }

  lemma MockPipeEntry(i: nat)
    requires i < 9
    ensures var t := PutAll(Empty(), MockPipes()); MockPipe(i).id in t.entries && t.entries[MockPipe(i).id] == MockPipe(i)
  {
    var kvs := MockPipes();
    MockIdsDistinct();
    LastValueDistinct(kvs, i);
    assert kvs[i] == (MockPipe(i).id, MockPipe(i));
    PutAllLookup(Empty(), kvs, MockPipe(i).id);
  }

  /**
   * The demonstration nodes: J1 is the only reservoir and every node lies
   * inside the 0..1000 display square.
   */
  lemma MockNodePlaces()
    ensures forall i :: 0 <= i < 10 ==> (MockNode(i).kind == Reservoir <==> i == 0)
    ensures forall i :: 0 <= i < 10 ==>
      100.0 <= MockNode(i).x <= 900.0 && 100.0 <= MockNode(i).y <= 400.0
  {
    forall i | 0 <= i < 10
      ensures 100.0 <= MockNode(i).x <= 900.0 && 100.0 <= MockNode(i).y <= 400.0
    {
      assert 0 <= i % 5 <= 4 && 0 <= i / 5 <= 1;
      assert (i % 5) * 200 <= 800 && (i / 5) * 300 <= 300;
    }
  }

  /** Every demonstration pipe joins two demonstration nodes. */
  lemma MockPipesConnect(t: Table<string, NodeInfo>)
    requires t == PutAll(Empty(), MockNodes())
    ensures forall i :: 0 <= i < 9 ==> MockPipe(i).fromNode in t.entries && MockPipe(i).toNode in t.entries
  {
    MockNodeTable(t);
  }

  // ---------------------------------------------------------------- downstream walk

  /** Every pipe read as a directed edge from its start node to its end node. */
  ghost function Edges(pipes: Table<string, PipeInfo>): set<(string, string)> {
    set id | id in pipes.entries :: (pipes.entries[id].fromNode, pipes.entries[id].toNode)
  }

  ghost function Targets(pipes: Table<string, PipeInfo>): set<string> {
    set id | id in pipes.entries :: pipes.entries[id].toNode
  }

  ghost predicate Walk(E: set<(string, string)>, p: seq<string>) {
    forall i :: 0 <= i < |p| - 1 ==> (p[i], p[i + 1]) in E
  }

  /** v can be reached from s along one or more pipes, each followed from start to end. */
  ghost predicate Downstream(E: set<(string, string)>, s: string, v: string) {
    exists p: seq<string> :: |p| >= 2 && p[0] == s && p[|p| - 1] == v && Walk(E, p)
  }

  lemma DownstreamStep(E: set<(string, string)>, s: string, u: string, w: string)
    requires u == s || Downstream(E, s, u)
    requires (u, w) in E
    ensures Downstream(E, s, w)
  {
    if u == s {
      var p := [s, w];
      assert Walk(E, p);
    } else {
      var p :| |p| >= 2 && p[0] == s && p[|p| - 1] == u && Walk(E, p);
      var q := p + [w];
      forall i | 0 <= i < |q| - 1 ensures (q[i], q[i + 1]) in E {
        if i < |p| - 1 {
          assert q[i] == p[i] && q[i + 1] == p[i + 1];
        }
      }
      assert q[0] == s && q[|q| - 1] == w;
    }
  }

  /** A set containing s and closed under pipes holds, in A, everything downstream of s. */
  lemma ClosedSetHoldsDownstream(E: set<(string, string)>, s: string, V: set<string>, A: set<string>, v: string)
    requires s in V
    requires forall u, w :: u in V && (u, w) in E ==> w in V && (w == s || w in A)
    requires Downstream(E, s, v) && v != s
    ensures v in A
  {
    var p :| |p| >= 2 && p[0] == s && p[|p| - 1] == v && Walk(E, p);
    var i := 0;
    while i < |p| - 2
      invariant 0 <= i <= |p| - 2 && p[i] in V
    {
      assert (p[i], p[i + 1]) in E;
      i := i + 1;
    }
    assert (p[|p| - 2], p[|p| - 1]) in E;
  }

  lemma MockEdges(t: Table<string, PipeInfo>)
    requires t == PutAll(Empty(), MockPipes())
    ensures forall i :: 0 <= i < 9 ==> (MockId(i), MockId(i + 1)) in Edges(t)
  {
    MockPipeTable(t);
    forall i | 0 <= i < 9 ensures (MockId(i), MockId(i + 1)) in Edges(t) {
      assert MockPipeIds()[i] == MockPipe(i).id;
      assert t.entries[MockPipe(i).id] == MockPipe(i);
    }
  }

  /** In the demonstration network everything but J1 is downstream of J1. */
  lemma MockDownstreamOfFirst(t: Table<string, PipeInfo>, k: nat)
    requires t == PutAll(Empty(), MockPipes()) && 1 <= k < 10
    ensures Downstream(Edges(t), MockId(0), MockId(k))
  {
    var E := Edges(t);
    MockEdges(t);
    DownstreamStep(E, MockId(0), MockId(0), MockId(1));
    var i := 1;
    while i < k
      invariant 1 <= i <= k && Downstream(E, MockId(0), MockId(i))
    {
      DownstreamStep(E, MockId(0), MockId(i), MockId(i + 1));
      i := i + 1;
    }
  }

  // ---------------------------------------------------------------- topology view

  datatype TopologyNode = TopologyNode(id: string, kind: string, x: real, y: real, elevation: real,
                                       leakRisk: string, riskScore: real)

  datatype TopologyPipe = TopologyPipe(id: string, fromNode: string, toNode: string, length: real,
                                       diameter: real, status: string)

  datatype Topology = Topology(nodes: seq<TopologyNode>, pipes: seq<TopologyPipe>)

  /** The risk band of a score: above 70 high, above 40 medium, above 20 low, else none. */
  function RiskLevel(score: real): (level: string)
    ensures level in {"high", "medium", "low", "none"}
  {
    if score > 70.0 then "high"
    else if score > 40.0 then "medium"
    else if score > 20.0 then "low"
    else "none"
  }

  function RiskRank(level: string): nat {
    if level == "high" then 3 else if level == "medium" then 2 else if level == "low" then 1 else 0
  }

  /** A higher score never gives a lower band. */
  lemma RiskLevelMonotone(a: real, b: real)
    requires a <= b
    ensures RiskRank(RiskLevel(a)) <= RiskRank(RiskLevel(b))
  {
  }

  function NodeView(n: NodeInfo, score: real): TopologyNode {
    TopologyNode(n.id, KindName(n.kind), n.x, n.y, n.elevation, RiskLevel(score), score)
  }

  function PipeView(p: PipeInfo): TopologyPipe {
    TopologyPipe(p.id, p.fromNode, p.toNode, p.length, p.diameter, "active")
  }

  ghost predicate KeyedNodes(t: Table<string, NodeInfo>) {
    forall id :: id in t.entries ==> t.entries[id].id == id
  }

  ghost predicate KeyedPipes(t: Table<string, PipeInfo>) {
    forall id :: id in t.entries ==> t.entries[id].id == id
  }

  /** Assigning records filed under their own ids keeps the whole table keyed by id. */
  lemma PutAllKeyedNodes(t: Table<string, NodeInfo>, kvs: seq<(string, NodeInfo)>)
    requires Dict.Valid(t) && KeyedNodes(t)
    requires forall i :: 0 <= i < |kvs| ==> kvs[i].1.id == kvs[i].0
    ensures KeyedNodes(PutAll(t, kvs))
  {
    PutAllKeeps(t, kvs, (id: string, n: NodeInfo) => n.id == id);
  }

  lemma PutAllKeyedPipes(t: Table<string, PipeInfo>, kvs: seq<(string, PipeInfo)>)
    requires Dict.Valid(t) && KeyedPipes(t)
    requires forall i :: 0 <= i < |kvs| ==> kvs[i].1.id == kvs[i].0
    ensures KeyedPipes(PutAll(t, kvs))
  {
    PutAllKeeps(t, kvs, (id: string, p: PipeInfo) => p.id == id);
  }

  /** The demonstration records are filed under their own ids. */
  lemma MockKeyed(nodes: Table<string, NodeInfo>, pipes: Table<string, PipeInfo>)
    requires Dict.Valid(nodes) && KeyedNodes(nodes) && Dict.Valid(pipes) && KeyedPipes(pipes)
    ensures KeyedNodes(PutAll(nodes, MockNodes())) && KeyedPipes(PutAll(pipes, MockPipes()))
  {
    var ns, ps := MockNodes(), MockPipes();
    forall i | 0 <= i < |ns| ensures ns[i].1.id == ns[i].0 {
      assert ns[i] == (MockNode(i).id, MockNode(i));
    }
    forall i | 0 <= i < |ps| ensures ps[i].1.id == ps[i].0 {
      assert ps[i] == (MockPipe(i).id, MockPipe(i));
    }
    PutAllKeyedNodes(nodes, ns);
    PutAllKeyedPipes(pipes, ps);
  }

  /** Moving nodes keeps every node filed under its own id. */
  lemma ApplyCoordsKeyed(t: Table<string, NodeInfo>, cs: seq<(string, real, real)>)
    requires Dict.Valid(t) && KeyedNodes(t)
    ensures KeyedNodes(ApplyCoords(t, cs))
  {
  }

  // ---------------------------------------------------------------- loop steps

  /** One more line of a node section, as the parser's loop consumes it. */
  lemma NodeEntriesStep(lines: seq<string>, i: nat, kind: NodeKind, num: NumberParser, done: seq<(string, NodeInfo)>)
    requires i < |lines|
    requires NodeEntries(lines, kind, num).0 == done + NodeEntries(lines[i..], kind, num).0
    requires NodeEntries(lines, kind, num).1 == NodeEntries(lines[i..], kind, num).1
    ensures var r := NodeRecord(lines[i], kind, num);
      && (r.Bad? ==> NodeEntries(lines, kind, num) == (done, false))
      && (r.Skip? ==> NodeEntries(lines, kind, num).0 == done + NodeEntries(lines[i + 1..], kind, num).0)
      && (r.Entry? ==> NodeEntries(lines, kind, num).0
                       == (done + [(r.value.id, r.value)]) + NodeEntries(lines[i + 1..], kind, num).0)
      && (!r.Bad? ==> NodeEntries(lines, kind, num).1 == NodeEntries(lines[i + 1..], kind, num).1)
  {
    assert lines[i..][0] == lines[i];
    assert lines[i..][1..] == lines[i + 1..];
    var r := NodeRecord(lines[i], kind, num);
    if r.Bad? {
      AppendEmpty(done);
    } else if r.Entry? {
      AppendAssoc(done, [(r.value.id, r.value)], NodeEntries(lines[i + 1..], kind, num).0);
    }
  }

  /** A node section read to its end. */
  lemma NodeEntriesEnd(lines: seq<string>, kind: NodeKind, num: NumberParser, done: seq<(string, NodeInfo)>)
    requires NodeEntries(lines, kind, num).0 == done + NodeEntries(lines[|lines|..], kind, num).0
    requires NodeEntries(lines, kind, num).1 == NodeEntries(lines[|lines|..], kind, num).1
    ensures NodeEntries(lines, kind, num) == (done, true)
  {
    assert lines[|lines|..] == [];
    AppendEmpty(done);
  }

  lemma PipeEntriesStep(lines: seq<string>, i: nat, num: NumberParser, done: seq<(string, PipeInfo)>)
    requires i < |lines|
    requires PipeEntries(lines, num).0 == done + PipeEntries(lines[i..], num).0
    requires PipeEntries(lines, num).1 == PipeEntries(lines[i..], num).1
    ensures var r := PipeRecord(lines[i], num);
      && (r.Bad? ==> PipeEntries(lines, num) == (done, false))
      && (r.Skip? ==> PipeEntries(lines, num).0 == done + PipeEntries(lines[i + 1..], num).0)
      && (r.Entry? ==> PipeEntries(lines, num).0 == (done + [(r.value.id, r.value)]) + PipeEntries(lines[i + 1..], num).0)
      && (!r.Bad? ==> PipeEntries(lines, num).1 == PipeEntries(lines[i + 1..], num).1)
  {
    assert lines[i..][0] == lines[i];
    assert lines[i..][1..] == lines[i + 1..];
    var r := PipeRecord(lines[i], num);
    if r.Bad? {
      AppendEmpty(done);
    } else if r.Entry? {
      AppendAssoc(done, [(r.value.id, r.value)], PipeEntries(lines[i + 1..], num).0);
    }
  }

  lemma PipeEntriesEnd(lines: seq<string>, num: NumberParser, done: seq<(string, PipeInfo)>)
    requires PipeEntries(lines, num).0 == done + PipeEntries(lines[|lines|..], num).0
    requires PipeEntries(lines, num).1 == PipeEntries(lines[|lines|..], num).1
    ensures PipeEntries(lines, num) == (done, true)
  {
    assert lines[|lines|..] == [];
    AppendEmpty(done);
  }

  lemma CoordEntriesStep(lines: seq<string>, i: nat, num: NumberParser, done: seq<(string, real, real)>)
    requires i < |lines|
    requires CoordEntries(lines, num).0 == done + CoordEntries(lines[i..], num).0
    requires CoordEntries(lines, num).1 == CoordEntries(lines[i..], num).1
    ensures var r := CoordRecord(lines[i], num);
      && (r.Bad? ==> CoordEntries(lines, num) == (done, false))
      && (r.Skip? ==> CoordEntries(lines, num).0 == done + CoordEntries(lines[i + 1..], num).0)
      && (r.Entry? ==> CoordEntries(lines, num).0 == (done + [r.value]) + CoordEntries(lines[i + 1..], num).0)
      && (!r.Bad? ==> CoordEntries(lines, num).1 == CoordEntries(lines[i + 1..], num).1)
  {
    assert lines[i..][0] == lines[i];
    assert lines[i..][1..] == lines[i + 1..];
    var r := CoordRecord(lines[i], num);
    if r.Bad? {
      AppendEmpty(done);
    } else if r.Entry? {
      AppendAssoc(done, [r.value], CoordEntries(lines[i + 1..], num).0);
    }
  }

  lemma CoordEntriesEnd(lines: seq<string>, num: NumberParser, done: seq<(string, real, real)>)
    requires CoordEntries(lines, num).0 == done + CoordEntries(lines[|lines|..], num).0
    requires CoordEntries(lines, num).1 == CoordEntries(lines[|lines|..], num).1
    ensures CoordEntries(lines, num) == (done, true)
  {
    assert lines[|lines|..] == [];
    AppendEmpty(done);
  }

  // ---------------------------------------------------------------- the parser's loops, on table values

  /** The loop of _parse_junctions, _parse_reservoirs and _parse_tanks: one record per line with two or more fields. */
  method ReadNodeLines(t: Table<string, NodeInfo>, lines: seq<string>, kind: NodeKind, num: NumberParser)
    returns (ok: bool, r: Table<string, NodeInfo>)
    requires Dict.Valid(t)
    ensures r == PutAll(t, NodeEntries(lines, kind, num).0) && ok == NodeEntries(lines, kind, num).1
  {
    r := t;
    ghost var done: seq<(string, NodeInfo)> := [];
    var i := 0;
    while i < |lines|
      invariant 0 <= i <= |lines|
      invariant r == PutAll(t, done)
      invariant NodeEntries(lines, kind, num).0 == done + NodeEntries(lines[i..], kind, num).0
      invariant NodeEntries(lines, kind, num).1 == NodeEntries(lines[i..], kind, num).1
    {
      NodeEntriesStep(lines, i, kind, num, done);
      var parts := Tokens(lines[i]);
      if |parts| >= 2 {
        var nodeId := parts[0];
        var elevation := num(parts[1]);
        if elevation.None? {
          return false, r;
        }
        var n := NodeInfo(nodeId, kind, 0.0, 0.0, elevation.value);
        PutAllSnoc(t, done, (nodeId, n));
        r := Put(r, nodeId, n);
        done := done + [(nodeId, n)];
      }
      i := i + 1;
    }
    NodeEntriesEnd(lines, kind, num, done);
    return true, r;
  }

  /** The loop of _parse_pipes: one record per line with five or more fields. */
  method ReadPipeLines(t: Table<string, PipeInfo>, lines: seq<string>, num: NumberParser)
    returns (ok: bool, r: Table<string, PipeInfo>)
    requires Dict.Valid(t)
    ensures r == PutAll(t, PipeEntries(lines, num).0) && ok == PipeEntries(lines, num).1
  {
    r := t;
    ghost var done: seq<(string, PipeInfo)> := [];
    var i := 0;
    while i < |lines|
      invariant 0 <= i <= |lines|
      invariant r == PutAll(t, done)
      invariant PipeEntries(lines, num).0 == done + PipeEntries(lines[i..], num).0
      invariant PipeEntries(lines, num).1 == PipeEntries(lines[i..], num).1
    {
      PipeEntriesStep(lines, i, num, done);
      var parts := Tokens(lines[i]);
      if |parts| >= 5 {
        var pipeId, fromNode, toNode := parts[0], parts[1], parts[2];
        var length := num(parts[3]);
        if length.None? {
          return false, r;
        }
        var diameter := num(parts[4]);
        if diameter.None? {
          return false, r;
        }
        var p := PipeInfo(pipeId, fromNode, toNode, length.value, diameter.value);
        PutAllSnoc(t, done, (pipeId, p));
        r := Put(r, pipeId, p);
        done := done + [(pipeId, p)];
      }
      i := i + 1;
    }
    PipeEntriesEnd(lines, num, done);
    return true, r;
  }

  /** The loop of _parse_coordinates: moves the nodes it knows, and says whether every line was read. */
  method ReadCoordLines(t: Table<string, NodeInfo>, lines: seq<string>, num: NumberParser)
    returns (ok: bool, r: Table<string, NodeInfo>)
    requires Dict.Valid(t)
    ensures r == ApplyCoords(t, CoordEntries(lines, num).0) && ok == CoordEntries(lines, num).1
  {
    r := t;
    ghost var done: seq<(string, real, real)> := [];
    var i := 0;
    while i < |lines|
      invariant 0 <= i <= |lines|
      invariant r == ApplyCoords(t, done)
      invariant CoordEntries(lines, num).0 == done + CoordEntries(lines[i..], num).0
      invariant CoordEntries(lines, num).1 == CoordEntries(lines[i..], num).1
    {
      CoordEntriesStep(lines, i, num, done);
      var parts := Tokens(lines[i]);
      if |parts| >= 3 {
        var nodeId := parts[0];
        var x := num(parts[1]);
        if x.None? {
          return false, r;
        }
        var y := num(parts[2]);
        if y.None? {
          return false, r;
        }
        ApplyCoordsSnoc(t, done, (nodeId, x.value, y.value));
        if nodeId in r.entries {
          r := Put(r, nodeId, r.entries[nodeId].(x := x.value, y := y.value));
        }
        done := done + [(nodeId, x.value, y.value)];
      }
      i := i + 1;
    }
    CoordEntriesEnd(lines, num, done);
    return true, r;
  }

  /** The node table part way through the normalising loop: the first i keys are rescaled. */
  ghost function MovedUpTo(t: Table<string, NodeInfo>, e: Extent, i: nat): Table<string, NodeInfo>
    requires Dict.Valid(t) && i <= |t.keys|
  {
    Table(t.keys, map id | id in t.entries :: if id in t.keys[..i] then Moved(t.entries[id], e) else t.entries[id])
  }

  lemma MovedUpToNone(t: Table<string, NodeInfo>, e: Extent)
    requires Dict.Valid(t)
    ensures MovedUpTo(t, e, 0) == t
  {
    assert t.keys[..0] == [];
  }

  /** Rescaling the next key of the loop. */
  lemma MovedUpToStep(t: Table<string, NodeInfo>, e: Extent, i: nat)
    requires Dict.Valid(t) && i < |t.keys|
    ensures t.keys[i] in MovedUpTo(t, e, i).entries
    ensures MovedUpTo(t, e, i).entries[t.keys[i]] == t.entries[t.keys[i]]
    ensures MovedUpTo(t, e, i + 1) == Put(MovedUpTo(t, e, i), t.keys[i], Moved(t.entries[t.keys[i]], e))
  {
    var k := t.keys[i];
    assert t.keys[..i + 1] == t.keys[..i] + [k];
    assert k !in t.keys[..i] by {
      forall j | 0 <= j < i ensures t.keys[..i][j] != k {
        assert t.keys[..i][j] == t.keys[j];
      }
    }
  }

  lemma MovedUpToAll(t: Table<string, NodeInfo>)
    requires Dict.Valid(t) && t.keys != []
    ensures MovedUpTo(t, ExtentOf(t), |t.keys|) == Normalized(t)
  {
    assert t.keys[..|t.keys|] == t.keys;
  }

  /** Normalising keeps every node filed under its own id. */
  lemma NormalizedKeyed(t: Table<string, NodeInfo>)
    requires Dict.Valid(t) && KeyedNodes(t)
    ensures KeyedNodes(Normalized(t))
  {
  }

  /** The loop of _normalize_coordinates: every node rescaled into the 0..1000 square. */
  method NormalizeTable(t: Table<string, NodeInfo>) returns (r: Table<string, NodeInfo>)
    requires Dict.Valid(t) && KeyedNodes(t)
    ensures Dict.Valid(r) && KeyedNodes(r)
    ensures r == Normalized(t)
  {
    NormalizedKeyed(t);
    if t.keys == [] {
      return t;
    }
    var e := ExtentOf(t);
    MovedUpToNone(t, e);
    r := t;
    var i := 0;
    while i < |r.keys|
      invariant 0 <= i <= |t.keys| && r.keys == t.keys
      invariant Dict.Valid(r) && r == MovedUpTo(t, e, i)
    {
      MovedUpToStep(t, e, i);
      var id := r.keys[i];
      var n := r.entries[id];
      r := Put(r, id, n.(x := Rescale(n.x, e.minX, e.maxX), y := Rescale(n.y, e.minY, e.maxY)));
      i := i + 1;
    }
    assert i == |t.keys| && e == ExtentOf(t);
    MovedUpToAll(t);
  }

  /** The first loop of _generate_mock_data: J1..J10. */
  method AddMockNodes(t: Table<string, NodeInfo>) returns (r: Table<string, NodeInfo>)
    requires Dict.Valid(t)
    ensures r == PutAll(t, MockNodes())
  {
    r := t;
    for i := 0 to 10
      invariant r == PutAll(t, MockNodes()[..i])
    {
      var nodeId := "J" + NatToString(i + 1);
      var n := NodeInfo(nodeId, if i > 0 then Junction else Reservoir,
                        (100 + (i % 5) * 200) as real, (100 + (i / 5) * 300) as real, (100 + i * 5) as real);
      assert MockNodes()[i] == (nodeId, n);
      PrefixSnoc(MockNodes(), i);
      PutAllSnoc(t, MockNodes()[..i], (nodeId, n));
      r := Put(r, nodeId, n);
    }
    PrefixAll(MockNodes());
  }

  /** The second loop of _generate_mock_data: P1..P9, each from J(i+1) to J(i+2). */
  method AddMockPipes(t: Table<string, PipeInfo>) returns (r: Table<string, PipeInfo>)
    requires Dict.Valid(t)
    ensures r == PutAll(t, MockPipes())
  {
    r := t;
    for i := 0 to 9
      invariant r == PutAll(t, MockPipes()[..i])
    {
      var pipeId := "P" + NatToString(i + 1);
      var p := PipeInfo(pipeId, "J" + NatToString(i + 1), "J" + NatToString(i + 2), (100 + i * 10) as real, 150.0);
      assert MockPipes()[i] == (pipeId, p);
      PrefixSnoc(MockPipes(), i);
      PutAllSnoc(t, MockPipes()[..i], (pipeId, p));
      r := Put(r, pipeId, p);
    }
    PrefixAll(MockPipes());
  }

  /** The end nodes, in pipe order, of the pipes that leave current for a node not yet visited. */
  function Outflow(ps: seq<PipeInfo>, current: string, visited: set<string>): seq<string>
    decreases |ps|
  {
    if ps == [] then []
    else
      var last := ps[|ps| - 1];
      Outflow(ps[..|ps| - 1], current, visited)
      + (if last.fromNode == current && last.toNode !in visited then [last.toNode] else [])
  }

  /** A node is queued by the scan exactly when some pipe leads to it from current and it is unvisited. */
  lemma {:induction false} OutflowMembers(ps: seq<PipeInfo>, current: string, visited: set<string>, w: string)
    ensures w in Outflow(ps, current, visited) <==>
      w !in visited && exists k :: 0 <= k < |ps| && ps[k].fromNode == current && ps[k].toNode == w
    decreases |ps|
  {
    if ps != [] {
      var n := |ps| - 1;
      var last := ps[n];
      var init := Outflow(ps[..n], current, visited);
      var step := if last.fromNode == current && last.toNode !in visited then [last.toNode] else [];
      assert Outflow(ps, current, visited) == init + step;
      assert w in Outflow(ps, current, visited) <==> w in init || w in step;
      OutflowMembers(ps[..n], current, visited, w);
      LeadsSnoc(ps, ps[..n], current, w);
    }
  }

  /** Some pipe of ps leads from current to w iff one of the earlier pipes does or the last one does. */
  lemma LeadsSnoc(ps: seq<PipeInfo>, init: seq<PipeInfo>, current: string, w: string)
    requires ps != [] && init == ps[..|ps| - 1]
    ensures (exists k :: 0 <= k < |ps| && ps[k].fromNode == current && ps[k].toNode == w) <==>
      (exists k :: 0 <= k < |init| && init[k].fromNode == current && init[k].toNode == w) ||
      (ps[|ps| - 1].fromNode == current && ps[|ps| - 1].toNode == w)
  {
    if exists k :: 0 <= k < |init| && init[k].fromNode == current && init[k].toNode == w {
      var k :| 0 <= k < |init| && init[k].fromNode == current && init[k].toNode == w;
      assert ps[k] == init[k];
    }
    if exists k :: 0 <= k < |ps| && ps[k].fromNode == current && ps[k].toNode == w {
      var k :| 0 <= k < |ps| && ps[k].fromNode == current && ps[k].toNode == w;
      if k < |init| {
        assert init[k] == ps[k];
      }
    }
  }

  /** One more pipe of the scan. */
  lemma OutflowSnoc(ps: seq<PipeInfo>, j: nat, current: string, visited: set<string>)
    requires j < |ps|
    ensures Outflow(ps[..j + 1], current, visited)
         == Outflow(ps[..j], current, visited)
            + (if ps[j].fromNode == current && ps[j].toNode !in visited then [ps[j].toNode] else [])
  {
    assert ps[..j + 1][..j] == ps[..j];
  }

  /**
   * What one scan of the pipes from current adds: nodes downstream of the
   * source other than the source itself, and between them and the visited
   * nodes every end of a pipe leaving current.
   */
  lemma ScanFindings(pipes: Table<string, PipeInfo>, ps: seq<PipeInfo>, source: string, current: string, visited: set<string>)
    requires Dict.Valid(pipes) && ps == Values(pipes)
    requires current == source || Downstream(Edges(pipes), source, current)
    requires source in visited
    ensures forall w :: w in Outflow(ps, current, visited) ==>
      w in Targets(pipes) && w != source && Downstream(Edges(pipes), source, w)
    ensures forall w :: (current, w) in Edges(pipes) ==> w in visited || w in Outflow(ps, current, visited)
  {
    var E := Edges(pipes);
    forall w | w in Outflow(ps, current, visited) ensures w in Targets(pipes) && w != source && Downstream(E, source, w) {
      OutflowMembers(ps, current, visited, w);
      var k :| 0 <= k < |ps| && ps[k].fromNode == current && ps[k].toNode == w;
      assert ps[k] == pipes.entries[pipes.keys[k]];
      assert (current, w) in E;
      DownstreamStep(E, source, current, w);
    }
    forall w | (current, w) in E ensures w in visited || w in Outflow(ps, current, visited) {
      var id :| id in pipes.entries && (pipes.entries[id].fromNode, pipes.entries[id].toNode) == (current, w);
      var k :| 0 <= k < |pipes.keys| && pipes.keys[k] == id;
      assert ps[k] == pipes.entries[id];
      OutflowMembers(ps, current, visited, w);
    }
  }

  /**
   * What holds between two rounds of the search: queued and visited nodes are
   * the source or affected, every affected node is downstream of the source,
   * and the end of every pipe leaving a visited node is visited or queued.
   */
  ghost predicate SearchInvariant(pipes: Table<string, PipeInfo>, source: string, visited: set<string>,
                                  toVisit: seq<string>, affected: set<string>) {
    && (forall w :: w in toVisit ==> w == source || w in affected)
    && visited <= affected + {source} && affected <= Targets(pipes) && source !in affected
    && (visited == {} ==> toVisit == [source])
    && (visited != {} ==> source in visited)
    && (forall w :: w in affected ==> Downstream(Edges(pipes), source, w))
    && (forall u, w :: u in visited && (u, w) in Edges(pipes) ==> w in visited || w in toVisit)
  }

  /** Popping a node already visited. */
  lemma SearchSkip(pipes: Table<string, PipeInfo>, source: string, visited: set<string>,
                   toVisit: seq<string>, affected: set<string>)
    requires SearchInvariant(pipes, source, visited, toVisit, affected)
    requires toVisit != [] && toVisit[0] in visited
    ensures SearchInvariant(pipes, source, visited, toVisit[1..], affected)
  {
    assert toVisit == [toVisit[0]] + toVisit[1..];
  }

  /**
   * Popping an unvisited node: it is the source or downstream of it, and after
   * marking it visited and scanning its pipes the invariant holds again.
   */
  lemma SearchVisit(pipes: Table<string, PipeInfo>, ps: seq<PipeInfo>, source: string, visited: set<string>,
                    toVisit: seq<string>, affected: set<string>)
    requires Dict.Valid(pipes) && ps == Values(pipes)
    requires SearchInvariant(pipes, source, visited, toVisit, affected)
    requires toVisit != [] && toVisit[0] !in visited
    ensures toVisit[0] == source || toVisit[0] in Targets(pipes)
    ensures var current := toVisit[0];
      var out := Outflow(ps, current, visited + {current});
      SearchInvariant(pipes, source, visited + {current}, toVisit[1..] + out, affected + Elems(out))
  {
    var current := toVisit[0];
    var visited' := visited + {current};
    var out := Outflow(ps, current, visited');
    var toVisit' := toVisit[1..] + out;
    var E := Edges(pipes);
    assert toVisit == [current] + toVisit[1..];
    assert source in visited';
    ScanFindings(pipes, ps, source, current, visited');
    forall u, w | u in visited' && (u, w) in E ensures w in visited' || w in toVisit' {
      if u != current {
        assert w in visited || w in toVisit;
      }
    }
  }

  /** An empty queue: the affected nodes are exactly those downstream of the source. */
  lemma SearchDone(pipes: Table<string, PipeInfo>, source: string, visited: set<string>, affected: set<string>)
    requires SearchInvariant(pipes, source, visited, [], affected)
    ensures forall v :: v in affected <==> v != source && Downstream(Edges(pipes), source, v)
  {
    forall v | v != source && Downstream(Edges(pipes), source, v) ensures v in affected {
      ClosedSetHoldsDownstream(Edges(pipes), source, visited, affected, v);
    }
  }

  /** The inner loop of get_affected_nodes: queue and record the unvisited ends of the pipes leaving current. */
  method ScanPipes(ps: seq<PipeInfo>, current: string, visited: set<string>, toVisit: seq<string>, affected: set<string>)
    returns (toVisit': seq<string>, affected': set<string>)
    ensures toVisit' == toVisit + Outflow(ps, current, visited)
    ensures affected' == affected + Elems(Outflow(ps, current, visited))
  {
    toVisit', affected' := toVisit, affected;
    for j := 0 to |ps|
      invariant toVisit' == toVisit + Outflow(ps[..j], current, visited)
      invariant affected' == affected + Elems(Outflow(ps[..j], current, visited))
    {
      OutflowSnoc(ps, j, current, visited);
      var pipe := ps[j];
      if pipe.fromNode == current && pipe.toNode !in visited {
        AppendAssoc(toVisit, Outflow(ps[..j], current, visited), [pipe.toNode]);
        ElemsSnoc(Outflow(ps[..j], current, visited), pipe.toNode);
        affected' := affected' + {pipe.toNode};
        toVisit' := toVisit' + [pipe.toNode];
      } else {
        AppendEmpty(Outflow(ps[..j], current, visited));
      }
    }
    PrefixAll(ps);
  }

  /**
   * The search of get_affected_nodes: breadth-first along pipe directions from the source.
   * An unknown source gives nothing; otherwise the result holds exactly the
   * nodes other than the source that some chain of pipes leads to.
   */
  method AffectedNodes(nodes: Table<string, NodeInfo>, pipes: Table<string, PipeInfo>, source: string)
    returns (affected: set<string>)
    requires Dict.Valid(pipes)
    ensures source !in nodes.entries ==> affected == {}
    ensures source in nodes.entries ==>
      forall v :: v in affected <==> v != source && Downstream(Edges(pipes), source, v)
  {
    if source !in nodes.entries {
      return {};
    }
    ghost var U := Targets(pipes) + {source};
    var ps := Values(pipes);
    affected := {};
    var toVisit := [source];
    var visited: set<string> := {};
    while toVisit != []
      invariant SearchInvariant(pipes, source, visited, toVisit, affected) && visited <= U
      decreases |U - visited|, |toVisit|
    {
      ghost var queue := toVisit;
      var current := toVisit[0];
      toVisit := toVisit[1..];
      if current in visited {
        SearchSkip(pipes, source, visited, queue, affected);
        continue;
      }
      SearchVisit(pipes, ps, source, visited, queue, affected);
      ghost var before := visited;
      visited := visited + {current};
      assert U - visited < U - before;
      toVisit, affected := ScanPipes(ps, current, visited, toVisit, affected);
    }
    SearchDone(pipes, source, visited, affected);
  }

  /** list(affected): every member once, in an order the set does not fix. */
  method ListOf(s: set<string>) returns (r: seq<string>)
    ensures Distinct(r) && |r| == |s| && forall v :: v in r <==> v in s
  {
    r := [];
    var rest := s;
    while rest != {}
      invariant Distinct(r) && rest <= s && |r| + |rest| == |s|
      invariant forall v :: v in r <==> v in s && v !in rest
      decreases |rest|
    {
      var v :| v in rest;
      r := r + [v];
      rest := rest - {v};
    }
  }

  /** EPANETParser: the node and pipe dictionaries the parser fills in place. */
  class EpanetParser {
    var nodes: Table<string, NodeInfo>
    var pipes: Table<string, PipeInfo>
    /** Set when float() rejected a number in a section; the source lets that ValueError escape. */
    var failed: bool

    ghost predicate Valid()
      reads this`nodes, this`pipes
    {
      Dict.Valid(nodes) && Dict.Valid(pipes) && KeyedNodes(nodes) && KeyedPipes(pipes)
    }

    /** __init__: empty tables, then parse_inp_file; a missing file (None) gives the mock network. */
    constructor (file: Option<string>, num: NumberParser)
      ensures Valid()
      ensures file.Some? ==> Parsed(nodes, pipes, !failed) == ParseAll(Empty(), Empty(), file.value, num)
      ensures file.None? ==> nodes == PutAll(Empty(), MockNodes()) && pipes == PutAll(Empty(), MockPipes()) && !failed
    {
      nodes := Empty();
      pipes := Empty();
      failed := false;
      new;
      ParseInpFile(file, num);
    }

    /** parse_inp_file: None stands for the FileNotFoundError branch. */
    method ParseInpFile(file: Option<string>, num: NumberParser)
      requires Valid()
      modifies this
      ensures Valid()
      ensures file.Some? ==> Parsed(nodes, pipes, !failed) == ParseAll(old(nodes), old(pipes), file.value, num)
      ensures file.None? ==>
        nodes == PutAll(old(nodes), MockNodes()) && pipes == PutAll(old(pipes), MockPipes()) && failed == old(failed)
    {
      match file
      case None =>
        GenerateMockData();
      case Some(content) =>
        ParseContent(content, num);
    }

    /** The body of parse_inp_file once the file was read: each section in turn, stopping at the first error. */
    method ParseContent(content: string, num: NumberParser)
      requires Valid()
      modifies this
      ensures Valid()
      ensures Parsed(nodes, pipes, !failed) == ParseAll(old(nodes), old(pipes), content, num)
    {
      ghost var p := Parsed(nodes, pipes, true);
      var ok := ParseNodeSection(content, Junction, num);
      p := AfterNodeSection(p, content, Junction, num);
      assert Parsed(nodes, pipes, ok) == p;
      if ok {
        ok := ParseNodeSection(content, Reservoir, num);
      }
      p := AfterNodeSection(p, content, Reservoir, num);
      assert Parsed(nodes, pipes, ok) == p;
      if ok {
        ok := ParseNodeSection(content, Tank, num);
      }
      p := AfterNodeSection(p, content, Tank, num);
      assert Parsed(nodes, pipes, ok) == p;
      if ok {
        ok := ParsePipes(content, num);
      }
      p := AfterPipeSection(p, content, num);
      assert Parsed(nodes, pipes, ok) == p;
      if ok {
        ok := ParseCoordinates(content, num);
      }
      p := AfterCoordSection(p, content, num);
      assert Parsed(nodes, pipes, ok) == p == ParseAll(old(nodes), old(pipes), content, num);
      failed := !ok;
    }

    /** _parse_junctions, _parse_reservoirs and _parse_tanks. */
    method ParseNodeSection(content: string, kind: NodeKind, num: NumberParser) returns (ok: bool)
      requires Valid()
      modifies this`nodes
      ensures Valid()
      ensures nodes == PutAll(old(nodes), NodeSection(content, kind, num).0) && ok == NodeSection(content, kind, num).1
    {
      var lines := ParseSection(content, SectionName(kind));
      PutAllKeyedNodes(nodes, NodeEntries(lines, kind, num).0);
      ok, nodes := ReadNodeLines(nodes, lines, kind, num);
    }

    /** _parse_pipes. */
    method ParsePipes(content: string, num: NumberParser) returns (ok: bool)
      requires Valid()
      modifies this`pipes
      ensures Valid()
      ensures pipes == PutAll(old(pipes), PipeSection(content, num).0) && ok == PipeSection(content, num).1
    {
      var lines := ParseSection(content, PipesTitle);
      PutAllKeyedPipes(pipes, PipeEntries(lines, num).0);
      ok, pipes := ReadPipeLines(pipes, lines, num);
    }

    /** _parse_coordinates, which normalises once every line was read. */
    method ParseCoordinates(content: string, num: NumberParser) returns (ok: bool)
      requires Valid()
      modifies this`nodes
      ensures Valid() && ok == CoordSection(content, num).1
      ensures var moved := ApplyCoords(old(nodes), CoordSection(content, num).0);
        nodes == if ok then Normalized(moved) else moved
    {
      var lines := ParseSection(content, CoordinatesTitle);
      ApplyCoordsKeyed(nodes, CoordEntries(lines, num).0);
      ok, nodes := ReadCoordLines(nodes, lines, num);
      if ok {
        NormalizeCoordinates();
      }
    }

    /** _normalize_coordinates. */
    method NormalizeCoordinates()
      requires Valid()
      modifies this`nodes
      ensures Valid() && nodes == Normalized(old(nodes))
    {
      nodes := NormalizeTable(nodes);
    }

    /** _generate_mock_data. */
    method GenerateMockData()
      requires Valid()
      modifies this`nodes, this`pipes
      ensures Valid()
      ensures nodes == PutAll(old(nodes), MockNodes()) && pipes == PutAll(old(pipes), MockPipes())
    {
      MockKeyed(nodes, pipes);
      nodes := AddMockNodes(nodes);
      pipes := AddMockPipes(pipes);
    }

    /** get_network_topology, with the random risk scores passed in, one per node. */
    method GetNetworkTopology(scores: seq<real>) returns (topo: Topology)
      requires Valid() && |scores| == |nodes.keys|
      ensures |topo.nodes| == |nodes.keys| && |topo.pipes| == |pipes.keys|
      ensures forall i :: 0 <= i < |nodes.keys| ==> topo.nodes[i] == NodeView(nodes.entries[nodes.keys[i]], scores[i])
      ensures forall i :: 0 <= i < |pipes.keys| ==> topo.pipes[i] == PipeView(pipes.entries[pipes.keys[i]])
    {
      var ns: seq<TopologyNode> := [];
      for i := 0 to |nodes.keys|
        invariant |ns| == i
        invariant forall k :: 0 <= k < i ==> ns[k] == NodeView(nodes.entries[nodes.keys[k]], scores[k])
      {
        var node := nodes.entries[nodes.keys[i]];
        var riskScore := scores[i];
        var riskLevel := if riskScore > 70.0 then "high"
                         else if riskScore > 40.0 then "medium"
                         else if riskScore > 20.0 then "low"
                         else "none";
        var view := TopologyNode(node.id, KindName(node.kind), node.x, node.y, node.elevation, riskLevel, riskScore);
        assert view == NodeView(node, riskScore);
        ns := ns + [view];
      }
      var ps: seq<TopologyPipe> := [];
      for i := 0 to |pipes.keys|
        invariant |ps| == i
        invariant forall k :: 0 <= k < i ==> ps[k] == PipeView(pipes.entries[pipes.keys[k]])
      {
        var pipe := pipes.entries[pipes.keys[i]];
        var view := TopologyPipe(pipe.id, pipe.fromNode, pipe.toNode, pipe.length, pipe.diameter, "active");
        assert view == PipeView(pipe);
        ps := ps + [view];
      }
      topo := Topology(ns, ps);
    }

    /** get_affected_nodes. */
    method GetAffectedNodes(source: string) returns (affected: seq<string>)
      requires Valid()
      ensures source !in nodes.entries ==> affected == []
      ensures source in nodes.entries ==> Distinct(affected)
      ensures source in nodes.entries ==>
        forall v :: v in affected <==> v != source && Downstream(Edges(pipes), source, v)
    {
      var found := AffectedNodes(nodes, pipes, source);
      affected := ListOf(found);
    }
  }
}
