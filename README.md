# Leak detection for a water distribution network, modelled in Dafny

The system reads an EPANET network description (an `.inp` file), shows the
network on a map, simulates leaks at junctions to produce training data
(pressures at a fixed set of observation nodes, hour by hour), trains a
network that predicts the leak position and size from those pressures, and
at inference time standardises the inputs and maps the predictions back.

This project models the deterministic core of that pipeline and proves
what it promises:

- the `.inp` parser: section extraction, line cleaning, the record loops,
  the coordinate rescaling into the 0..1000 display square, the
  demonstration network used when the file is missing, the risk bands and
  the downstream search over directed pipes (`EpanetParser`, a class with
  the node and pipe tables as fields);
- the display-to-GPS coordinate transform and the map bounds
  (`CoordinateTransform`);
- the frontend derivations: the nearest-node look-up of the leak result
  map, the leak detection page, the results pages (including the fixed
  variant that works on untyped JavaScript values), the network map and the
  predictions panel;
- the simulation bookkeeping the two data generators share (flow-unit
  factor, the emitter switched on and off once, the leak-size estimate:
  `Simulation`), the current generator (`GenerateData`) and the legacy one
  (`LegacyGenerateData`), with hourly aggregation, scenario validation and
  the scenario enumeration (the legacy build's loops are written against a
  scenario runner, a function value; `BuildDataset` passes the one that
  `RunOneScenario` is proved to compute);
- the feature normalisation at training time (`NormalizedDataset`, with the
  class `LeakDataset`) and its inverse at inference time (`RunModel`),
  including the 504-column input layout.

Shared helpers live in `Wrappers` (Option, Result), `Seqs` (filter,
subsequence, sums and means), `Strings` (the Python and JavaScript string
operations used), `Sorting` (a stable sort with an order parameter) and
`Dict` (an insertion-ordered dictionary: a key sequence beside a map).

Numbers are mathematical reals and integers: floating-point rounding, NaN
(modelled as an absent value where the source tests for it) and the
solver-driven hydraulics are outside the model. The EPANET toolkit is
replaced by the readings it would return, the random draws by parameters,
and `float()`, `math.sin`/`cos`, `sqrt` and `**` by function parameters.

## Model

| member | source | states |
|---|---|---|
| EpanetParser.FirstHeader | backend/epanet_parser.py:58-59 | the result is the leftmost position at or after `from` where `[name]` starts, letters compared without case, and None exactly when no such position exists |
| EpanetParser.NextBracket | backend/epanet_parser.py:58 | the lookahead `(?=\[\|\Z)`: the first `[` at or after `from`, or the end of the text, with no `[` in between |
| EpanetParser.SectionMatchUnique | backend/epanet_parser.py:58-59 | the match of the section pattern is unique: one start (the leftmost header) and one end (the shortest body) |
| EpanetParser.SectionBodyMatches | backend/epanet_parser.py:58-62 | the body is found iff the header occurs somewhere; it is the text between the leftmost header and the next `[` or the end, and holds no `[` |
| EpanetParser.KeptLineLead | backend/epanet_parser.py:66-67 | a line that passes the filter has its first visible character before its first `;` |
| EpanetParser.CleanLine | backend/epanet_parser.py:66 | a line's text before its first `;`, stripped; for a kept line it is non-empty and comment-free (CleanLineOfKept) |
| EpanetParser.CleanLineOfKept | backend/epanet_parser.py:66-67 | a kept line cleans to a non-empty, comment-free, stripped line |
| EpanetParser.CleanLinesClean | backend/epanet_parser.py:64-67 | every line the comprehension returns is non-empty, holds no `;` and has no surrounding blanks |
| EpanetParser.CleanLinesCount | backend/epanet_parser.py:66-67 | one cleaned line per line that survives the filter |
| EpanetParser.ParseSection | backend/epanet_parser.py:56-67 | the cleaned lines of the named section's body; none when the section is absent, and every line clean (ParseSectionLines) |
| EpanetParser.ParseSectionLines | backend/epanet_parser.py:56-67 | a section whose header never occurs gives no lines; every line given is clean |
| EpanetParser.NodeRecord | backend/epanet_parser.py:73-84 | a line with fewer than two fields is skipped; one whose second field is not a number raises; otherwise the record has the first field as id, the section's kind, position (0, 0) and the number as elevation |
| EpanetParser.PipeRecord | backend/epanet_parser.py:124-139 | a line with fewer than five fields is skipped; one whose length or diameter is not a number raises; otherwise the record takes id, start and end node, length and diameter from fields 1-5 |
| EpanetParser.CoordRecord | backend/epanet_parser.py:145-150 | a line with fewer than three fields is skipped; one whose x or y is not a number raises; otherwise the record is (id, x, y) |
| EpanetParser.NodeEntries | backend/epanet_parser.py:73-84 | the records a node loop assigns, no more than there are lines, each filed under its own non-empty id with the section's kind |
| EpanetParser.PipeEntries | backend/epanet_parser.py:124-139 | the records the pipe loop assigns, each filed under its own non-empty id |
| EpanetParser.ReadNodeLines | backend/epanet_parser.py:73-84 | the loop leaves the node table equal to the table with the records assigned in order, and reports whether every line was read |
| EpanetParser.ReadPipeLines | backend/epanet_parser.py:124-139 | the loop leaves the pipe table equal to the table with the records assigned in order, and reports whether every line was read |
| EpanetParser.ReadCoordLines | backend/epanet_parser.py:145-154 | the loop moves the known nodes as the coordinate records say and reports whether every line was read |
| EpanetParser.ApplyCoords | backend/epanet_parser.py:152-154 | moving nodes keeps the table's keys and order and changes nothing of a node but its position |
| EpanetParser.ApplyCoordsLookup | backend/epanet_parser.py:145-154 | a known node ends at its last listed position; a node never listed keeps its record; unknown ids change nothing |
| EpanetParser.ApplyCoordsKeyed | backend/epanet_parser.py:152-154 | moving nodes keeps every node filed under its own id |
| EpanetParser.Rescale | backend/epanet_parser.py:174-180 | one coordinate mapped onto 0..1000 by the axis extremes, with range 1 on a flat axis; it keeps order and sends the extremes to the ends (RescaleBounds, RescaleMonotone) |
| EpanetParser.RescaleBounds | backend/epanet_parser.py:174-180 | a value between the extremes lands in 0..1000, the minimum on 0 and the maximum on 1000 unless the axis is flat |
| EpanetParser.RescaleMonotone | backend/epanet_parser.py:179-180 | rescaling keeps the order of values along an axis |
| EpanetParser.ExtentOf | backend/epanet_parser.py:164-172 | the extremes bound every node's x and y |
| EpanetParser.Normalized | backend/epanet_parser.py:159-180 | the node table keeps its ids and their order; an empty table is unchanged, and otherwise every node lands in the 0..1000 square (NormalizedSquare) |
| EpanetParser.NormalizedSquare | backend/epanet_parser.py:159-180 | after normalisation every node lies in the 0..1000 square, keeps its id, kind and elevation, and the extreme nodes land on the square's sides |
| EpanetParser.NormalizedKeepsOrder | backend/epanet_parser.py:178-180 | normalisation keeps the order of any two nodes along each axis |
| EpanetParser.NormalizedKeyed | backend/epanet_parser.py:178-180 | normalising keeps every node filed under its own id |
| EpanetParser.NormalizeTable | backend/epanet_parser.py:159-180 | the loop over the nodes gives the normalised table |
| EpanetParser.ParseAllNodes | backend/epanet_parser.py:39-51 | for a file read to its end, the node table is the junction, reservoir and tank records assigned in turn, moved by the coordinates and normalised |
| EpanetParser.ThreeRoundsLookup | backend/epanet_parser.py:46-48 | after three rounds of assignment an id is present iff some round names it, and the last round naming it decides its record |
| EpanetParser.LaterSectionWins | backend/epanet_parser.py:46-48 | an id listed in several node sections takes its kind and elevation from the last section that lists it (tanks over reservoirs over junctions) |
| EpanetParser.MockIdsDistinct | backend/epanet_parser.py:185-204 | the demonstration ids J1..J10 and P1..P9 are distinct |
| EpanetParser.MockNodeTable | backend/epanet_parser.py:185-194 | the demonstration node table holds J1..J10 in order, node i at (100 + 200·(i mod 5), 100 + 300·(i div 5)) with elevation 100 + 5i |
| EpanetParser.MockPipeTable | backend/epanet_parser.py:196-204 | the demonstration pipe table holds P1..P9 in order, pipe i from J(i+1) to J(i+2), length 100 + 10i, diameter 150 |
| EpanetParser.MockNodePlaces | backend/epanet_parser.py:185-194 | J1 is the only reservoir and every demonstration node lies inside the display square |
| EpanetParser.MockPipesConnect | backend/epanet_parser.py:196-204 | every demonstration pipe joins two demonstration nodes |
| EpanetParser.MockDownstreamOfFirst | backend/epanet_parser.py:196-204 | in the demonstration network every node but J1 is downstream of J1 |
| EpanetParser.AddMockNodes | backend/epanet_parser.py:185-194 | the first loop assigns exactly the demonstration nodes |
| EpanetParser.AddMockPipes | backend/epanet_parser.py:196-204 | the second loop assigns exactly the demonstration pipes |
| EpanetParser.RiskLevel | backend/epanet_parser.py:215-222 | the band is one of high, medium, low and none |
| EpanetParser.RiskLevelMonotone | backend/epanet_parser.py:215-222 | a higher score never gives a lower band |
| EpanetParser.DownstreamStep | backend/epanet_parser.py:269-272 | following one more pipe from a node downstream of the source reaches a node downstream of it |
| EpanetParser.ClosedSetHoldsDownstream | backend/epanet_parser.py:258-272 | a set holding the source and closed under pipes holds everything downstream of the source |
| EpanetParser.OutflowMembers | backend/epanet_parser.py:269-272 | the scan of the pipes queues a node iff some pipe leads to it from the current node and it is unvisited |
| EpanetParser.ScanFindings | backend/epanet_parser.py:269-272 | the nodes one scan adds are downstream of the source and differ from it, and every pipe end from the current node is visited or queued |
| EpanetParser.SearchDone | backend/epanet_parser.py:260-274 | when the queue is empty the affected nodes are exactly those downstream of the source |
| EpanetParser.ScanPipes | backend/epanet_parser.py:269-272 | the inner loop appends the scan's nodes to the queue and adds them to the affected set |
| EpanetParser.AffectedNodes | backend/epanet_parser.py:252-274 | an unknown source gives nothing; otherwise a node is affected iff it differs from the source and is reachable from it along pipes followed from start to end |
| EpanetParser.ListOf | backend/epanet_parser.py:274 | the list holds every member of the set exactly once |
| EpanetParser.EpanetParser.constructor | backend/epanet_parser.py:33-37 | a readable file gives the tables parse_inp_file builds from empty ones; a missing file gives the demonstration network |
| EpanetParser.EpanetParser.ParseInpFile | backend/epanet_parser.py:39-54 | the tables become those the sections give in turn, or the demonstration network added when the file is missing |
| EpanetParser.EpanetParser.ParseContent | backend/epanet_parser.py:45-50 | the five sections applied in order, the first unreadable number stopping the rest |
| EpanetParser.EpanetParser.ParseNodeSection | backend/epanet_parser.py:69-118 | the section's node records assigned to the node table in order |
| EpanetParser.EpanetParser.ParsePipes | backend/epanet_parser.py:120-139 | the pipe records assigned to the pipe table in order |
| EpanetParser.EpanetParser.ParseCoordinates | backend/epanet_parser.py:141-157 | the known nodes moved, then normalised once every line was read |
| EpanetParser.EpanetParser.NormalizeCoordinates | backend/epanet_parser.py:159-180 | the node table replaced by its normalised form |
| EpanetParser.EpanetParser.GenerateMockData | backend/epanet_parser.py:182-204 | the demonstration nodes and pipes assigned to the tables |
| EpanetParser.EpanetParser.GetNetworkTopology | backend/epanet_parser.py:206-247 | one node view per node in table order, with the risk band of its score, and one pipe view per pipe in table order |
| EpanetParser.EpanetParser.GetAffectedNodes | backend/epanet_parser.py:249-274 | an unknown source gives the empty list; otherwise the list holds each node downstream of the source, other than the source, exactly once |
| Strings.StripFacts | backend/epanet_parser.py:66-67 | `strip()` keeps one contiguous slice of the line, drops only whitespace before and after it, and the slice neither starts nor ends with whitespace |
| Strings.TokensAreWords | backend/epanet_parser.py:74 | every field `split()` returns is non-empty and contains no whitespace |
| CoordinateTransform.ToGps | frontend/src/utils/coordinateTransform.js:22-34 | the display square to GPS: latitude follows y and longitude follows x, 1000 display units to ScaleFactor degrees about the centre (ToGpsCentre, ToGpsAxes); FromGps undoes it (FromGpsToGps) |
| CoordinateTransform.FromGps | frontend/src/utils/coordinateTransform.js:42-47 | GPS back to the display square, the inverse of ToGps in both orders (FromGpsToGps, ToGpsFromGps) |
| CoordinateTransform.ToGpsCentre | frontend/src/utils/coordinateTransform.js:22-34 | the middle (500, 500) of the display square maps to the city centre |
| CoordinateTransform.FromGpsToGps | frontend/src/utils/coordinateTransform.js:42-47 | going back from GPS after going to GPS gives the display point again |
| CoordinateTransform.ToGpsFromGps | frontend/src/utils/coordinateTransform.js:22-47 | going to GPS after coming back from GPS gives the position again |
| CoordinateTransform.ToGpsAxes | frontend/src/utils/coordinateTransform.js:24-31 | latitude depends on y alone and longitude on x alone; both grow strictly, by 0.02 degrees for every 1000 display units |
| CoordinateTransform.NetworkBounds | frontend/src/utils/coordinateTransform.js:54-73 | the box is never inverted: south ≤ north and west ≤ east |
| CoordinateTransform.NetworkBoundsEmpty | frontend/src/utils/coordinateTransform.js:55-60 | no node list, or an empty one, gives the fixed box 0.01 degrees around the centre |
| CoordinateTransform.NetworkBoundsTight | frontend/src/utils/coordinateTransform.js:62-72 | every node's GPS position lies in the box, and each side of the box is reached by some node |
| Nearest.FirstMinimum | frontend/src/components/LeakResultMap.jsx:29-44 | the scan keeping the smallest distance seen so far (strict `<`, starting from Infinity) returns the first candidate of least distance, or nothing when no element is a candidate |
| Nearest.FirstMinUnique | frontend/src/components/LeakResultMap.jsx:37-40 | the first minimum is unique, so the answer is fixed by the distances alone |
| LeakResultMap.Candidates | frontend/src/components/LeakResultMap.jsx:32-36 | each node with truthy coordinates has its distance to the target; the others are skipped |
| LeakResultMap.FindNearestNode | frontend/src/components/LeakResultMap.jsx:26-45 | null iff the nodes are absent or empty, a target coordinate is falsy, or no node has truthy coordinates; otherwise the first node of least distance, with that distance |
| LeakResultMap.NearestIsClosest | frontend/src/components/LeakResultMap.jsx:32-42 | the found node has coordinates, no node with coordinates is nearer, and every earlier one is strictly farther |
| LeakResultMap.CalculateNetworkBounds | frontend/src/components/LeakResultMap.jsx:48-66 | null iff the nodes are absent or empty; otherwise the tightest box around the nodes with truthy coordinates (infinite when there are none) |
| LeakResultMap.SpansOrdered | frontend/src/components/LeakResultMap.jsx:55-63 | a box some node contributes to has its minima below its maxima |
| LeakResultMap.ScaleFactor | frontend/src/components/LeakResultMap.jsx:104 | the zone grows with the leak size from 1x to at most 3x, reached from 60 L/s on (BaseRadiiShape, BaseRadiiMonotone) |
| LeakResultMap.BaseRadiiShape | frontend/src/components/LeakResultMap.jsx:103-106 | for a non-negative size the scale is between 1 and 3, exactly 3 from 60 LPS on, the vertical radius between 80 and 240 m and the horizontal one 1.5 times it |
| LeakResultMap.BaseRadiiMonotone | frontend/src/components/LeakResultMap.jsx:104-106 | a larger leak never gives a smaller zone before the clamp |
| LeakResultMap.Room | frontend/src/components/LeakResultMap.jsx:110-123 | none without a box; otherwise the metres from the centre to the nearer latitude side and to the nearer longitude side (a degree of longitude being 111320·cos(lat) metres), less the 20 m padding |
| LeakResultMap.ZoneRadii | frontend/src/components/LeakResultMap.jsx:103-134 | the zone's radii: at least 30 m and 20 m; the base size when there is no box or not positive room on both axes; otherwise within the room unless the floor raises them |
| LeakResultMap.BeyondPoleUnclamped | frontend/src/components/LeakResultMap.jsx:113-129 | a centre with cos(lat) < 0 inside the box's longitudes gets negative longitude room, so the clamp is skipped and the zone keeps its base size |
| LeakResultMap.ClampShrinks | frontend/src/components/LeakResultMap.jsx:121-129 | the clamp never enlarges a radius, applies only when both rooms are positive, and then keeps each radius within its room |
| LeakResultMap.ZoneUnclamped | frontend/src/components/LeakResultMap.jsx:108-134 | without a network box, or with one no node was located in, the zone keeps its base size raised to the floors |
| LeakResultMap.ZoneRadiiBounds | frontend/src/components/LeakResultMap.jsx:103-134 | the floors of 30 m and 20 m hold, and the zone is never wider than its unclamped size |
| LeakResultMap.ZoneOpacity | frontend/src/components/LeakResultMap.jsx:137 | the opacity never exceeds 0.3 and, for a non-negative size, is at least 0.15 |
| LeakResultMap.LayersShrink | frontend/src/components/LeakResultMap.jsx:143-163 | layers further in are strictly smaller and fainter but still visible, the radius factor is 1 − 0.14·i, only the outer layer is stroked, and every layer has 37 points |
| LeakResultMap.Vertex | frontend/src/components/LeakResultMap.jsx:153-156 | vertex j lies ry·sin metres north and rx·cos metres east of the centre |
| LeakResultMap.LayerPoints | frontend/src/components/LeakResultMap.jsx:150-157 | 37 vertices, one per angle step, the last equal to the first when the angles coincide |
| LeakResultMap.LayerAt | frontend/src/components/LeakResultMap.jsx:143-167 | layer i has radii scaled by 1 − 0.14·i, opacity scaled by 1 − i/5, a red weight-2 stroke iff it is the outer layer, and the ellipse points of its radii |
| LeakResultMap.EllipsePoints | frontend/src/components/LeakResultMap.jsx:150-157 | the inner loop collects exactly the vertices of angle steps 0 to 36, in that order |
| LeakResultMap.ZoneLayers | frontend/src/components/LeakResultMap.jsx:141-170 | the two nested loops build exactly the five layers, layer i as specified |
| LeakResultMap.EnhancedAffectedPipes | frontend/src/components/LeakResultMap.jsx:230-241 | a pipe id is in the widened set iff it was given or, with a nearest node, some pipe with that id touches the node |
| LeakResultMap.PipeLines | frontend/src/components/LeakResultMap.jsx:243-259 | exactly the pipes whose two end ids are in the lookup are drawn, in their order, each marked affected iff its id is in the widened set |
| LeakResultMap.PipeLinesOfNodes | frontend/src/components/LeakResultMap.jsx:221-259 | with the lookup built from the nodes, a pipe is drawn iff both its end ids name some node |
| LeakResultMap.PipeStyle | frontend/src/components/LeakResultMap.jsx:277-287 | a polyline is red, weight 4 and opaque iff it is marked affected, and blue, weight 2, half opaque otherwise |
| LeakResultMap.DrawnPipeStyle | frontend/src/components/LeakResultMap.jsx:230-287 | with the widened set, a drawn pipe is red iff its id was given or some pipe with its id touches the nearest node; every drawn pipe touching the nearest node is red |
| LeakResultMap.LeakCentre | frontend/src/components/LeakResultMap.jsx:210-218 | the zone centre is the nearest node's position where it is truthy and the predicted position otherwise; a found nearest node always moves it there (LeakCentreSnaps) |
| LeakResultMap.LeakCentreSnaps | frontend/src/components/LeakResultMap.jsx:210-218 | a found nearest node always has truthy coordinates, so the centre snaps to it; with none the predicted position is used |
| MapData.NodeMap | frontend/src/components/LeakResultMap.jsx:221-224 | the id lookup built by the forEach: an id is present iff some node has it, and maps to the last such node (NodeMapLookup) |
| MapData.NodeMapLookup | frontend/src/components/LeakResultMap.jsx:221-224 | the lookup has one entry per id, holding the last node with that id |
| MapData.BuildNodeMap | frontend/src/components/LeakResultMap.jsx:221-224 | the forEach loop builds that lookup |
| LeakResultMap.NodeMarker | frontend/src/components/LeakResultMap.jsx:300-315 | a node's marker has radius 10 when monitored, else 8 when nearest to the leak, else 4; the monitored style takes precedence (MarkerPrecedence) |
| LeakResultMap.MarkerPrecedence | frontend/src/components/LeakResultMap.jsx:300-315 | the monitored node's marker is the largest and keeps its own style even when it is also the nearest node; the nearest node's marker outranks a plain one; radii are 10, 8 or 4 |
| LeakDetection.IntensityPercent | frontend/src/pages/LeakDetection.jsx:17-20 | the bar never exceeds 100 %, and a falsy size gives 0 |
| LeakDetection.IntensityPercentRange | frontend/src/pages/LeakDetection.jsx:17-20 | for a non-negative size the bar is between 0 and 100 %, and up to 50 LPS it is exactly twice the size |
| LeakDetection.IntensityLabel | frontend/src/pages/LeakDetection.jsx:23-28 | the severity label of a leak size, Low for an undefined size; larger sizes never get a milder label, and each threshold belongs to the milder label (IntensityLabelMonotone) |
| LeakDetection.IntensityLabelMonotone | frontend/src/pages/LeakDetection.jsx:23-28 | a larger size never gets a milder label, and each threshold itself belongs to the band below it |
| LeakDetection.PressureChartData | frontend/src/pages/LeakDetection.jsx:31-40 | no history gives no points; otherwise the points are a permutation of the entries with time in hours, sorted by time, and entries of equal time keep their order (Sorting.SortByStable) |
| LeakDetection.EqualTimesKeepOrder | frontend/src/pages/LeakDetection.jsx:31-40 | two readings at the same time are charted in the order they were recorded |
| Sorting.SortByStable | frontend/src/pages/LeakDetection.jsx:39 | the sort is stable: the elements the comparison ranks equal to any k appear in the result in their input order |
| Sorting.InsertByStable | frontend/src/pages/LeakDetection.jsx:39 | inserting puts the new element in front of every element ranked equal to it and keeps the others' order |
| LeakDetection.PressureChartLength | frontend/src/pages/LeakDetection.jsx:34-39 | one chart point per history entry |
| LeakDetection.SortedDemand | frontend/src/pages/LeakDetection.jsx:46-51 | the entries as { time, demand }, one per history entry, sorted by time, a permutation of the input, and entries of equal time in their input order |
| LeakDetection.StartIndex | frontend/src/pages/LeakDetection.jsx:56-67 | the loop with `break` stops one entry before the first demand that differs from the first by more than 0.001, and stays at 0 when none does |
| LeakDetection.BaseDemand | frontend/src/pages/LeakDetection.jsx:76-77 | the first demand above the threshold in size when there is one, and otherwise the first demand |
| LeakDetection.DemandComparisonData | frontend/src/pages/LeakDetection.jsx:43-87 | no entries give no points; otherwise one point per entry from the start index on, in hours since the first of them, with the base demand and each demand as absolute values |
| LeakDetection.DemandPointsShape | frontend/src/pages/LeakDetection.jsx:81-86 | the chart starts at hour 0, its base line is constant, and both series are non-negative |
| LeakDetection.Distances | frontend/src/pages/LeakDetection.jsx:96-104 | a node with truthy coordinates is at √(dLat² + dLng²)·111320 m; the others are skipped |
| LeakDetection.Round | frontend/src/pages/LeakDetection.jsx:106 | `Math.round`: the nearest integer, halves rounded up; it is the distance stored with the nearest node (NearestNode) |
| LeakDetection.NearestNode | frontend/src/pages/LeakDetection.jsx:90-112 | null when a predicted coordinate is falsy or the nodes are absent; otherwise null iff no node has coordinates, else the first node of least distance, its distance rounded |
| LeakDetection.SqrtOrder | frontend/src/pages/LeakDetection.jsx:103 | for any strictly increasing square root, the scaled distances compare as the squared offsets do |
| LeakDetection.NearestBySquares | frontend/src/pages/LeakDetection.jsx:96-108 | the chosen node is the first of least squared offset, whatever the square root, so long as it increases strictly |
| ResultsPage.TransformedNodes | frontend/src/pages/ResultsPage.jsx:69-72 | one GPS node per node, in order, each at the transform of its display coordinates |
| ResultsPage.FindGps | frontend/src/pages/ResultsPage.jsx:76-77 | `find` gives the first node with the id, or nothing when no node has it |
| ResultsPage.TransformedPipes | frontend/src/pages/ResultsPage.jsx:75-86 | exactly the pipes whose two end ids are found survive, in order, each positioned at the found nodes |
| ResultsPage.LeakLocations | frontend/src/pages/ResultsPage.jsx:89-104 | one leak location per entry of leak_x, its id the index, paired with leak_y and leak_size_lps at that index (undefined past their ends) |
| ResultsPage.LeakLocationsParallel | frontend/src/pages/ResultsPage.jsx:89-104 | with arrays of equal length, leak i is at the GPS transform of (x_i, y_i) with radius 20 + 10·size_i metres |
| ResultsPage.AffectedNodes | frontend/src/pages/ResultsPage.jsx:108-114 | a subsequence of the nodes holding exactly those within the leak's radius |
| ResultsPage.AffectedPipes | frontend/src/pages/ResultsPage.jsx:116-132 | a subsequence of the pipes holding exactly those with an end within the leak's radius |
| ResultsPage.TouchingAffectedNode | frontend/src/pages/ResultsPage.jsx:116-132 | a drawn pipe whose looked-up end node is affected is itself affected |
| ResultsPage.MaxSize | frontend/src/pages/ResultsPage.jsx:161 | no sizes give -Infinity (None); otherwise the maximum is one of the sizes and no size exceeds it |
| ResultsPage.LeakColor | frontend/src/pages/ResultsPage.jsx:154-159 | the colour of a leak by its share of the largest: red above 0.7, orange above 0.4, yellow otherwise; the largest is red and colours never fall as size grows (LargestLeakIsRed, LeakColorMonotone) |
| ResultsPage.LargestLeakIsRed | frontend/src/pages/ResultsPage.jsx:154-161 | the largest leak is red whenever it is positive |
| ResultsPage.LeakColorMonotone | frontend/src/pages/ResultsPage.jsx:154-159 | against a positive maximum, a larger leak never gets a milder colour |
| ResultsPage.PipeStyleOf | frontend/src/pages/ResultsPage.jsx:206-222 | a pipe is drawn amber, weight 4, opacity 0.9 iff some leak's affected pipes include one with its id, and slate, weight 2, opacity 0.4 otherwise |
| ResultsPage.PipeWithinIsHighlighted | frontend/src/pages/ResultsPage.jsx:116-132 | a drawn pipe with an end node within the radius of some leak is drawn heavy |
| ResultsPage.NodeRadius | frontend/src/pages/ResultsPage.jsx:226-236 | a node is drawn with radius 6 iff some leak's affected nodes include one with its id, and 4 otherwise |
| ResultsPage.NodeWithinIsHighlighted | frontend/src/pages/ResultsPage.jsx:107-114 | a node within the radius of some leak is drawn large |
| JsValues.Numbers | frontend/src/pages/ResultsPageFixed.jsx:73 | keeps at most the items, and a value is among the result iff it is one of the items' numbers |
| JsValues.Member | frontend/src/pages/ResultsPageFixed.jsx:72 | `v[key]`: an object's own field iff it has the key; an array's element or a string's character at an index key below the length, and the length under `length`; nothing on a number, boolean or null |
| JsValues.OwnKeysOrder | frontend/src/pages/ResultsPageFixed.jsx:68 | `Object.keys` of an object (section 10.1.11.1 of ECMA-262) is a permutation of its fields: the array-index keys first in ascending numeric order, then the other keys in insertion order |
| JsValues.IndexKeyBeforeName | frontend/src/pages/ResultsPageFixed.jsx:68 | a numeric key inserted after a named one is still listed first |
| JsValues.IndexKeysAscend | frontend/src/pages/ResultsPageFixed.jsx:68 | numeric keys are listed by value, not by insertion: "1" before "21" |
| JsValues.ListKeys | frontend/src/pages/ResultsPageFixed.jsx:68 | the keys of an array or a string are "0", "1", … up to its length, in order |
| JsValues.FirstValueOfFirstKey | frontend/src/pages/ResultsPageFixed.jsx:81 | `Object.values(v)[0]` is the member under the first key of `Object.keys(v)` |
| JsValues.FirstValueIndexFirst | frontend/src/pages/ResultsPageFixed.jsx:81 | the first value of `{b: 2, 1: 3}` is 3: the index key comes first |
| ResultsPageFixed.PredictedPosition | frontend/src/pages/ResultsPageFixed.jsx:40-48 | with two arrays and a non-empty leak_x, the position is the transform of (leak_x[0], leak_y[0]), NaN when leak_y is empty; otherwise it is the first node with the predicted id; there is no position iff there are no predictions, or no arrays and no (matching) node id |
| ResultsPageFixed.Distances | frontend/src/pages/ResultsPageFixed.jsx:52-54 | one haversine distance per node from the predicted position; a NaN position compares below nothing |
| ResultsPageFixed.NearestToPrediction | frontend/src/pages/ResultsPageFixed.jsx:50-56 | no nearest node iff there is no real position or no node; otherwise the first node at the least distance |
| ResultsPageFixed.NearestIsClosest | frontend/src/pages/ResultsPageFixed.jsx:50-56 | the nearest node is no farther from the prediction than any other node |
| ResultsPageFixed.FirstContaining | frontend/src/pages/ResultsPageFixed.jsx:70 | `keys.find(k => k.includes(id))`: the first key containing the id, or none when no key does |
| ResultsPageFixed.Column | frontend/src/pages/ResultsPageFixed.jsx:68-70 | the plotted column is a key; it is the first non-empty key containing the nearest node's id when there is one, and the first key otherwise |
| ResultsPageFixed.PressureOf | frontend/src/pages/ResultsPageFixed.jsx:72-75 | a number is plotted as itself; an array is plotted iff it holds a number, and then as the mean of its numbers; anything else is null |
| ResultsPageFixed.ArrayPressureBetween | frontend/src/pages/ResultsPageFixed.jsx:73 | an array cell's plotted pressure lies between its least and greatest numbers |
| ResultsPageFixed.PressureRows | frontend/src/pages/ResultsPageFixed.jsx:67-72 | the rows of `ph.length`/`ph[i]`: an array's items, a string's one-character strings, and none for anything else |
| ResultsPageFixed.ColumnSeries | frontend/src/pages/ResultsPageFixed.jsx:71-76 | reading `ph[i][col]` fails with a TypeError iff some row is null; otherwise one point per row, time its index, pressure PressureOf of that row's member under the column |
| ResultsPageFixed.ReadColumn | frontend/src/pages/ResultsPageFixed.jsx:71-76 | the loop over the rows computes ColumnSeries: it stops with the TypeError at the first null row and otherwise collects every row's point |
| ResultsPageFixed.PressureSeries | frontend/src/pages/ResultsPageFixed.jsx:63-78 | no simulation data, or a history with no rows, gives no points; otherwise the column is chosen among the first row's keys in `Object.keys` order and the series is ColumnSeries of the rows (a string history has one row per character) |
| ResultsPageFixed.DemandOf | frontend/src/pages/ResultsPageFixed.jsx:81 | a number is kept; any other demand is its first value in `Object.keys` order when that is truthy, and null otherwise |
| ResultsPageFixed.DemandSeries | frontend/src/pages/ResultsPageFixed.jsx:80-82 | demand_history, else leak_demand_time: one point per entry with time the index when it is an array, none otherwise |
| ResultsPageFixed.NumericDemandKept | frontend/src/pages/ResultsPageFixed.jsx:80-81 | a numeric demand entry is drawn unchanged at its index, zero included |
| ResultsPageFixed.SizeAt | frontend/src/pages/ResultsPageFixed.jsx:92-94 | a leak size is never 0: a non-zero given size is kept, anything else becomes 0.1 |
| ResultsPageFixed.NodeLeak | frontend/src/pages/ResultsPageFixed.jsx:92 | a node_id marker exists iff the id is non-empty and some node has it; it carries that id, radius 30 and the first size |
| ResultsPageFixed.IndexedCount | frontend/src/pages/ResultsPageFixed.jsx:93-94 | the loop runs to the shorter of leak_x and leak_y, and not at all when either is not an array |
| ResultsPageFixed.LeakLocations | frontend/src/pages/ResultsPageFixed.jsx:90-96 | the node_id marker, when there is one, comes first, then one indexed marker per loop step, in order |
| ResultsPageFixed.IndexedLeaksDistinct | frontend/src/pages/ResultsPageFixed.jsx:94 | indexed markers have distinct ids `L<i>` |
| ResultsPageFixed.IndexedRadiusGrows | frontend/src/pages/ResultsPageFixed.jsx:94 | an indexed marker's radius is 20 + 10·size, so larger leaks are drawn larger |
| ResultsPageFixed.LeakSizesPositive | frontend/src/pages/ResultsPageFixed.jsx:94 | with non-negative sizes every indexed marker has a positive size and a radius above 20 |
| ResultsPageFixed.Divisor | frontend/src/pages/ResultsPageFixed.jsx:98 | the colour scale's maximum is at least 0.1, no marker's size exceeds it, and it is 0.1 or one of the sizes |
| ResultsPageFixed.LeakColor | frontend/src/pages/ResultsPageFixed.jsx:98 | the results page's thresholds applied to size over Divisor; the largest marker is red and colours never fall as size grows (LargestLeakIsRed, LeakColorMonotone) |
| ResultsPageFixed.LargestLeakIsRed | frontend/src/pages/ResultsPageFixed.jsx:98 | the marker with the maximum size is red |
| ResultsPageFixed.LeakColorMonotone | frontend/src/pages/ResultsPageFixed.jsx:98 | a larger size never gets a milder colour |
| NetworkMap.NodeColor | frontend/src/components/NetworkMap.jsx:30-37 | a node's colour, black for a sensor whatever its kind; two nodes share a colour iff they share a label (StyleMatchesLabel) |
| NetworkMap.NodeRadius | frontend/src/components/NetworkMap.jsx:40-47 | a node's radius, 8 for a sensor; two nodes share a radius iff they share a label (StyleMatchesLabel) |
| NetworkMap.TypeLabel | frontend/src/components/NetworkMap.jsx:125-131 | the popup's kind, Sensor Node for a sensor, else Reservoir, Tank or Junction |
| NetworkMap.StyleMatchesLabel | frontend/src/components/NetworkMap.jsx:29-47 | two nodes get the same colour iff the same radius iff the same type label (sensor, reservoir, tank, junction), so the styling tells the four kinds apart |
| NetworkMap.NodeStyle | frontend/src/components/NetworkMap.jsx:136-144 | sensors are drawn more opaque (0.8 against 0.5) and with a heavier outline (2 against 1), selected or not |
| NetworkMap.SelectedStandsOut | frontend/src/components/NetworkMap.jsx:119-144 | the selected node is three units larger and red, a colour no node has as its base colour; any other node keeps its type's radius and colour |
| NetworkMap.Click | frontend/src/components/NetworkMap.jsx:120-122 | a click reaches the handler iff there is one and the node is a sensor or a junction, and then it passes that node |
| NetworkMap.PlainReservoirsAndTanksInert | frontend/src/components/NetworkMap.jsx:120-122 | a reservoir or tank that is not a sensor neither forwards clicks nor opens a popup |
| NetworkMap.PopupOnlyWhereClickable | frontend/src/components/NetworkMap.jsx:145-153 | a popup is shown only on a node whose click a handler would receive |
| NetworkMap.Line | frontend/src/components/NetworkMap.jsx:74-84 | a drawn pipe keeps the pipe's id and fields and has two positions |
| NetworkMap.PipeLines | frontend/src/components/NetworkMap.jsx:71-86 | exactly the pipes whose two end ids are in the node lookup are drawn, in order |
| NetworkMap.PipeLinesOfNodes | frontend/src/components/NetworkMap.jsx:65-84 | a drawn pipe's ends are at the last node listed with each end id |
| NetworkMap.PipeDrawnIffEndsExist | frontend/src/components/NetworkMap.jsx:65-86 | a pipe is drawn iff both its end ids belong to some node |
| NetworkMap.RenderPipes | frontend/src/components/NetworkMap.jsx:64-86 | the lookup is built node by node and the pipes rendered against it give exactly the specified pipe lines |
| LeakPredictions.RiskClass | frontend/src/components/LeakPredictions.jsx:29-36 | the lower-cased level picks risk-high, risk-medium or risk-low; any other level is risk-none, each in both directions |
| LeakPredictions.RiskClassIgnoresCase | frontend/src/components/LeakPredictions.jsx:30 | the badge class does not depend on the level's case |
| LeakPredictions.Take | frontend/src/components/LeakPredictions.jsx:40 | `slice(0, n)` is a prefix of the sequence: of length n when the sequence has at least n elements, the whole sequence when it has at most n |
| LeakPredictions.Filtered | frontend/src/components/LeakPredictions.jsx:38-40 | always a subsequence; with a node selected, exactly its predictions in order; without one, at most five predictions, none of level 'none', and all of the at-risk ones when there are at most five |
| LeakPredictions.SelectedListsAllForNode | frontend/src/components/LeakPredictions.jsx:39 | with a node selected, a prediction is listed iff it is for that node, whatever its risk |
| LeakPredictions.UnselectedListsFirstFive | frontend/src/components/LeakPredictions.jsx:40 | without a selection, the first five at-risk predictions when there are at least five, and every at-risk prediction in order when there are at most five |
| LeakPredictions.CapitalisedNoneListed | frontend/src/components/LeakPredictions.jsx:29-40 | a level 'None' passes the case-sensitive filter yet gets the risk-none badge |
| Simulation.FlowToLpsFactor | backend/generate_data.py:69-85 | the litres-per-second factor of a flow unit is always positive |
| Simulation.FlowFactorIgnoresCase | backend/generate_data.py:73 | the unit's case does not change its factor |
| Simulation.UnitFactor | backend/generate_data.py:74-83 | the litres-per-second factor of an upper-case flow unit, positive; 1 for LPS and for an unknown unit (FlowFactorTable, UnknownUnitIsLps) |
| Simulation.FlowFactorTable | backend/generate_data.py:74-83 | the table's constants agree with each other: CMH is 24 CMD, MLD is 1000 CMD, MGD is a million GPM over 1440, AFD is 43560 CFS over a day |
| Simulation.UnknownUnitIsLps | backend/generate_data.py:69-85 | no unit, or a unit outside the table, is taken as litres per second |
| Simulation.StepCommands | backend/generate_data.py:159-166 | the emitter calls at one step: on when the start is first reached, then off when the end is first reached |
| Simulation.Commands | backend/generate_data.py:151-166 | the emitter calls over the steps so far; each switch happens once, at the first step reaching its time (CommandsExactly, SwitchesOnce, EmitterOnIff) |
| Simulation.CommandsExactly | backend/generate_data.py:151-166 | the emitter calls made are exactly a switch-on at the first step whose time reaches the leak start and a switch-off at the first step whose time reaches the leak end |
| Simulation.SwitchesOnce | backend/generate_data.py:159-166 | each switch happens at most once, and with start <= end the switch-on never comes after the switch-off |
| Simulation.EmitterOnIff | backend/generate_data.py:159-166 | with start <= end the emitter is on after a step iff some time so far has reached the start and none the end |
| Simulation.Clip | backend/generate_data.py:211-216 | a clipped reading is never negative and a non-negative one is kept |
| Simulation.LeakPressures | backend/generate_data.py:211-225 | one non-negative pressure per leak-node reading inside [leak start, leak end) |
| Simulation.Flows | backend/generate_data.py:227-228 | the leak flow at each pressure is coefficient · pressure^exponent · unit factor |
| Simulation.LeakSize | backend/generate_data.py:225-232 | with readings in the leak window, the size is the mean flow and the head the mean pressure over them; without any, both are 0 |
| Simulation.LeakSizeNonNegative | backend/generate_data.py:211-232 | with a non-negative coefficient the estimated size and head are never negative |
| Simulation.LinearLeakSize | backend/generate_data.py:44 | with exponent 1 the leak size is coefficient · unit factor · mean pressure head |
| GenerateData.ObsNodesDistinct | backend/generate_data.py:21-29 | the 21 observation node ids are distinct |
| GenerateData.ResolutionLabel | backend/generate_data.py:57-58 | the column label of a sample interval, from the table or `Min<m>`; distinct intervals get distinct labels (ResolutionLabelInjective, GeneratedLabel) |
| GenerateData.ResolutionLabelInjective | backend/generate_data.py:14-19 | different sampling intervals get different column labels |
| GenerateData.GeneratedLabel | backend/generate_data.py:57-58 | a label begins with "Min" exactly for the intervals outside the table |
| GenerateData.FloorDiv | backend/generate_data.py:46 | Python's `//`, rounding toward minus infinity for either sign of the divisor |
| GenerateData.NewGenerator | backend/generate_data.py:32-46 | a zero step fails with a division by zero; otherwise STEP_S is 60·step_m, the exponent 1.0 and total_steps the floor of the duration over STEP_S |
| GenerateData.TotalStepsFit | backend/generate_data.py:46 | total_steps whole steps fit in the duration and one more does not |
| GenerateData.LabelOfStep | backend/generate_data.py:259 | STEP_S // 60 gives back the step in minutes, so the label names the step the generator was built with |
| GenerateData.TimeWindows | backend/generate_data.py:109-117 | the collection window lasts TOTAL_HOURS from its start hour; the leak starts leak_start_min minutes into it and lasts leak_duration_hours |
| GenerateData.LeakInsideCollection | backend/generate_data.py:109-117 | a leak that fits in the collection period lies inside the collection window |
| GenerateData.Times | backend/generate_data.py:157 | the step times in order |
| GenerateData.FinitePrefix | backend/generate_data.py:171-180 | a step's row is the longest run of finite pressures at the front, cut where the node loop breaks |
| GenerateData.ReadRow | backend/generate_data.py:171-180 | the node loop reads exactly that prefix |
| GenerateData.FinitePrefixOf | backend/generate_data.py:171-180 | any run of finite values ending at a non-finite one or the end is that prefix |
| GenerateData.RecordedInWindow | backend/generate_data.py:169-183 | the rows recorded are those of exactly the steps in the collection window, in order |
| GenerateData.LeakReadings | backend/generate_data.py:185-190 | one leak-node reading per step, at the step's time |
| GenerateData.LeakReadingsSnoc | backend/generate_data.py:186-190 | each step appends its reading at the end |
| GenerateData.RunSteps | backend/generate_data.py:151-195 | the loop emits exactly the specified emitter calls, records exactly the window's rows numbered 0, 1, ... by step_index, and collects every leak reading |
| GenerateData.ColumnKey | backend/generate_data.py:265 | the pressure column `<node>_<label><k>`; different nodes or steps give different columns (ColumnKeyInjective) |
| GenerateData.ColumnKeyInjective | backend/generate_data.py:265 | two pressure column names are equal iff node and step are |
| GenerateData.CellAt | backend/generate_data.py:263-267 | a cell holds node j's pressure at step k iff step k recorded node j, and "" otherwise |
| GenerateData.NodeColumns | backend/generate_data.py:262-267 | one column per step for a node, in step order |
| GenerateData.AddColumns | backend/generate_data.py:261-267 | the nested loop assigns the columns node by node, step by step |
| GenerateData.ColumnAssigned | backend/generate_data.py:261-267 | every node and step in range gets its column |
| GenerateData.ColumnOrigin | backend/generate_data.py:261-267 | every column assigned is some node's column at some step, holding that node's cell for that step |
| GenerateData.LastColumnOrigin | backend/generate_data.py:261-267 | the value a column finally holds is the cell of a node and step whose column it is |
| GenerateData.ColumnsOfRowByName | backend/generate_data.py:261-267 | when nodes with the same name have the same cells, each node's column holds its own cell even if the node is listed twice |
| GenerateData.FieldSurvivesColumns | backend/generate_data.py:235-267 | a field whose name does not end in a digit is untouched by the pressure columns |
| GenerateData.AllColumnsDistinct | backend/generate_data.py:261-267 | with distinct nodes, no two assigned columns share a name |
| GenerateData.ColumnsOfRow | backend/generate_data.py:261-267 | the row has node j's column at step k, holding that node's cell when the nodes are distinct |
| GenerateData.Clipped | backend/generate_data.py:211-223 | the time-indexed series keeps every reading's time and clips its value at 0 |
| GenerateData.NatOf | backend/generate_data.py:262 | `range(n)` has n steps, none for n < 0 |
| GenerateData.Generate | backend/generate_data.py:102-271 | the run is the specified stepping loop; a node without coordinates fails on the unbound leak_x; otherwise the row is the scenario fields (leak 1, the estimate at exponent 1 in litres per second, the inputs, both series) followed by the pressure columns |
| GenerateData.ScenarioFields | backend/generate_data.py:242-255 | the leak and collection fields that precede the pressure columns, leak 1 with the leak node, its position and estimate (PressureColumns, ColumnsOfRow) |
| GenerateData.PressureColumns | backend/generate_data.py:261-267 | in the row, observation node j's column at step k holds its pressure at that step or "" |
| LegacyGenerateData.SortedNames | backend/legacy_generate_data.py:28 | `list.sort()` yields the names in order, each as often as before |
| LegacyGenerateData.LeakNodes | backend/legacy_generate_data.py:16-29 | the loop keeps exactly the non-excluded junctions in order, then sorts them |
| LegacyGenerateData.LeakNodesAre | backend/legacy_generate_data.py:16-29 | the leak candidates are sorted, and a name is one iff it is a junction outside the exclusion list |
| LegacyGenerateData.AppendNames | backend/legacy_generate_data.py:35-43 | appending name by name gives the names followed by the new ones |
| LegacyGenerateData.AllNodes | backend/legacy_generate_data.py:31-46 | junctions, then tanks, then reservoirs, sorted together |
| LegacyGenerateData.AllNodesAre | backend/legacy_generate_data.py:31-46 | the list is sorted, as long as the three lists together, and holds a name iff one of them does |
| LegacyGenerateData.TimedRows | backend/legacy_generate_data.py:200-215 | one row per step at the step's time, holding the finite prefix of its pressures |
| LegacyGenerateData.TimedRowsSnoc | backend/legacy_generate_data.py:214-215 | each step appends its row at the end |
| LegacyGenerateData.Written | backend/legacy_generate_data.py:203-215 | a step's dict holds a value for a name iff the loop read that name before stopping, and the value is the last reading written under it |
| LegacyGenerateData.WrittenDistinct | backend/legacy_generate_data.py:203-215 | with distinct observation nodes, the value under node j is the j-th reading, present iff the loop got that far |
| LegacyGenerateData.Hourly | backend/legacy_generate_data.py:79-84 | the hour's mean of the values held under a node's name, NaN exactly when no step of that hour wrote the name (HourlyNone) |
| LegacyGenerateData.HourlyNone | backend/legacy_generate_data.py:79-84 | an hour is NaN for a node exactly when no step of that hour (t // 3600) has a value under the node's name |
| LegacyGenerateData.HourlyWithin | backend/legacy_generate_data.py:79-84 | an hour's mean lies within any bounds that all of that hour's readings lie in |
| LegacyGenerateData.HourlyOfOtherStep | backend/legacy_generate_data.py:82-83 | a step of another hour, or one that wrote nothing under the node's name, does not change the hour's mean |
| LegacyGenerateData.RepeatedNodeAveragedByName | backend/legacy_generate_data.py:203-233 | with observation nodes A, B, A, a first step stopping at B and a second reading 2.0, 3.0, 2.0, the hour's cell for A is 1.5: the dict keeps one value per name |
| LegacyGenerateData.HourCell | backend/legacy_generate_data.py:282-283 | the cell of column `nid` at hour h is that name's mean pressure, or "" for NaN |
| LegacyGenerateData.FirstMissing | backend/legacy_generate_data.py:280-283 | the first observation node under whose name no step wrote a value (so `hourly_press.loc[h, nid]` has no such column), or none when every node has a column |
| LegacyGenerateData.MissingIffUnknown | backend/legacy_generate_data.py:121-122 | there are no missing observation nodes iff every one is in the network |
| LegacyGenerateData.Validate | backend/legacy_generate_data.py:119-137 | the validations in their order: missing observation nodes (listed), then an unknown leak node, then no emitter coefficient, then no leak timing; none fails iff all pass |
| LegacyGenerateData.Trunc | backend/legacy_generate_data.py:143-144 | `int(x)` rounds toward zero for either sign |
| LegacyGenerateData.TruncWhole | backend/legacy_generate_data.py:143 | a whole number is its own `int()` |
| LegacyGenerateData.LeakWindow | backend/legacy_generate_data.py:143-144 | the leak's start and end in whole seconds; a whole-second duration is its length and a whole start hour starts it on the hour (LeakWindowLength) |
| LegacyGenerateData.LeakWindowLength | backend/legacy_generate_data.py:143-144 | a leak of whole seconds lasts exactly that long, and a whole start hour starts it on the hour |
| LegacyGenerateData.ToggleClock | backend/legacy_generate_data.py:187-200 | the toggle at step i reads 0 at the first step and the previous step's time after that |
| LegacyGenerateData.ToggleLagsOneStep | backend/legacy_generate_data.py:187-200 | the emitter goes on at step 0 when the leak starts at or before 0, and otherwise one step after the first time reaching the start |
| LegacyGenerateData.Toggle | backend/legacy_generate_data.py:192-198 | one toggle advances the started and ended flags and the calls made by exactly one step |
| LegacyGenerateData.RunLegacySteps | backend/legacy_generate_data.py:187-225 | with a leak, the calls are the switches on the lagging clock and every leak pressure is collected; without one, neither; every step's row is recorded |
| LegacyGenerateData.LeakFields | backend/legacy_generate_data.py:261-278 | the nine leak columns of a row, leak 0 and blanks for the baseline; the leak flag is 1 iff there is a leak (LeakFieldsLeak) |
| LegacyGenerateData.LeakFieldsLeak | backend/legacy_generate_data.py:261-278 | the leak field is 1 for a leak and 0 for the baseline |
| LegacyGenerateData.ScenarioEstimate | backend/legacy_generate_data.py:236-258 | the baseline gets no estimate; a leak's is the emitter law over its window with the given or the network's exponent |
| LegacyGenerateData.HourRowFields | backend/legacy_generate_data.py:260-285 | the row has the leak field, and column `<nid>_Hour<h>` of each observation node holds the cell read by that node's name, repeated nodes included |
| LegacyGenerateData.HourRowLeak | backend/legacy_generate_data.py:261-278 | the leak field of the row is 1 for a leak and 0 for the baseline |
| LegacyGenerateData.HourCellsByName | backend/legacy_generate_data.py:280-283 | two observation positions with the same node name get the same hourly cells |
| LegacyGenerateData.ScenarioRow | backend/legacy_generate_data.py:94-285 | one scenario's row or its error: a failed validation, a KeyError for a node under whose name no step wrote, or the leak fields and the hourly columns read by node name (ScenarioRowCases, HourRowFields) |
| LegacyGenerateData.ScenarioRowCases | backend/legacy_generate_data.py:94-285 | a failed validation is the scenario's error; otherwise a node whose column no step read fails with a KeyError when there is an hour to read, and else the row is the leak fields and the hourly columns, a well-formed table |
| LegacyGenerateData.ScenarioRowLeak | backend/legacy_generate_data.py:261-278 | the row of a scenario that runs has leak 1 when it has a leak and 0 for the baseline |
| LegacyGenerateData.RunOneScenario | backend/legacy_generate_data.py:94-285 | the validations, the loop, the estimate and the row yield exactly the specified scenario result |
| LegacyGenerateData.ScenarioAt | backend/legacy_generate_data.py:303-326 | scenario k has id k + 1 and is the baseline iff k is 0 |
| LegacyGenerateData.Scenarios | backend/legacy_generate_data.py:305-338 | the baseline and one scenario per leak node and coefficient, 1 + nodes·choices in all |
| LegacyGenerateData.ScenarioOf | backend/legacy_generate_data.py:322-338 | node i with coefficient e is scenario 2 + i·choices + e and uses that draw's start hour |
| LegacyGenerateData.StartHoursInRange | backend/legacy_generate_data.py:326 | every leak scenario starts in [lo, hi] when the draws do |
| LegacyGenerateData.Identified | backend/legacy_generate_data.py:317-348 | the row with its scenario_id set and listed first, every other field kept (IdentifiedFields) |
| LegacyGenerateData.IdentifiedFields | backend/legacy_generate_data.py:317-348 | a row with scenario_id set to the id and first among its columns, every other field unchanged |
| LegacyGenerateData.Dataset | backend/legacy_generate_data.py:302-348 | a successful build has one row per scenario |
| LegacyGenerateData.DatasetSnoc | backend/legacy_generate_data.py:339-340 | after a good prefix, one more scenario either fails the build with its error or appends its identified row |
| LegacyGenerateData.DatasetErrStays | backend/legacy_generate_data.py:308-338 | an error among the first scenarios is the build's error |
| LegacyGenerateData.DatasetRows | backend/legacy_generate_data.py:302-348 | row k of a successful build is scenario k's row identified by its id |
| LegacyGenerateData.DatasetFirstError | backend/legacy_generate_data.py:302-348 | the build fails iff some scenario fails, and then with the error of the first one that does |
| LegacyGenerateData.NodeScenarios | backend/legacy_generate_data.py:322-338 | leak node i's scenarios follow the first 1 + i·choices, one per coefficient in order, each with its own draw |
| LegacyGenerateData.ScenariosByNode | backend/legacy_generate_data.py:305-338 | the build's scenarios are the baseline followed by each leak node's block in turn, and nothing more |
| LegacyGenerateData.AddScenario | backend/legacy_generate_data.py:328-340 | running one scenario extends the build by exactly that scenario, or ends it with its error |
| LegacyGenerateData.AddNodeScenarios | backend/legacy_generate_data.py:323-340 | the inner loop over the coefficients extends the build by exactly that node's scenarios, or ends it with the first error |
| LegacyGenerateData.AddLeakScenarios | backend/legacy_generate_data.py:322-340 | the outer loop over the leak nodes, after the baseline, yields exactly the specified build |
| LegacyGenerateData.BuildDataset | backend/legacy_generate_data.py:288-348 | the two nested loops, counting scenario_id up, produce exactly the specified build |
| LegacyGenerateData.IdentifiedRow | backend/legacy_generate_data.py:261-339 | the identified row of a scenario that runs has its scenario_id first and leak 1 iff the scenario has a leak |
| LegacyGenerateData.DatasetShape | backend/legacy_generate_data.py:288-348 | a built dataset has 1 + nodes·choices rows; row k has scenario_id k + 1 first and leak 0 only for the baseline |
| NormalizedDataset.RestoreStandardize | backend/utils/Dataset.py:38 | with a nonzero std, mapping a standardised value back gives the value, and standardising a restored value gives it back |
| NormalizedDataset.StandardizeMonotone | backend/utils/Dataset.py:38 | with a positive std, standardising keeps the order of values |
| NormalizedDataset.StandardizeColumn | backend/utils/Dataset.py:38 | a column is standardised value by value, its length kept |
| NormalizedDataset.Rows | backend/utils/Dataset.py:51 | `.values`: one row per record, one entry per selected column |
| NormalizedDataset.NormalizedValue | backend/utils/Dataset.py:21-52 | entry [r][j] is column j's value in record r, standardised with that column's own statistics exactly when normalisation is on and the column is not excluded |
| NormalizedDataset.StatPairsLast | backend/utils/Dataset.py:31-37 | a column's last recorded statistic is its statistic iff it is selected and not excluded, and there is none otherwise |
| NormalizedDataset.StatTable | backend/utils/Dataset.py:24-47 | the statistic dictionaries are well-formed, keys in first-assignment order |
| NormalizedDataset.StatTableEntries | backend/utils/Dataset.py:24-47 | a column has a recorded statistic iff normalisation is on and it is selected and not excluded, and then the entry is the column's statistic |
| NormalizedDataset.StatTablesAlign | backend/utils/Dataset.py:36-37 | the mean and std dictionaries list the same columns in the same order |
| NormalizedDataset.NormalizeColumns | backend/utils/Dataset.py:31-38 | the loop leaves every selected column standardised unless excluded, and records exactly the specified means and stds |
| NormalizedDataset.LeakDataset.constructor | backend/utils/Dataset.py:6-56 | the stored inputs and outputs are the normalised rows of the selected columns and the four dictionaries the recorded statistics; mean and std keys align |
| NormalizedDataset.LeakDataset.Length | backend/utils/Dataset.py:58-59 | the length is the number of input rows, which is the number of output rows |
| NormalizedDataset.LeakDataset.GetItem | backend/utils/Dataset.py:61-62 | an index in [-n, n) gives the input and output rows at it, counting negative indices from the end; any other index is an IndexError |
| NormalizedDataset.LeakDataset.GetNormalizationParams | backend/utils/Dataset.py:64-76 | the four dictionaries as recorded, each mean dictionary aligned with its std dictionary |
| NormalizedDataset.NoNormalization | backend/utils/Dataset.py:24-29 | without normalisation no statistic is recorded and every value is the raw one |
| RunModel.HourlyNodesLayout | backend/run_model.py:8-10 | the input layout has 504 = 24·21 columns, which is the model's input width `len(input_columns)`; column 24·j + h is observation node j's hour h |
| RunModel.HourlyNodesEnds | backend/run_model.py:8-10 | the layout begins with NODE_1383_Hour0 and ends with NODE_1162_Hour23 |
| RunModel.HourlyNodesDistinct | backend/run_model.py:8-10 | no input column is listed twice |
| RunModel.HourlyNodesAreScenarioColumns | backend/run_model.py:8-10 | every input column `<node>_Hour<h>` is a column of a one-day scenario row, holding the hourly cell read by that node's name |
| RunModel.InputColumn | backend/run_model.py:30-32 | a column is standardised with the saved statistics when both are present, else kept; its length is kept |
| RunModel.InputValue | backend/run_model.py:29-33 | entry [r][j] of the inference input is the raw value standardised with the saved mean and std of its column when both are saved, and the raw value otherwise |
| RunModel.NormalizeInputs | backend/run_model.py:17-33 | the column loop produces exactly those inputs |
| RunModel.InferenceMatchesTraining | backend/run_model.py:29-33 | with the statistics a LeakDataset recorded, inference normalises a frame exactly as training did |
| RunModel.RestoredColumn | backend/run_model.py:51-52 | each value of column i mapped back as prediction · std + mean |
| RunModel.Zip | backend/run_model.py:53 | `zip` pairs the keys and values position by position |
| RunModel.DenormalizeOutputs | backend/run_model.py:36-53 | fails iff some output key has no std or no prediction column, then with the first such error; otherwise the result has the mean keys in order, each mapped back with its own statistics |
| RunModel.DenormalizeUndoesNormalize | backend/run_model.py:51 | mapping a standardised target back with the same statistics recovers the target |

## Left out

- The EPANET engine (`ENopen`, `ENrunH`, `ENgetnodevalue`, `ENsetnodevalue`, `ENnextH`), WNTR's network model and `write_inpfile`: foreign calls. Each hydraulic step is given as a sample (the simulator time and the readings it would return), and the node lists and node attributes as given sequences.
- File and CSV I/O: reading the `.inp` file is a given content string (or its absence, which selects the demonstration network), and the CSV writes at the end of both generators are not modelled.
- The regular expression in `_parse_section`: replaced by an explicit scan for the first case-insensitive `[NAME]` header and the next `[`.
- Floating-point arithmetic: numbers are exact reals, so rounding, overflow to infinity and NaN arithmetic are not modelled; where the source tests for NaN or `undefined`, the value is an absent one.
- `float()`, `math.sin`, `math.cos`, `Math.sqrt`, the Haversine distances and `p ** exponent`: function parameters (a number parser, a distance, a square root that preserves order, a power function), because they are floating-point library calls.
- LeakDetection.PressureChartData, LeakDetection.DemandComparisonData: `Object.entries(...)` of the pressure and demand histories is given as already-parsed (time in seconds, value) pairs in entry order, so `parseFloat` of each key is not modelled; in particular a non-numeric key, which `parseFloat` turns into NaN and which makes the sort comparator inconsistent, is not modelled.
- `mean` and `std` inside pandas: given statistics functions on a column.
- Unicode: case folding and whitespace are the ASCII ones, while Python and JavaScript also fold and strip non-ASCII characters.
- Randomness: the risk scores of the topology and `rng.randint` for the start hours are parameters, and the model states only the classification of a score and the range of a start hour.
- The neural network, training and validation, checkpoint saving and loading, and seeding: PyTorch numerics and I/O. `run_test_cases` is modelled only for its normalisation and de-normalisation around the network's call.
- The HTTP layer (`backend/main.py`, `frontend/src/services/api.js`, `backend/leak_detector.py`), the UI-only components, Leaflet and Recharts rendering, the polling interval of the predictions panel, and `backend/test.py`: plumbing and rendering without logic of their own.
- The message printed when `generate_data` meets a non-finite pressure: output only; the loop's `break` and the partial row it leaves are modelled.
- `generate_data` with no leak node: the row is built only inside `if leak_node is not None` (backend/generate_data.py:205), and `self.wn.get_node(None)` has already failed by then, so the baseline branch at lines 236-241 is dead code.
- GenerateData.ScenarioFields: the `leak_demand_time` and `leak_pressure_time` fields hold the sequence of clipped (time, value) readings, one per step; `to_dict()` would collapse readings that share a time to the last one, and that collapse is not modelled.
- The column union of `pd.DataFrame(rows)` when rows have different keys: every row the model builds has the same columns in the same order, so the frame is the list of rows.
- EpanetParser.EpanetParser.constructor: where `float()` raises `ValueError` the model records a failure flag and keeps the tables parsed so far, rather than propagating an exception out of the constructor.
- NormalizedDataset.LeakDataset.constructor: requires the named columns to be present and distinct and every non-excluded standard deviation to be nonzero; the source raises `KeyError` for a missing column and produces infinities or NaN for a zero deviation.
- RunModel.NormalizeInputs: requires the input columns to be present and distinct and the stored standard deviations of normalised columns to be nonzero, for the same reasons.
- RunModel.DenormalizeOutputs: requires the prediction rows to have one common width and the stored means to be a well-formed table; a column index past that width or a mean without a deviation is an error result, as the source's `IndexError` or `KeyError`.
- LegacyGenerateData.BuildDataset: the random start hours are a given sequence with one draw per leak node and emitter choice; StartHoursInRange states that draws inside the configured range give scenarios starting inside it.
- `_get_emitter_exponent` (backend/legacy_generate_data.py:48-50): never called in the repository; the exponent a scenario actually uses (the argument, else the network's) is ExponentUsed.
- ResultsPageFixed.PressureSeries: a `pressure_history` that is a plain object is read as having no rows, while JavaScript would loop over it when the object holds its own numeric `length` field.
- JsValues.Member: a property inherited from a prototype (`toString`, `constructor`, …) reads as absent; such a value is neither a number nor an array, so the plotted pressure is null either way. Arrays of 2^32 or more elements are not modelled.
- MapData.NodeMap, LeakResultMap.PipeLines, NetworkMap.PipeLines: the node lookup is a plain object (`const nodeMap = {}`), so in JavaScript `nodeMap[id]` also answers names inherited from `Object.prototype` (`toString`, `constructor`, `valueOf`, …), and a node with id `__proto__` replaces the object's prototype instead of adding an entry. The model's lookup holds only the nodes' own ids. A pipe with an end named after such a property that matches no node makes the source throw a `TypeError` when it reads `coordinates.lat` of the function it finds, and the map does not render; the model skips that pipe instead. This error path and the `__proto__` id are not modelled.
- MapData.NodeMapLookup: "an id is present iff some node has it" holds of the model's lookup, not of the source's object for the inherited names and the `__proto__` id above.
- LeakResultMap.PipeLinesOfNodes: "a pipe is drawn iff both end ids name some node" holds only when no end id is an inherited `Object.prototype` name; for such a dangling end the source throws a `TypeError` rather than skipping the pipe.
- NetworkMap.PipeDrawnIffEndsExist: the same restriction as LeakResultMap.PipeLinesOfNodes; a dangling end named after an inherited `Object.prototype` property makes the source throw a `TypeError` rather than drop the pipe.
- LeakResultMap.Room, ZoneRadii, Vertex, LayerPoints, LayerAt, EllipsePoints, ZoneLayers: require cos(lat) to be nonzero, the divisor of the longitude metres; `Math.cos` of a double is never exactly zero, so no centre the page computes is excluded, while the infinities and NaN of a NaN centre are floating-point behaviour not modelled.
