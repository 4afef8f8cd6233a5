# Saskatchewan railway network pipeline, modelled in Dafny

This project models the core of a batch pipeline that rebuilds the historical railway network of
Saskatchewan and connects its settlements along it. Its stages are:

- **Network build** (`builder.dfy`, `geometry.dfy`, `node_ids.dfy`):
  - junction points are found on a 10 m grid of the projected track points;
  - every track is cut at its interior junctions;
  - each piece becomes an edge between nodes that are reused within the snap tolerance or minted as `n{index}`;
  - self-loops are dropped, and a duplicate node pair keeps the shorter edge.
- **Snapping** (`snapper.dfy`, `minimum.dfy`, `ordering.dfy`):
  - each settlement goes to its nearest node, or to an edge when the clamped projection onto the edge's chord is strictly closer;
  - the snap is classed by distance;
  - the mappings are sorted by settlement name.
- **Routing and railway distances** (`routing.dfy`, `shortest_path.dfy`, `distances.dfy`):
  - adjacency lists and a track lookup keyed in both directions;
  - a hand-written lazy Dijkstra search with path reconstruction;
  - the per-pair distance decision: same edge, then same snap node, then routed;
  - each distance written back into both directions of a connection.
- **Route geometry and verification** (`route_geometry.dfy`, `edge_geometry.dfy`, `verification.dfy`):
  - the coordinate list of a route, assembled from track slices;
  - its extension onto the settlements' edges;
  - local geometries for settlements on one edge or one node;
  - the verdict on how close the route passes to both settlements.
- **Dataset merge and connectivity** (`merge.dfy`, `components.dfy`, `bridge.dfy`):
  - shortline segments of the national network are chained per operator and stitched into the network;
  - components are computed by union-find;
  - each floating component gets a virtual edge to the main one;
  - one bridge repair is added only when it is missing.
- **Connection and timeline bookkeeping** (`connections.dfy`, `timeline.dfy`, `railway_lines.dfy`, `pytext.dfy`):
  - the railway timeline is turned into per-settlement railway lists;
  - settlements that share railways are found, with the year they were connected;
  - every settlement gets a mirrored connection list, sorted by distance;
  - the spreadsheet's railway cells are parsed into the five timeline categories, and the timeline is rebuilt by a priority-ordered year lookup.

Modelling conventions:

- Coordinates are pairs of `real`.
- The haversine and Euclidean distance functions are parameters of type `Metric`:
  - the model does not verify their trigonometry or square roots;
  - where a script compares projected Euclidean distances, the parameter must be a non-negative, non-decreasing function of the exact squared distance.
- Manhattan comparisons are exact.
- Python's stable `sort`/`sorted` is one generic stable insertion sort (`Ordering.SortBy`).
- Python's string order is `Ordering.StrLe`.
- Python `None` is `Wrappers.Option`.
- Dictionaries are `map`s, lists are `seq`s and sets are `set`s.
- Where a script iterates over a set or a dictionary whose order it does not fix, the model picks any element. Its contracts hold whatever the order, and `Timeline.TimelineDetermined` shows that the written timeline does not depend on it.
- Objects the scripts update in place are classes:
  - `Builder.RailGraph`, for the graph under construction;
  - `Bridge.RailwayFiles`, for the network and track files the repair appends to.
- Loops become methods, with invariants tying them to specification functions.

## Model

| member | source | states |
|---|---|---|
| Geometry.RoundHalfEven | scripts/build_railway_network.py:98-100 | Python's `round` to an integer: within one half of the argument, and an exact tie goes to the even integer |
| Geometry.RoundHalfEvenMonotone | scripts/build_railway_network.py:98-100 | rounding never reverses the order of two values |
| Builder.RoundPoint | scripts/build_railway_network.py:98-100 | the grid cell key of a point lies within half the 10 m grid step of it on each axis |
| Builder.GridCountsCount | scripts/build_railway_network.py:118-123 | a cell is in `point_counts` exactly when some visited point falls in it, its count is the number of such points, and `point_counts` and `point_to_original` have the same keys |
| Builder.GridFirstsIsFirst | scripts/build_railway_network.py:121-123 | the point remembered for a cell is the first visited point that falls in that cell |
| Builder.JunctionsOfCharacterized | scripts/build_railway_network.py:125-131 | a point is a junction exactly when it is the first point seen in its grid cell and that cell holds more than one point |
| Builder.CountGridPoints | scripts/build_railway_network.py:109-123 | the first pass leaves `point_counts` and `point_to_original` equal to the per-cell census of all points of all tracks |
| Builder.FindJunctionPoints | scripts/build_railway_network.py:103-131 | returns exactly the junction set of the tracks' points |
| Builder.IsJunctionPoint | scripts/build_railway_network.py:144-151 | returns a junction strictly within the tolerance when there is one, and None exactly when every junction is at least the tolerance away |
| Builder.CutsBelow | scripts/build_railway_network.py:165-177 | the indices where pieces start are 0 followed by strictly increasing interior indices |
| Builder.CutsBelowExactly | scripts/build_railway_network.py:169-177 | apart from 0, an index starts a piece exactly when it is an interior index whose point is near a junction |
| Builder.Piece | scripts/build_railway_network.py:174-175 | a piece holds at least two points, from its first bound to its last, inclusive |
| Builder.SplitCutStep | scripts/build_railway_network.py:170-177 | at an interior junction point the current piece is closed and a new one starts at that point |
| Builder.SplitKeepStep | scripts/build_railway_network.py:165-167 | any other point only extends the current piece |
| Builder.SplitTrackAtJunctions | scripts/build_railway_network.py:154-184 | fewer than two points give no pieces; otherwise the pieces are exactly the stretches between consecutive bounds, each with its polyline length |
| Builder.SplitPiecesChain | scripts/build_railway_network.py:162-184 | the pieces chain end to end: the first starts at the track's first point, the last ends at its last point, each starts where the previous ended |
| Builder.InnerBoundIsJunction | scripts/build_railway_network.py:170-177 | every bound other than the first and the last is a point near a junction |
| Builder.SplitPiecesCutAtJunctions | scripts/build_railway_network.py:170-177 | every point where one piece ends and the next begins is near a junction |
| Builder.SplitPiecesRebuild | scripts/build_railway_network.py:154-184 | splitting loses nothing: the pieces glue back to the whole track and their lengths add up to the track's polyline length |
| Builder.PiecesTotalLength | scripts/build_railway_network.py:174-182 | the pieces' lengths add up to the length of the stretch from the first bound to the last |
| Builder.FindNear | scripts/build_railway_network.py:84-90 | the first node, in insertion order, strictly within the tolerance; None exactly when every node is at least the tolerance away |
| Builder.ResolveNodeFresh | scripts/build_railway_network.py:79-95 | with nodes numbered n0, n1, ... either an existing node within the tolerance is returned and nothing changes, or node n{index} is appended at the point and the counter moves on by one |
| Builder.FindEdge | scripts/build_railway_network.py:305 | the first edge joining the two nodes in either orientation, or None exactly when no edge joins them |
| Builder.InsertEdgeKeepsSimple | scripts/build_railway_network.py:291-312 | inserting a piece keeps the graph free of self-loops and of parallel edges |
| Builder.InsertEdgeKeepsShorter | scripts/build_railway_network.py:291-312 | a self-loop changes nothing; otherwise exactly one edge joins the two nodes afterwards, it carries the strictly shorter of the old and new data (the old on a tie), and every other edge is unchanged |
| Builder.InsertEdgeKeepsLengths | scripts/build_railway_network.py:296-311 | every edge's length stays the polyline length of the points it stores |
| Builder.RailGraph.constructor | scripts/build_railway_network.py:187-314 | a new graph has no nodes and no edges |
| Builder.RailGraph.FindOrCreateNode | scripts/build_railway_network.py:79-95 | the graph's nodes and the returned id and counter are those of the find-or-create rule; edges are untouched |
| Builder.RailGraph.FindEdgeIndex | scripts/build_railway_network.py:305 | `has_edge` in either orientation, with the position of the edge |
| Builder.RailGraph.InsertEdgeInPlace | scripts/build_railway_network.py:291-312 | the edge list becomes the result of the keep-shorter insertion; nodes are untouched |
| Builder.RailGraph.AddPiece | scripts/build_railway_network.py:280-312 | resolves the piece's first and last point to nodes, in that order, then inserts the edge between them; lengths stay consistent |
| Builder.AddPieces | scripts/build_railway_network.py:280-312 | the graph after one track is exactly the fold `AddPiecesTo` of the node and edge step over its pieces in order, and stays simple with consistent lengths |
| Builder.AddPieceToKeeps | scripts/build_railway_network.py:284-311 | one piece step (first point, last point, then the keep-shorter edge insertion) keeps the nodes numbered n0, n1, ..., the graph simple and every edge length the polyline length of its points |
| Builder.AddPiecesToKeeps | scripts/build_railway_network.py:280-312 | the pieces of one track, folded in order, keep that invariant |
| Builder.BuildNetwork | scripts/build_railway_network.py:237-314 | given the junction points of all tracks in some order, the track loop yields a fresh graph whose nodes and edges are exactly the fold `BuildFrom`: tracks with fewer than two points are skipped, every other track is cut at the junctions and its pieces go through the node and edge step in order |
| Builder.BuildFromGood | scripts/build_railway_network.py:237-314 | for any tracks the built graph has its nodes numbered n0, n1, ... in creation order, no self-loop, at most one edge per pair of nodes, and each edge length the polyline length of the points it stores |
| Builder.PiecesOfWellFormed | scripts/build_railway_network.py:280-282 | every piece has at least two points and its own polyline length, so the `len(seg_points) < 2` skip never fires |
| Geometry.PolylineLength | scripts/build_railway_network.py:134-141 | the length of fewer than two points is 0 and a length is never negative for a non-negative metric |
| Geometry.PolylineLengthJoin | scripts/build_railway_network.py:134-141 | joining two polylines at a shared point adds their lengths |
| Snapper.ClampedRatio | scripts/snap_settlements_to_network.py:126-127 | the clamped projection parameter lies in [0, 1], is 0 for a non-positive numerator, 1 at or past the far end, and the exact ratio in between |
| Snapper.PointToSegment | scripts/snap_settlements_to_network.py:114-133 | t lies in [0, 1]; a degenerate chord gives t = 0 and the distance to its end; otherwise t is the projection ratio of p - a on b - a clamped to [0, 1], and the distance is the distance to the chord point at t |
| Geometry.SqDistAlongChord | scripts/snap_settlements_to_network.py:129-133 | the squared distance from a point to the chord point at s is the quadratic \|p - a\|² - 2 s (p - a)·(b - a) + s² \|b - a\|² |
| Snapper.ClampedRatioMinimises | scripts/snap_settlements_to_network.py:126 | over s in [0, 1] that quadratic is least at the clamped ratio |
| Snapper.ClampedRatioNearest | scripts/snap_settlements_to_network.py:126-133 | the chord point at the clamped ratio is, in squared distance, no farther from p than any other chord point |
| Snapper.PointToSegmentNearest | scripts/snap_settlements_to_network.py:113-133 | with a Euclidean distance, the distance returned is the shortest distance from p to the chord: no more than to any chord point, and in particular to either end |
| Snapper.PointToSegmentAtEnds | scripts/snap_settlements_to_network.py:114-133 | at t = 0 or t = 1 the distance is the distance to that end of the chord |
| Snapper.ClassifySnapQuality | scripts/snap_settlements_to_network.py:34-36 | the four quality bands, each closed at its upper threshold of 5 km, 15 km and 50 km, in both directions |
| Snapper.ClassifyMonotone | scripts/snap_settlements_to_network.py:136-145 | a settlement farther away never gets a better class |
| Snapper.NodeDistances | scripts/snap_settlements_to_network.py:71-74 | one distance per indexed node, in index order |
| Snapper.EdgeDistances | scripts/snap_settlements_to_network.py:94-103 | one chord distance per edge, in file order |
| Snapper.NearestNodeIsFirstMinimum | scripts/snap_settlements_to_network.py:66-80 | no node is found exactly when the index is empty; otherwise the node found is the first at the smallest distance |
| Snapper.NearestEdgeIsFirstMinimum | scripts/snap_settlements_to_network.py:83-111 | no edge is found exactly when there are none; otherwise the edge found is the first with the closest chord and its t lies in [0, 1] |
| Snapper.FindNearestNode | scripts/snap_settlements_to_network.py:66-80 | the running strict minimum over the index settles on the nearest node |
| Snapper.FindNearestEdgePoint | scripts/snap_settlements_to_network.py:83-111 | the running strict minimum over the edges settles on the nearest edge point |
| Snapper.ChooseSnap | scripts/snap_settlements_to_network.py:187-220 | an edge snap is chosen exactly when the edge is strictly closer than the nearest node, with the edge's two ends, t and length; otherwise a node snap; the primary node is the first snap node and the quality is the class of the chosen distance |
| Snapper.SnapOneIsClosest | scripts/snap_settlements_to_network.py:173-226 | the mapping's distance is no larger than the distance to any node and to any edge chord, and its primary node is a node of the network |
| Snapper.SnapSettlements | scripts/snap_settlements_to_network.py:170-229 | one mapping per settlement, sorted by settlement name, with the per-class counters equal to the number of mappings in each class |
| Snapper.SnapSettlementsSorted | scripts/snap_settlements_to_network.py:229 | the mappings end ordered by settlement name and are a permutation of the unsorted ones |
| Minimum.FirstMin | scripts/snap_settlements_to_network.py:68-80 | None exactly for no values; otherwise the first index holding a smallest value |
| Minimum.FirstMinUnique | scripts/snap_settlements_to_network.py:68-80 | the first minimum is the only answer a left-to-right strict running minimum can give |
| Minimum.FirstMinStep | scripts/snap_settlements_to_network.py:76-78 | one more value replaces the running minimum exactly when it is strictly smaller |
| Ordering.SortBy | scripts/snap_settlements_to_network.py:229 | Python's stable sort returns a permutation of its input |
| Ordering.SortBySorted | scripts/snap_settlements_to_network.py:229 | the sorted list is ordered by any total comparison |
| Ordering.StrLeTotal | scripts/snap_settlements_to_network.py:229 | Python's string order is total |
| Ordering.StrLeTransitive | scripts/snap_settlements_to_network.py:229 | Python's string order is transitive |
| Ordering.StrLeAntisymmetric | scripts/snap_settlements_to_network.py:229 | Python's string order is antisymmetric |
| Routing.Append | scripts/verify_railway_routes.py:38-41 | appending to one node's list leaves every other node's list alone and adds the node as a key |
| Routing.AdjacencyOfEdges | scripts/verify_railway_routes.py:36-42 | a node lists a neighbour entry exactly when some edge joins the two with that weight, in either direction |
| Routing.AdjacencySymmetric | scripts/verify_railway_routes.py:39-41 | every edge is recorded in both directions with the same weight |
| Routing.BuildAdjacency | scripts/verify_railway_routes.py:36-42 | the loop builds exactly the adjacency of the edge list |
| Routing.TrackLookupLast | scripts/verify_railway_routes.py:44-50 | "a\|b" is present exactly when some track joins a and b in either orientation, and then holds the last such track |
| Routing.TrackLookupSymmetric | scripts/verify_railway_routes.py:47-49 | both orientations of a node pair are present together and give the same track |
| Routing.BuildTrackLookup | scripts/verify_railway_routes.py:44-50 | the loop builds exactly the lookup of the track list |
| Verification.MappingLookupLast | scripts/verify_railway_routes.py:52-54 | a settlement name is present exactly when some mapping has it, and then gives the last such mapping |
| ShortestPath.MinHopIsLeast | scripts/verify_railway_routes.py:75-84 | the least weight among a list's entries to a node, present exactly when some entry leads there |
| ShortestPath.PathWeightSplit | scripts/verify_railway_routes.py:56-95 | a walk weighs its part up to any node plus its part from that node |
| ShortestPath.EntryLeTotal | scripts/verify_railway_routes.py:64-67 | Python's order on (distance, node) heap entries is total |
| ShortestPath.EntryLeTransitive | scripts/verify_railway_routes.py:64-67 | Python's order on heap entries is transitive |
| ShortestPath.LeastUnique | scripts/verify_railway_routes.py:67 | the least heap entry is unique, so `heappop`'s choice is fixed by the heap's contents |
| ShortestPath.PopLeast | scripts/verify_railway_routes.py:67 | `heappop` removes and returns the least entry |
| ShortestPath.VisitOptimal | scripts/verify_railway_routes.py:66-73 | the node of the least entry, once visited, has a distance no walk from the start undercuts |
| ShortestPath.ClosedUnderWalks | scripts/verify_railway_routes.py:66 | once the heap is empty, every walk from the start ends at a visited node |
| ShortestPath.RelaxEntry | scripts/verify_railway_routes.py:75-84 | one list entry lowers an unvisited neighbour's distance to the new distance when it improves on it, records the prev and queues it; visited distances never change and no distance rises |
| ShortestPath.Relax | scripts/verify_railway_routes.py:75-84 | relaxing a visited node's whole list settles it without changing any visited distance |
| ShortestPath.StartState | scripts/verify_railway_routes.py:61-64 | before the loop only the start is known, at distance 0, and queued |
| ShortestPath.Step | scripts/verify_railway_routes.py:66-84 | one pass pops the least entry, skips it when visited, otherwise visits it and stops at the end node or relaxes its list; every visited distance is optimal and the pass makes progress |
| ShortestPath.Search | scripts/verify_railway_routes.py:61-84 | the loop stops with the end node visited, or runs until the heap is empty; every visited distance is optimal |
| ShortestPath.WalkCons | scripts/verify_railway_routes.py:89-94 | putting an adjacent node in front of a walk gives a walk one hop heavier |
| ShortestPath.Reconstruct | scripts/verify_railway_routes.py:89-95 | following prev back from the end node and reversing gives a walk from the start to it no heavier than its distance |
| ShortestPath.FindPath | scripts/verify_railway_routes.py:56-95 | [start] when start is end; None only when no walk from the start reaches the end; otherwise a walk from start to end that, with non-negative weights, is no heavier than any other |
| Distances.NodeSetEqual | scripts/calculate_railway_distances.py:90-92 | two node lists give equal sets exactly when they hold the same nodes |
| Distances.AreOnSameEdge | scripts/calculate_railway_distances.py:85-92 | true exactly when both mappings are edge snaps naming the same set of nodes |
| Distances.SameEdgeAgrees | scripts/calculate_railway_distances.py:85-92 | for two-node edge snaps the set comparison agrees with the route verifier's two-node list comparison |
| Distances.SameEdgeDistance | scripts/calculate_railway_distances.py:95-104 | None exactly when either t or the first mapping's edge length is missing |
| Distances.GapBounds | scripts/calculate_railway_distances.py:104 | \|t2 - t1\| times the length lies between 0 and the length and is symmetric in t1 and t2 |
| Distances.SameEdgeDistanceBounds | scripts/calculate_railway_distances.py:95-104 | for two positions on one edge the distance exists, lies between zero and the first mapping's edge length, and is symmetric when both carry the same length |
| Distances.EdgeOffset | scripts/calculate_railway_distances.py:107-124 | (0, 'node') exactly for a node snap or a missing t; otherwise an offset measured from the first snap node |
| Distances.OffsetsGiveSameEdgeDistance | scripts/calculate_railway_distances.py:107-124 | an offset lies on the edge, and the same-edge distance is the gap between the two offsets |
| Distances.GraphSymmetric | scripts/calculate_railway_distances.py:37-53 | the graph is undirected: both orientations of a node pair are present together with the same weight |
| Distances.RouteLengthSplit | scripts/calculate_railway_distances.py:137-140 | route lengths add up along a path split at any of its nodes |
| Distances.RouteLengthNonNegative | scripts/calculate_railway_distances.py:137-140 | with non-negative weights a route's length is non-negative |
| Distances.CalculateRailwayDistance | scripts/calculate_railway_distances.py:127-145 | no distance exactly when there is no path; otherwise the path is a route between the two nodes and the distance is its summed weight divided by 1000 |
| Distances.PairKey | scripts/calculate_railway_distances.py:196 | the key is the pair in sorted order |
| Distances.PairKeySymmetric | scripts/calculate_railway_distances.py:196 | both orientations of a connection have the same key |
| Distances.Decide | scripts/calculate_railway_distances.py:201-257 | the checks in the script's order, both ways: no mapping exactly when the other side is unmapped; otherwise the same-edge distance exactly when both snap to one edge and it is computable; otherwise zero exactly when the snap nodes coincide; otherwise no path exactly when the oracle finds none, and else the routed distance, a walk of the graph between the snap nodes whose summed weight is 1000 times the stored kilometres |
| Distances.StepConsistent | scripts/calculate_railway_distances.py:191-257 | one connection keeps the bookkeeping consistent, never changes a stored distance and leaves its pair processed |
| Distances.RunConnsConsistent | scripts/calculate_railway_distances.py:191-257 | one settlement's connections keep the bookkeeping consistent and all get their pairs processed |
| Distances.RunEntriesConsistent | scripts/calculate_railway_distances.py:182-257 | after the pass every connection of a mapped settlement has its pair processed, each processed pair is in exactly one counter with same_edge within calculated, and stored distances are never changed |
| Distances.ProcessConnection | scripts/calculate_railway_distances.py:191-257 | one iteration of the inner loop, as written, performs the step |
| Distances.ProcessPairs | scripts/calculate_railway_distances.py:182-257 | the pair loop computes the pass from the empty state |
| Distances.Applied | scripts/calculate_railway_distances.py:262-265 | a rewritten connection keeps its target and its direct distance |
| Distances.AppliedConns | scripts/calculate_railway_distances.py:261-265 | one rewritten connection per connection, in order |
| Distances.WriteBackSymmetric | scripts/calculate_railway_distances.py:259-265 | both directions of a processed pair carry that pair's distance; both directions of an unprocessed pair are left as they were |
| Distances.ApplyDistances | scripts/calculate_railway_distances.py:259-265 | the write-back loop rewrites every connection of every settlement, in order |
| Distances.ApplyToConns | scripts/calculate_railway_distances.py:261-265 | the inner write-back loop rewrites one settlement's connections |
| RouteGeometry.LatLonInvolution | scripts/verify_railway_routes.py:107 | swapping [lon, lat] into [lat, lon] twice gives the coordinates back |
| RouteGeometry.EdgeCoords | scripts/verify_railway_routes.py:130-134 | the track under "a\|b", else under "b\|a", kept only when it has coordinates; None exactly in the cases where neither gives one |
| RouteGeometry.EdgeCoordsSymmetric | scripts/verify_railway_routes.py:130-131 | on a lookup from build_track_lookup the order of the two snap nodes does not matter |
| RouteGeometry.Closest | scripts/verify_railway_routes.py:138-145 | the index of the first vertex nearest to the settlement |
| RouteGeometry.ScanDone | scripts/verify_railway_routes.py:139-145 | the finished scan has the first nearest index and its distance, or infinity for no vertices |
| RouteGeometry.ClosestVertex | scripts/verify_railway_routes.py:139-145 | the scan returns the closest vertex's index and distance, infinity exactly for no vertices |
| RouteGeometry.MinOf | scripts/verify_railway_routes.py:169-176 | the least value, attained by some value, infinity exactly for no values |
| RouteGeometry.FindClosestPointDistance | scripts/verify_railway_routes.py:169-176 | the loop returns how close the route gets to the target |
| RouteGeometry.OrientedFacesJoint | scripts/verify_railway_routes.py:109-118 | the laid track is the track or its reverse, reversed only when the running last point is strictly nearer its far end, and then starts at the nearer end |
| RouteGeometry.PathCoordsAppends | scripts/verify_railway_routes.py:102-120 | the geometry holds every point of every hop's track, joints twice, and a longer path only appends to its prefix's geometry |
| RouteGeometry.GetPathGeometry | scripts/verify_railway_routes.py:97-122 | the loop gives the path's geometry: None for fewer than two nodes or when no hop has a track |
| RouteGeometry.AppendHop | scripts/verify_railway_routes.py:104-120 | one hop's track is looked up under "a\|b" only and laid oriented after the running points |
| RouteGeometry.NearEnd | scripts/verify_railway_routes.py:156-162 | the track end, first or last, that is not farther from the point in \|dlat\| + \|dlon\| |
| RouteGeometry.FromNearEnd | scripts/verify_railway_routes.py:159-162 | the run of vertices from the nearer track end to the closest vertex, with its length and every element |
| RouteGeometry.RunFromNearEnd | scripts/verify_railway_routes.py:159-162 | the slicing `track[:k+1]` or `track[k:][::-1]` gives that run |
| RouteGeometry.ToNearEnd | scripts/verify_railway_routes.py:159-162 | the same run walked from the closest vertex to the nearer end |
| RouteGeometry.RunToNearEnd | scripts/verify_railway_routes.py:159-162 | the reversed slicing gives that run |
| RouteGeometry.ExtensionFor | scripts/verify_railway_routes.py:124-162 | the piece to add is non-empty when there is one; none unless the mapping has two snap nodes whose track has coordinates and the closest vertex is strictly nearer than the route's end |
| RouteGeometry.ExtendToEdge | scripts/verify_railway_routes.py:124-167 | the extended route is never shorter than the route |
| RouteGeometry.ExtendReachesClosest | scripts/verify_railway_routes.py:124-167 | the route only changes when the mapping names two snap nodes with a track whose closest vertex is strictly nearer than the route's end, and the new end at the settlement's side is then that vertex; the old route is kept whole |
| RouteGeometry.ExtendNoFarther | scripts/verify_railway_routes.py:124-167 | extending keeps the route whole and never moves its end at the settlement's side farther from the settlement |
| RouteGeometry.ExtendPathToEdge | scripts/verify_railway_routes.py:124-167 | the script's steps compute the corrected splice of the first Findings row (at the start the extension is laid reversed); elsewhere the extension of the script |
| RouteGeometry.ExtendAsWrittenMissesClosest | scripts/verify_railway_routes.py:164-167 | on a three-vertex sample the start case as written prepends the two vertices nearest the route and so does not start at the settlement's closest vertex; the corrected rule does |
| EdgeGeometry.IsSameEdge | scripts/verify_railway_routes.py:178-183 | two lists name the same edge exactly when both have two nodes and they hold the same nodes |
| EdgeGeometry.SameEdgeMultiset | scripts/verify_railway_routes.py:182-183 | holding the same two nodes is the same as matching in order or crosswise |
| EdgeGeometry.Span | scripts/verify_railway_routes.py:217-220 | the vertices from one index to another inclusive, walked from the first, with every element |
| EdgeGeometry.SameEdgeRuns | scripts/verify_railway_routes.py:185-228 | a same-edge geometry exists exactly when both snaps name the same edge and its track has coordinates; it is the span between the two closest vertices, or the line from the first settlement through that vertex to the second when both share it |
| EdgeGeometry.GetSameEdgeGeometry | scripts/verify_railway_routes.py:185-228 | the single scan with two running minima computes the same-edge geometry |
| EdgeGeometry.SharedNodeRuns | scripts/verify_railway_routes.py:230-298 | a shared-node geometry needs two different two-node edges with one snap node, both tracks and the node's position; it starts at the first settlement's closest vertex and runs through the first track's shared end into the second track |
| EdgeGeometry.GetSharedNodeGeometry | scripts/verify_railway_routes.py:230-298 | the script's two scans and slices compute the shared-node geometry |
| EdgeGeometry.EdgeRun | scripts/verify_railway_routes.py:335-347 | the run along the edge settlement's track from the shared node's end to its closest vertex is non-empty |
| EdgeGeometry.NodeOnlyCaseOf | scripts/verify_railway_routes.py:300-347 | the case the node-only branches pick; a run along an edge is non-empty |
| EdgeGeometry.NodeOnlyCaseSwap | scripts/verify_railway_routes.py:300-347 | naming the settlements the other way round gives the same case, seen from the other side |
| EdgeGeometry.CaseGeometrySwap | scripts/verify_railway_routes.py:318-352 | naming the settlements the other way round reverses the line drawn for a case |
| EdgeGeometry.NodeOnlySymmetric | scripts/verify_railway_routes.py:300-352 | the corrected node-only geometry exists for both orders or neither, and swapping the settlements reverses it |
| EdgeGeometry.NodeOnlyEnds | scripts/verify_railway_routes.py:300-333 | a node-only geometry exists exactly when both snap to the same known node and one of them is node-only; a node-only settlement is an end of the line, and two give the line through the node |
| EdgeGeometry.NodeOnlyReachesClosest | scripts/verify_railway_routes.py:335-352 | with a track, the corrected geometry touches the edge settlement's closest vertex at its edge-side end |
| EdgeGeometry.EdgeFirstCase | scripts/verify_railway_routes.py:322-347 | an edge settlement followed by one at an end of its edge takes the run along the edge |
| EdgeGeometry.GetNodeOnlyGeometry | scripts/verify_railway_routes.py:300-352 | the script's steps compute the corrected splice of the second Findings row when the edge settlement comes first; otherwise the geometry of the script |
| EdgeGeometry.ClassifyNodeOnly | scripts/verify_railway_routes.py:302-333 | the branches compute the node-only case |
| EdgeGeometry.RunAlongEdge | scripts/verify_railway_routes.py:329-347 | the lookup, end test, scan and slice compute the run along the edge |
| EdgeGeometry.NodeOnlyAsWrittenMissesClosest | scripts/verify_railway_routes.py:349-352 | on a three-vertex sample the edge-first case as written starts one vertex short of the settlement's closest vertex and keeps the node's own vertex; the corrected rule starts at the closest vertex |
| Verification.MappingLookupWellFormed | scripts/verify_railway_routes.py:52-54 | every mapping in the lookup is one of the well-formed mappings it was built from |
| Verification.SideIssue | scripts/verify_railway_routes.py:403-415 | a settlement contributes one issue exactly when the path is farther than 5 km from it, an error beyond 15 km and a warning otherwise |
| Verification.VerdictByDistance | scripts/verify_railway_routes.py:406-424 | FAR_FROM_PATH exactly beyond 15 km for the larger distance, WARNING exactly between 5 and 15 km, OK exactly within 5 km; success exactly within 15 km |
| Verification.NearestApproach | scripts/verify_railway_routes.py:169-176 | the distance to the nearest vertex: attained by a vertex and no larger than any |
| Verification.Judged | scripts/verify_railway_routes.py:395-424 | a geometry of fewer than two points is NO_GEOMETRY, and judging a geometry never yields NO_MAPPING or NO_PATH |
| Verification.RoutedGeometry | scripts/verify_railway_routes.py:387-393 | a routed geometry has at least two points |
| Verification.RoutedGeometryKeepsPath | scripts/verify_railway_routes.py:387-393 | the routed geometry exists exactly when the path geometry has two points or more; it holds the path geometry as a contiguous run and its ends are no farther from the settlements |
| Verification.TwoExtensions | scripts/verify_railway_routes.py:392-393 | a route grown at its front and then at its back still runs through the original |
| Verification.RoutedStatus | scripts/verify_railway_routes.py:382-424 | a found route is never judged NO_MAPPING or NO_PATH |
| Verification.VerifyConnection | scripts/verify_railway_routes.py:354-424 | success exactly for WARNING and OK; NO_MAPPING exactly when a settlement has no mapping; with the same snap node a present local geometry is judged; otherwise NO_PATH only when the end node is unreachable, and any other status is that of a shortest route |
| Verification.GetLocalGeometry | scripts/verify_railway_routes.py:371-379 | same edge, then shared node, then node only, each tried when the one before gave nothing |
| Verification.GetRoutedGeometry | scripts/verify_railway_routes.py:387-393 | the path geometry extended onto the first settlement's edge at its start and the second's at its end |
| Verification.Judge | scripts/verify_railway_routes.py:395-424 | the closing checks compute the judged status |
| Merge.ParsePoslist | scripts/merge_nrwn_data.py:71-84 | an odd number of values stops the parse (an index error); otherwise n values give n/2 pairs, pair i being values 2i and 2i+1 in order |
| Merge.FlattenInverse | scripts/merge_nrwn_data.py:71-84 | a posList is the flattening of a coordinate list exactly when every pair is read back from it in place |
| Merge.CalculateTrackLength | scripts/merge_nrwn_data.py:195-202 | the summed distance between consecutive points, divided by 1000 |
| Merge.PolylineLengthReverse | scripts/merge_nrwn_data.py:195-202 | with a symmetric distance a track is as long walked backwards as forwards |
| Merge.FirstJunctionIndex | scripts/merge_nrwn_data.py:188-192 | the first existing node strictly within the tolerance, or None exactly when every node is at least the tolerance away |
| Merge.FindJunctionNode | scripts/merge_nrwn_data.py:182-192 | the loop returns that node's id and distance, or nothing |
| Merge.FirstNearby | scripts/merge_nrwn_data.py:207-223 | the first unused segment with an end strictly within the tolerance, or None exactly when every unused segment's ends are at least the tolerance away |
| Merge.FindNearbyEndpoint | scripts/merge_nrwn_data.py:205-223 | the loop returns that segment and the matched end, the start being checked first |
| Merge.AppendShape | scripts/merge_nrwn_data.py:274-281 | an appended piece keeps the chain in place, adds one point fewer than the piece has, and the chain ends at the piece's unmatched end |
| Merge.PrependShape | scripts/merge_nrwn_data.py:299-306 | a prepended piece keeps the chain in place at the back, adds one point fewer than the piece has, and the chain starts at the piece's unmatched end |
| Merge.AppendLength | scripts/merge_nrwn_data.py:274-281 | when the matched end coincides with the chain's end, the joined chain is as long as its parts together |
| Merge.PrependLength | scripts/merge_nrwn_data.py:299-306 | when the matched end coincides with the chain's start, the joined chain is as long as its parts together |
| Merge.AppendPiece | scripts/merge_nrwn_data.py:275-281 | `extend(piece[1:])` or `extend(reversed(piece)[1:])` performs the append join |
| Merge.PrependPiece | scripts/merge_nrwn_data.py:300-306 | `piece[:-1] + chain` or `reversed(piece)[:-1] + chain` performs the prepend join |
| Merge.RemainingMark | scripts/merge_nrwn_data.py:285 | marking an unused segment uses one up |
| Merge.MarkUsed | scripts/merge_nrwn_data.py:283-285 | marking an unused segment and giving it to a chain keeps every used segment owned by exactly one chain |
| Merge.AppendNearby | scripts/merge_nrwn_data.py:266-286 | one pass of the forward loop changes something exactly when an unused segment has an end near the chain's end; it then performs AppendStep for the first such segment (points joined at the matched end, its subdivision and classification added, the segment used), and otherwise changes nothing |
| Merge.GrowForward | scripts/merge_nrwn_data.py:263-286 | the forward loop as a function over the chain's state: AppendStep for the first nearby unused segment until there is none; never shortens the chain |
| Merge.GrowForwardStops | scripts/merge_nrwn_data.py:263-286 | the forward loop keeps the chain as a prefix of its result, never releases a used segment, and ends exactly when no unused segment has an end near the chain's end |
| Merge.ExtendForward | scripts/merge_nrwn_data.py:263-286 | the while-changed loop ends in the state GrowForward gives, only adds segments owned by this chain, and keeps the chain as a prefix |
| Merge.PrependNearby | scripts/merge_nrwn_data.py:291-311 | one pass of the backward loop changes something exactly when an unused segment has an end near the chain's start; it then performs PrependStep for the first such segment, and otherwise changes nothing |
| Merge.GrowBackward | scripts/merge_nrwn_data.py:288-311 | the backward loop as a function over the chain's state: PrependStep for the first nearby unused segment until there is none; never shortens the chain |
| Merge.GrowBackwardStops | scripts/merge_nrwn_data.py:288-311 | the backward loop keeps the chain as a suffix of its result, never releases a used segment, and ends exactly when no unused segment has an end near the chain's start |
| Merge.ExtendBackward | scripts/merge_nrwn_data.py:288-311 | the while-changed loop ends in the state GrowBackward gives, only adds segments owned by this chain, and keeps the chain as a suffix |
| Merge.ChainClassification | scripts/merge_nrwn_data.py:316 | 'Main' when any joined segment is a main line, otherwise one of the joined classifications |
| Merge.FirstPassTo | scripts/merge_nrwn_data.py:249-318 | the first pass over segments 0..i-1 as a fold: a used segment is skipped, an unused one starts a chain that is grown forward and then backward; never more chains than segments looked at |
| Merge.StartChain | scripts/merge_nrwn_data.py:257-318 | one new chain is its segment grown by GrowForward and then GrowBackward, with those points and subdivisions and a classification chosen as ChainClassification says |
| Merge.PassSegment | scripts/merge_nrwn_data.py:253-318 | one turn of the for loop moves the loop state from FirstPassTo(i) to FirstPassTo(i+1) |
| Merge.BuildChains | scripts/merge_nrwn_data.py:249-318 | the chains are those of FirstPassTo over all segments (same points and subdivisions, classification as ChainClassification says); every segment lands in exactly one chain, so there are never more chains than segments; every chain carries the operator and has points |
| Merge.FirstAttachable | scripts/merge_nrwn_data.py:342-386 | the first unused chain that attaches in one of the four ways, checked in the script's order, or none when no unused chain attaches |
| Merge.FindAttachable | scripts/merge_nrwn_data.py:342-386 | the for loop with break returns what FirstAttachable gives |
| Merge.AttachChain | scripts/merge_nrwn_data.py:349-386 | the four branches perform the attachment and never shrink the merged chain |
| Merge.GrowMerged | scripts/merge_nrwn_data.py:336-386 | the while-changed loop of the second pass as a function: the first attachable unused chain is joined in the way it attaches, its subdivisions added and the chain used, until none attaches; never shortens the chain |
| Merge.GrowChain | scripts/merge_nrwn_data.py:336-386 | the loop ends in the state GrowMerged gives, only adds chains owned by this final chain, and stops exactly when no unused chain attaches at either end |
| Merge.SecondPassTo | scripts/merge_nrwn_data.py:323-393 | the second pass over chains 0..i-1 as a fold: a used chain is skipped, an unused one is grown by GrowMerged and keeps its own classification; never more final chains than chains looked at |
| Merge.PassChain | scripts/merge_nrwn_data.py:326-393 | one turn of the for loop moves the loop state from SecondPassTo(i) to SecondPassTo(i+1) |
| Merge.MergeChains | scripts/merge_nrwn_data.py:323-393 | the final chains are exactly those of SecondPassTo over all chains; every first-pass chain lands in exactly one final chain, so there are never more final chains than chains |
| Merge.OfOperator | scripts/merge_nrwn_data.py:239-241 | an operator's group holds only its own segments |
| Merge.GroupByOperator | scripts/merge_nrwn_data.py:239-241 | the segments are grouped per operator, in order of first appearance, every segment in exactly one group |
| Merge.MergeConsecutiveSegments | scripts/merge_nrwn_data.py:226-398 | the result is the concatenation, over the operators in order of first appearance, of each operator's second-pass chains over its first-pass chains; never more merged chains than segments, every chain carries an operator of the input and has points |
| Merge.MergeNext | scripts/merge_nrwn_data.py:245-396 | one turn of the per-operator loop appends that operator's chains and keeps the loop state |
| Merge.MergeOperator | scripts/merge_nrwn_data.py:245-396 | one operator's chains: the second pass over the chains the first pass describes; never more than its segments |
| Merge.Round5 | scripts/merge_nrwn_data.py:438 | `round(x, 5)` in units of 1e-5: the nearest unit |
| Merge.Round5OnGrid | scripts/merge_nrwn_data.py:438 | a value already on the 1e-5 grid rounds to itself |
| Merge.MaxNodeNumber | scripts/merge_nrwn_data.py:415-423 | the largest number among ids of the form n<digits>, 0 when there is none |
| Merge.EdgeExists | scripts/merge_nrwn_data.py:502-508 | true exactly when a listed edge joins the two nodes in either orientation |
| Merge.NodeFor | scripts/merge_nrwn_data.py:448-496 | a known rounded key gives its node; otherwise the first existing node within 500 m; otherwise node n<next> at the point, remembered under its key, with the counter moved on by one (the result is what `Resolve` gives), and the numbering bookkeeping is kept |
| Merge.NumberingAdd | scripts/merge_nrwn_data.py:462-471 | a new node at an unseen key takes the next number and keeps the numbering bookkeeping |
| Merge.KeyIndexMeaning | scripts/merge_nrwn_data.py:436-439 | the index fold holds exactly the nodes' rounded keys, and each key maps to the id of the last node with that key |
| Merge.IndexByKey | scripts/merge_nrwn_data.py:436-439 | the coordinate index is the fold KeyIndex: it holds exactly the existing nodes' rounded keys, a later node with the same key winning |
| Merge.AddFreshEdge | scripts/merge_nrwn_data.py:498-546 | appending an edge that passed the self-loop and duplicate checks keeps the new edges fresh, each with its track |
| Merge.FirstNewNumber | scripts/merge_nrwn_data.py:425 | max(largest existing number + 1, 500) |
| Merge.MintedIdsAreNew | scripts/merge_nrwn_data.py:425 | minted ids are above every existing number and so never name an existing node |
| Merge.ResolveEnds | scripts/merge_nrwn_data.py:448-496 | the start is resolved and then the end, the end seeing the start's new node, and the numbering bookkeeping is kept |
| Merge.ConnectEnds | scripts/merge_nrwn_data.py:498-546 | the self-loop and duplicate checks and the append give what Connect says, and the new edges stay fresh |
| Merge.IntegrateStepAdds | scripts/merge_nrwn_data.py:443-546 | a track with fewer than two points changes nothing; otherwise the nodes are those after resolving its start and then its end, and exactly one edge joining the two resolved nodes is added, with the track's whole point list as its geometry, when they differ and no existing or earlier new edge joins them; otherwise no edge is added |
| Merge.IntegrateOne | scripts/merge_nrwn_data.py:443-546 | one iteration of the track loop ends in the state IntegrateStep gives, and keeps the numbering bookkeeping and the freshness of the new edges |
| Merge.IntegrateStepTracks | scripts/merge_nrwn_data.py:443-546 | one merged track either leaves the new tracks as they were or appends exactly one, holding that track's whole point list, and only when it has two or more points |
| Merge.IntegrateToTracks | scripts/merge_nrwn_data.py:443-546 | over the first i tracks the loop only appends new tracks, at most one per merged track, each being the whole point list of a merged track with two or more points |
| Merge.IntegrateNrwnTracks | scripts/merge_nrwn_data.py:401-553 | new nodes are n<start>, n<start+1>, ... with start = max(largest existing number + 1, 500); they never reuse an existing id or share a rounded key; no new edge is a self-loop or parallel to an existing or earlier new edge, and each has a track with the same ends and length; the new nodes, edges and tracks are those of the fold IntegrateTo of IntegrateStep over the merged tracks, from the index of the existing nodes |
| Components.FindAt | scripts/merge_nrwn_data.py:560-565 | `find` on a known key returns its root and keeps the forest, with the path compressed |
| Components.PointAtRoot | scripts/merge_nrwn_data.py:563-564 | pointing a key straight at its root keeps the forest and every key's root |
| Components.Find | scripts/merge_nrwn_data.py:560-565 | a key not seen before is added as its own root; a known key keeps every key's position and root; the result is the key's root |
| Components.HangUnder | scripts/merge_nrwn_data.py:567-570 | hanging one root under another merges their trees and keeps the forest |
| Components.Union | scripts/merge_nrwn_data.py:567-570 | both keys end up with the same root, the keys already present keep their positions, and the tree of the first key's root hangs under the second's when they differ |
| Components.EndpointsMeaning | scripts/merge_nrwn_data.py:572-573 | a node is a key of the parent dictionary exactly when some edge has it at one of its ends |
| Components.KeptJoins | scripts/merge_nrwn_data.py:572-573 | edges already joined stay joined when one tree is hung under another |
| Components.KeptUniform | scripts/merge_nrwn_data.py:572-573 | a labelling that agrees on the ends of every edge so far agrees on every tree after the union, so only what the edges connect is joined |
| Components.UnionEdge | scripts/merge_nrwn_data.py:572-573 | one pass of the union loop joins one more edge and only what it connects |
| Components.UnionAll | scripts/merge_nrwn_data.py:572-573 | after the loop the keys are exactly the edges' ends, both ends of every edge share a root, and keys share a root only when the edges connect them |
| Components.PlaceKey | scripts/merge_nrwn_data.py:577-578 | adding one key to its root's component keeps the grouping bookkeeping |
| Components.GroupAll | scripts/merge_nrwn_data.py:576-578 | one non-empty component per root, each key in exactly the component of its root |
| Components.GroupingPartitions | scripts/merge_nrwn_data.py:576-580 | once every key is placed, each key is in exactly one component and none is empty |
| Components.SameComponentSameLabel | scripts/merge_nrwn_data.py:576-580 | keys in one component have the same root, so a labelling that agrees on every edge's ends agrees on them |
| Components.FindConnectedComponents | scripts/merge_nrwn_data.py:556-580 | non-empty, pairwise-disjoint components covering exactly the nodes named by an edge; both ends of every edge in the same component; nodes share a component only when the edges connect them |
| Components.NodeTable | scripts/merge_nrwn_data.py:599-601 | the lookup by id knows exactly the listed ids, the last record winning |
| Components.NodeTableLatest | scripts/merge_nrwn_data.py:599-601 | a record that no later record overrides is the one the lookup holds |
| Components.MainSplitNone | scripts/merge_nrwn_data.py:608-627 | the selection fold picks no main component exactly when no component shares a node with the original network, and then every component is floating |
| Components.MainSplitFirstLargest | scripts/merge_nrwn_data.py:608-627 | otherwise the fold picks, at its index, a component sharing an original node that is no smaller than any other such component and strictly larger than every such component before it |
| Components.MainSplitFloating | scripts/merge_nrwn_data.py:608-627 | with a main component picked, the floating ones together with it are a rearrangement of all the components |
| Components.SelectMain | scripts/merge_nrwn_data.py:608-627 | the loop equals the selection fold MainSplit, including the order in which components are queued as floating; no main component exactly when none shares a node with the original network; otherwise the first largest of those that do, with every other component floating |
| Components.ClosestAdd | scripts/merge_nrwn_data.py:654-656 | keeping the nearer of the best so far and a new pair keeps a closest pair |
| Components.Consider | scripts/merge_nrwn_data.py:645-656 | one comparison of a main node with a floating node keeps a closest pair |
| Components.ScanRow | scripts/merge_nrwn_data.py:645-656 | the inner loop keeps a closest pair over the main nodes compared with one floating node |
| Components.ClosestPair | scripts/merge_nrwn_data.py:635-656 | no pair exactly when no two nodes with known positions exist, one in each component; otherwise a pair of such nodes at the least distance |
| Components.ClosestMeaning | scripts/merge_nrwn_data.py:637-656 | a closest pair over the candidates is one pair at the least distance among the nodes with known positions |
| Components.ConnectNext | scripts/merge_nrwn_data.py:636-691 | one floating component: tied to the main component grown so far by one virtual edge exactly when a candidate pair exists, and then merged into it |
| Components.ConnectEach | scripts/merge_nrwn_data.py:635-691 | the floating components are taken in order; component i gets an edge exactly when it and the main component grown by the components tied before it have a candidate pair; edge k comes from component from[k] with from strictly increasing, runs from the grown main component to that component, is no longer than any candidate pair, and is virtual with a straight two-point track |
| Components.SplitComponents | scripts/merge_nrwn_data.py:603-627 | the components are the connected components of the merged edges (a non-empty disjoint cover of the edge ends, joined exactly by the edges) and the main and floating components are those the selection fold gives, the main one being the first largest that shares an original node |
| Components.ConnectFloatingSubgraphs | scripts/merge_nrwn_data.py:583-694 | the components are the connected components of the existing and new edges; nothing is added when none shares an original node; otherwise the main component is the first largest that does, the floating ones are the rest in the selection loop's order, and floating component i gets a virtual edge exactly when it has a candidate pair with the main component grown so far, that edge joining a closest such pair |
| Bridge.BridgeEdge | scripts/fix_ogema_connectivity.py:33-57 | the bridging edge joins the two nodes in the fixed direction, its length is their distance, and the length in km is that divided by 1000 |
| Bridge.BridgeTrack | scripts/fix_ogema_connectivity.py:75-86 | the bridging track has the edge's ends, the two node positions longitude first, and the edge's length |
| Bridge.Repaired | scripts/fix_ogema_connectivity.py:27-88 | a missing node id stops the repair; an edge present in either orientation leaves the files unchanged; otherwise exactly one edge and one track are appended, nothing else changes, and the edge count becomes the number of edges |
| Bridge.RepairedAppends | scripts/fix_ogema_connectivity.py:47-88 | the appended edge and track are the bridge between the two nodes' looked-up positions |
| Bridge.RepairedIdempotent | scripts/fix_ogema_connectivity.py:40-59 | running the repair twice leaves the same files as running it once |
| Bridge.RailwayFiles.constructor | scripts/fix_ogema_connectivity.py:22-28 | the loaded network and tracks |
| Bridge.RailwayFiles.AddBridge | scripts/fix_ogema_connectivity.py:21-95 | the files end as the repair says, with an outcome telling a missing node, an edge already present or an edge added |
| Connections.RowEntries | scripts/generate_connections.py:52-60 | one railway's stops give a settlement at most one entry per stop |
| Connections.RowEntriesMeaning | scripts/generate_connections.py:52-60 | an entry is filed under a name from one railway exactly when that railway has a stop with that name and year |
| Connections.EntriesForMeaning | scripts/generate_connections.py:49-62 | a settlement's entries are exactly the (railway, year) pairs of the timeline's stops that name it |
| Connections.FileStopsMeaning | scripts/generate_connections.py:52-60 | filing one railway's stops appends that railway's entries to each name's list, creating the list on the first stop |
| Connections.FiledMeaning | scripts/generate_connections.py:49-62 | after the whole timeline every name with a stop has a list holding exactly its entries, and no other name has one |
| Connections.LoadRailwayTimeline | scripts/generate_connections.py:44-62 | the mapping built stop by stop holds a key exactly for the settlements named in the timeline, each with exactly its entries |
| Connections.FirstYear | scripts/generate_connections.py:92-93 | the year found for a railway belongs to an entry of that railway |
| Connections.FirstYearMeaning | scripts/generate_connections.py:92-93 | a year is found exactly when the railway is listed, and it is the year of the first entry for that railway |
| Connections.ByConnectedYearTotal | scripts/generate_connections.py:103 | the sort key, the connected year, orders any two shared railways |
| Connections.GetAllSharedRailways | scripts/generate_connections.py:79-104 | an empty list on either side gives none; otherwise every railway both settlements lie on with non-zero first years appears once, with the later first year, nothing else appears, and the list is ordered by that year |
| Connections.GatherOne | scripts/generate_connections.py:90-100 | handling one shared railway keeps the gathered list exactly the qualifying railways handled so far |
| Connections.GatheredAll | scripts/generate_connections.py:87-100 | once every shared railway is handled, the list holds each qualifying railway once with its connected year and nothing else |
| Connections.SortedShared | scripts/generate_connections.py:102-104 | sorting the gathered railways by year yields the promised shared-railway list |
| Connections.FirstIsEarliest | scripts/generate_connections.py:171-172 | the first shared railway has the earliest connected year |
| Connections.SettlementRecord | scripts/generate_connections.py:124-147 | a record keeps the position; its railways are the settlement's entries reordered, absent when there are none; with entries, the first railway and arrival year come from the first of them; without, a recorded first railway other than "No" or "Missing" is kept, else both are absent |
| Connections.RecordEarliest | scripts/generate_connections.py:127-135 | the record's railways are sorted by year, so its arrival year is no later than any entry's |
| Connections.EarliestEntry | scripts/generate_connections.py:128 | the first entry of a year-sorted list has the smallest year |
| Connections.RoundTenth | scripts/generate_connections.py:180 | `round(distance, 1)` is within half a tenth of the distance |
| Connections.RoundTenthMonotone | scripts/generate_connections.py:216 | sorting on the rounded distance never puts a longer pair before a strictly shorter one, though it may tie them |
| Connections.ConnsForMirrored | scripts/generate_connections.py:154-212 | every connection of a settlement joins two known settlements and has a twin in the other settlement's list with the same distance, railway, year and list |
| Connections.DescribesSymmetric | scripts/generate_connections.py:79-104 | whether two settlements share a railway, and in which year, does not depend on their order |
| Connections.ConnOfDescribes | scripts/generate_connections.py:170-212 | a connection built from the shared-railway list names an earliest shared railway and its year, carries the whole list (each qualifying railway once, year-ordered) exactly when a second railway qualifies, and has no railway exactly when nothing is shared |
| Connections.ConnsForDescribe | scripts/generate_connections.py:154-212 | every connection in a settlement's list describes the railways that settlement and its neighbour share |
| Connections.GenerateConnections | scripts/generate_connections.py:107-216 | every settlement gets a record built from its timeline entries and a connection list; each list is a rearrangement, sorted by the rounded distance, of the connections its pairs give it, mirrored in the neighbour's list and describing their shared railways; the railway list recorded for every pair between known settlements is the shared-railway list of their two timelines |
| Connections.InitSettlements | scripts/generate_connections.py:123-148 | every settlement, and no other name, gets its record and an empty connection list |
| Connections.InitialisedStep | scripts/generate_connections.py:124-148 | one more settlement handled keeps every handled settlement's record and empty list |
| Connections.InitialisedDone | scripts/generate_connections.py:123-148 | once every settlement is handled, the record and list keys are the settlements |
| Connections.ConnectionsMeaning | scripts/generate_connections.py:150-216 | the sorted lists hold, per settlement, its connections in some order, and each is mirrored and describes its pair |
| Connections.AddPairsFromMeaning | scripts/generate_connections.py:154-212 | processing the pairs in file order appends to each settlement's list exactly the connections its pairs give it, and adds no names |
| Connections.AddPairs | scripts/generate_connections.py:154-212 | the loop over the pairs produces the lists the pairs give, with each recorded shared-railway list what the shared-railway rule returns for that pair |
| Connections.AllSharedStep | scripts/generate_connections.py:164-168 | one more pair extends the record of the shared railways found per pair |
| Connections.AllSharedMeaning | scripts/generate_connections.py:164-168 | every pair between known settlements has the shared-railway list of its two settlements' entries |
| Connections.AddOnePair | scripts/generate_connections.py:155-212 | a pair between known settlements appends a connection to each side, computed from the two settlements' shared railways; any other pair changes nothing |
| Connections.AddPairsFromStep | scripts/generate_connections.py:154 | one more pair of the file applies that pair's appends to the lists built so far |
| Connections.SortLists | scripts/generate_connections.py:214-216 | every list is reordered by distance and keeps its connections |
| Timeline.LastYear | scripts/update_multi_railways.py:158-161 | the year found for a railway belongs to an entry on that railway |
| Timeline.LastYearAppend | scripts/update_multi_railways.py:159-161 | over a concatenation the last entry for a railway comes from the later part when it has one, else from the earlier part |
| Timeline.EnterStopsMeaning | scripts/update_multi_railways.py:160-161 | entering one railway's stops gives each (settlement, railway) key the year of its last such stop and leaves every other key as it was |
| Timeline.YearLookupMeaning | scripts/update_multi_railways.py:152-163 | the lookup holds, for each settlement and railway, the year of the settlement's last stop on that railway in file order |
| Timeline.LoadYearLookup | scripts/update_multi_railways.py:158-161 | the nested loop over the timeline file builds exactly that lookup |
| Timeline.ParseRow | scripts/update_multi_railways.py:182-194 | a row whose cell names any railway yields a non-empty list of distinct railway categories |
| Timeline.ParseRows | scripts/update_multi_railways.py:182-187 | every spreadsheet row is parsed, one result per row, in row order |
| Timeline.Collect | scripts/update_multi_railways.py:189-194 | every settlement kept has a non-empty list of distinct categories |
| Timeline.Collected | scripts/update_multi_railways.py:179-194 | the settlements collected from the sheet all have non-empty lists of distinct categories |
| Timeline.CollectDomain | scripts/update_multi_railways.py:189-194 | a settlement is kept exactly when one of its rows names a railway |
| Timeline.CollectLastRow | scripts/update_multi_railways.py:189-194 | a kept settlement has the railways and first year of its last row that names any railway |
| Timeline.CollectSkipLast | scripts/update_multi_railways.py:189-194 | a final row that names no railway for a settlement leaves that settlement's entry as the earlier rows made it |
| Timeline.LastRowExtend | scripts/update_multi_railways.py:182-194 | the last row naming a settlement stays the last when a row not naming it follows |
| Timeline.CollectRows | scripts/update_multi_railways.py:182-194 | the row loop builds exactly the collected settlements |
| Timeline.CollectStep | scripts/update_multi_railways.py:187-194 | one more row replaces its settlement's entry when it names a railway and changes nothing otherwise |
| Timeline.YearPriority | scripts/update_multi_railways.py:213-232 | a settlement goes on a listed railway with the researched year when there is one, else the existing timeline's year, else the sheet's non-zero first year for its first railway only; with none of these it is not placed |
| Timeline.PlacedAt | scripts/update_multi_railways.py:214-232 | the year for a railway listed once is the one its own position gives, once the loop has reached it |
| Timeline.Placing | scripts/update_multi_railways.py:214-240 | placing a settlement adds to no railway outside the timeline |
| Timeline.PlacingMeaning | scripts/update_multi_railways.py:214-240 | placing a settlement not yet listed leaves every other settlement's stops alone, puts it on a railway exactly with the year the priority rule gives, and keeps each railway free of repeated names |
| Timeline.AppendUnique | scripts/update_multi_railways.py:235-240 | appending a settlement that a railway does not list yet keeps that railway's names unique |
| Timeline.AssembleStep | scripts/update_multi_railways.py:213-240 | placing one more settlement keeps every railway's list exactly the placed stops of the settlements handled so far |
| Timeline.AssembleTimeline | scripts/update_multi_railways.py:206-240 | the timeline has exactly the five categories, each holding exactly the stops the priority rule places and each name at most once |
| Timeline.PlaceSettlement | scripts/update_multi_railways.py:214-240 | the inner loop over one settlement's railways gives the placement the priority rule describes and keeps the categories |
| Timeline.ByYearNameTotal | scripts/update_multi_railways.py:249 | the (year, name) sort key orders any two stops |
| Timeline.ByYearNameTransitive | scripts/update_multi_railways.py:249 | the (year, name) order is transitive |
| Timeline.SortTimeline | scripts/update_multi_railways.py:247-249 | the five railways come out in file order, each list a rearrangement of its stops sorted by (year, name) |
| Timeline.SortedLinesFacts | scripts/update_multi_railways.py:247-249 | sorting each railway's list keeps its stops and sorts them by (year, name) |
| Timeline.CountUnique | scripts/update_multi_railways.py:235-236 | a list with unique names holds each stop at most once |
| Timeline.PermutationUnique | scripts/update_multi_railways.py:249 | a rearrangement of a list with unique names has unique names |
| Timeline.CountPair | scripts/update_multi_railways.py:235-236 | two equal stops at different positions count twice |
| Timeline.UpdateMultiRailways | scripts/update_multi_railways.py:166-280 | the written timeline has the five railways in file order, each holding exactly the stops the priority rule places for the collected settlements, each name once, sorted by (year, name) |
| Timeline.SortedLinesMeaning | scripts/update_multi_railways.py:247-249 | the sorted lists hold exactly the placed stops, each name once |
| Timeline.SortedFirst | scripts/update_multi_railways.py:249 | the first stop of a sorted list precedes every other in (year, name) order |
| Timeline.FirstMember | scripts/update_multi_railways.py:249 | a non-empty list holds its first stop |
| Timeline.TailMembers | scripts/update_multi_railways.py:249 | the tail of a list with unique names holds every stop but the first, with unique names |
| Timeline.SortedListDetermined | scripts/update_multi_railways.py:247-249 | two (year, name)-sorted lists with unique names and the same stops are equal |
| Timeline.TimelineDetermined | scripts/update_multi_railways.py:213-249 | any two outputs with the same stops per railway are identical, so dictionary iteration order does not show in the written file |
| RailwayLines.Alias | scripts/update_multi_railways.py:26-38 | every alias maps to one of the five railway categories |
| RailwayLines.CategoriesAreAliases | scripts/update_multi_railways.py:26-38 | the four named categories are aliases of themselves, and "Other" is only ever a value |
| RailwayLines.NormalizeRailway | scripts/update_multi_railways.py:102-109 | a name normalises to a category, and it normalises at all exactly when its cleaned key, or that key upper-cased, is an alias |
| RailwayLines.NormalizeIgnoresCase | scripts/update_multi_railways.py:102-109 | a name and its upper-case form normalise alike |
| RailwayLines.UpperNoLower | scripts/update_multi_railways.py:104 | an upper-cased name has no lower-case letter |
| RailwayLines.UpperFixed | scripts/update_multi_railways.py:109 | upper-casing text without lower-case letters changes nothing |
| RailwayLines.StripNoLower | scripts/update_multi_railways.py:107 | stripping adds no lower-case letter |
| RailwayLines.AliasKeyUpper | scripts/update_multi_railways.py:104-109 | the key looked up has no lower-case letter, so the second, upper-cased lookup uses the same key |
| RailwayLines.RemoveNoteNoLower | scripts/update_multi_railways.py:106 | removing the note adds no lower-case letter |
| RailwayLines.MixedCaseAliasUnused | scripts/update_multi_railways.py:29 | the mixed-case alias "CNoR" is never the key looked up |
| RailwayLines.Placeholder | scripts/update_multi_railways.py:131 | a placeholder holds no comma, so protecting a note never adds a split point |
| RailwayLines.PartRailway | scripts/update_multi_railways.py:136-145 | a part names a railway category or nothing |
| RailwayLines.Named | scripts/update_multi_railways.py:136-145 | every part gives its own result, each a category or nothing |
| RailwayLines.Dedup | scripts/update_multi_railways.py:146-147 | the collected railways are exactly the ones named, without repeats |
| RailwayLines.ParsedRailways | scripts/update_multi_railways.py:112-149 | a parsed cell lists distinct categories, and an empty cell or one that is only a remark lists none |
| RailwayLines.DedupWithin | scripts/update_multi_railways.py:146-147 | the collected railways are categories |
| RailwayLines.ParseRailwayLines | scripts/update_multi_railways.py:112-149 | the parse of a cell is the railways its parts name, in order of first appearance, without repeats |
| RailwayLines.ParseParts | scripts/update_multi_railways.py:124-149 | protecting the notes, splitting on commas, restoring each part and collecting new names gives the railways the parts name, without repeats |
| RailwayLines.RestorePart | scripts/update_multi_railways.py:138-139 | the loop puts every note back in place of its placeholder |
| RailwayLines.NamedStep | scripts/update_multi_railways.py:142-147 | one more part adds its railway unless it has none or the railway is already listed |
| RailwayLines.FirstAt | scripts/update_multi_railways.py:146-147 | the position found is the first at which the railway is named |
| RailwayLines.DedupFirstAppearance | scripts/update_multi_railways.py:146-147 | the railways are listed in the order they are first named |
| RailwayLines.FirstAtPrefix | scripts/update_multi_railways.py:146-147 | naming a railway again later does not move its first appearance |
| RailwayLines.DistinctWithin | scripts/update_multi_railways.py:146-147 | distinct names drawn from a list are no more than the list |
| RailwayLines.ParsedAtMostFive | scripts/update_multi_railways.py:112-149 | a cell names at most five railways |
| RailwayLines.ParsedInPartOrder | scripts/update_multi_railways.py:124-149 | a cell that is not a remark is read in the order its parts name railways |
| RailwayLines.ProtectCommas | scripts/update_multi_railways.py:128-131 | protecting notes never adds a comma |
| RailwayLines.PartsAtMostCommas | scripts/update_multi_railways.py:128-134 | a cell has at least one part and at most one more than it has commas |
| RailwayLines.OneNoteCommasProtected | scripts/update_multi_railways.py:128-134 | with one note, the commas inside every occurrence of it are kept out of the split |
| RailwayLines.NoNotesPlainSplit | scripts/update_multi_railways.py:128-134 | without notes the cell is split on every comma |
| PyText.StripLeft | scripts/update_multi_railways.py:104 | the result is a suffix of the text that does not start with whitespace, and everything dropped is whitespace |
| PyText.StripRight | scripts/update_multi_railways.py:104 | the result is a prefix of the text that does not end with whitespace, and everything dropped is whitespace |
| PyText.Strip | scripts/update_multi_railways.py:104 | the stripped text is no longer and neither starts nor ends with whitespace |
| PyText.StripLeftNoSpace | scripts/update_multi_railways.py:107 | text that does not start with whitespace is left alone |
| PyText.StripIdempotent | scripts/update_multi_railways.py:104-107 | stripping twice is stripping once |
| PyText.Upper | scripts/update_multi_railways.py:104 | upper-casing keeps the length |
| PyText.Lower | scripts/update_multi_railways.py:121 | lower-casing keeps the length |
| PyText.UpperIdempotent | scripts/update_multi_railways.py:104-109 | upper-cased text has no lower-case ASCII letter, so upper-casing again changes nothing |
| PyText.StripUpper | scripts/update_multi_railways.py:104 | stripping and upper-casing commute |
| PyText.StripRightUpper | scripts/update_multi_railways.py:104 | stripping the right end and upper-casing commute |
| PyText.StripLeftUpper | scripts/update_multi_railways.py:104 | stripping the left end and upper-casing commute |
| PyText.CountAppend | scripts/update_multi_railways.py:134 | characters of a concatenation are counted part by part |
| PyText.CountCons | scripts/update_multi_railways.py:134 | one more leading character adds one to its own count only |
| PyText.ReplaceAllCount | scripts/update_multi_railways.py:131 | each replaced occurrence trades the pattern's characters for the replacement's |
| PyText.CountAbsent | scripts/update_multi_railways.py:134 | a character that does not occur is counted zero times |
| PyText.ReplaceAllKeepsOut | scripts/update_multi_railways.py:131 | a replacement without a character never adds one |
| PyText.ReplaceAllAbsent | scripts/update_multi_railways.py:131 | text without the pattern is left alone |
| PyText.Split | scripts/update_multi_railways.py:134 | the text splits into one more piece than it has separators, and no piece holds a separator |
| PyText.SplitJoin | scripts/update_multi_railways.py:134 | joining the pieces with the separator gives the text back |
| PyText.JoinLast | scripts/update_multi_railways.py:134 | adding a character to the last piece adds it to the end of the joined text |
| PyText.LeadingLetters | scripts/update_multi_railways.py:142 | the match is the longest prefix of letters and ampersands |
| PyText.NextIndex | scripts/update_multi_railways.py:129 | the index found is the first at or after the start holding the character, and none means there is none |
| PyText.LastIndex | scripts/update_multi_railways.py:106 | the index found is the last holding the character, and none means there is none |
| PyText.NotesFrom | scripts/update_multi_railways.py:129 | every note found is a parenthesis pair with at least one character between and no closing parenthesis inside |
| PyText.Notes | scripts/update_multi_railways.py:129 | every note found has the shape the pattern matches |
| PyText.SpaceRunStart | scripts/update_multi_railways.py:106 | the start found begins the maximal run of whitespace before the position |
| PyText.RemoveNote | scripts/update_multi_railways.py:106 | removing the note never lengthens the text |
| PyText.RemoveNoteChars | scripts/update_multi_railways.py:106 | removing the note only drops characters |
| PyText.SlicesChars | scripts/update_multi_railways.py:106 | cutting a slice out keeps only characters of the text |
| PyText.RemoveNoteLeavesNoNote | scripts/update_multi_railways.py:106 | after the note is removed no '(' has a ')' after it, so removing again changes nothing |
| PyText.NoNoteFixed | scripts/update_multi_railways.py:106 | text without a note is left alone |
| NodeIds.DigitChar | scripts/build_railway_network.py:93 | the digit character written for a digit has that value |
| NodeIds.DigitValue | scripts/merge_nrwn_data.py:420 | a digit character's value is below ten |
| NodeIds.Decimal | scripts/build_railway_network.py:93 | the decimal text of a number is a non-empty run of digits |
| NodeIds.DecimalRoundTrip | scripts/merge_nrwn_data.py:420 | reading back the decimal text of a number gives the number |
| NodeIds.NodeNumberOfName | scripts/merge_nrwn_data.py:417-420 | the number read from a minted node id is the index it was minted from |
| NodeIds.NodeNameInjective | scripts/build_railway_network.py:93 | two indices mint the same node id only when they are equal |
| Builder.PiecesOf | scripts/build_railway_network.py:168-182 | a track with b split points gives one piece fewer than it has split points |
| Builder.PiecesJoinPoints | scripts/build_railway_network.py:168-182 | gluing the pieces at their shared joints gives back the track from the first split point to the last |
| Builder.PiecesChain | scripts/build_railway_network.py:168-182 | each piece has at least two points, and consecutive pieces share their joint point |
| Minimum.ClosestIndex | scripts/verify_railway_routes.py:139-145 | for a non-empty list, the index is the first holding a smallest distance |
| ShortestPath.HopLeast | scripts/verify_railway_routes.py:75-84 | no adjacency entry towards a node is cheaper than the cheapest edge to it |
| ShortestPath.HopAttained | scripts/verify_railway_routes.py:75-84 | the cheapest edge to an adjacent node is an actual adjacency entry |
| ShortestPath.PathWeightNonNegative | scripts/verify_railway_routes.py:75-84 | with non-negative track lengths, a walk never weighs less than zero |
| Ordering.InsertSorted | scripts/snap_settlements_to_network.py:229 | inserting into a sorted list keeps it sorted, and the new head is the inserted value or the old head |

## Left out

- File I/O, JSON and CSV reading and writing, the `load_*` helpers, `update_network_files` (scripts/merge_nrwn_data.py:697-742) and every printed statistic or report: each script's inputs and outputs are the parameters and results of the modelled operations.
- GML/XML parsing with `ElementTree.iterparse` (scripts/merge_nrwn_data.py:87-162) is not modelled: `Merge.ParsePoslist` starts from the already tokenised coordinate list.
- Shapefile reading, `is_in_saskatchewan` and the pyproj projections (scripts/build_railway_network.py:55-71,187-202; scripts/snap_settlements_to_network.py:51-63,162) are foreign calls. Tracks arrive already filtered to the province, and points arrive already projected to metres.
- The haversine formula and the square root of the Euclidean distance are floating-point trigonometry and roots. They are `Metric` parameters, and the model proves nothing about their numeric values. The one exception is the nearest chord point (`Snapper.PointToSegmentNearest`), which takes the metric to be a non-decreasing function of the exact squared distance (`Geometry.EuclideanLike`).
- Floating point in general: reals are exact. Python's `round(x)` and `round(x, 5)` are modelled as half-even rounding of the exact value, not of its binary approximation.
- `round(...)` applied only to values written out is formatting and is left out. This covers edge and track lengths, railway distances, snap distances, and bridge lengths. The distances in connection lists are different: they are stored rounded to a tenth and sorted on that rounded value, and the model does so (`Connections.RoundTenth`).
- networkx in scripts/calculate_railway_distances.py (`dijkstra_path`, graph construction) is not modelled. Routing there is a parameter that returns a walk of the graph or nothing, and `Distances.CalculateRailwayDistance` is proved for any such route.
- `connected_components` and the degree statistics of `analyze_network` (scripts/build_railway_network.py:317-352) only report on the finished graph, so they are left out.
- pandas (`read_excel`, `pd.isna`, `int(first_year)`): a spreadsheet row arrives as a settlement name, an optional cell text and an optional integer year.
- The regular expressions are written as explicit string functions for the three patterns used.
  - `.` not matching a line break is not modelled: cells are taken to be single lines.
  - `str.strip`, `str.upper` and `str.lower` are modelled on ASCII: other whitespace and non-ASCII letters are kept unchanged.
- The researched year table (`KNOWN_RAILWAY_YEARS`), the builder-name table and the node ids of the Ogema repair are data, not behaviour. They are parameters, and `Bridge.Ogema` holds the repair the pipeline runs.
- The order in which Python iterates over a set or a dictionary is not modelled.
  - This covers the shared railways in `get_all_shared_railways`, the components in `connect_floating_subgraphs` and the settlements in `main` of scripts/update_multi_railways.py.
  - The model picks any element, so every contract holds whichever order Python uses.
  - Railways with equal connected years can therefore appear in either order.
- Connections.SortLists: Python's sort is stable, so entries whose rounded distances tie keep their file order. The model proves each list sorted and a rearrangement of its entries, not that tie order; `Connections.GenerateConnections` inherits the same gap.
- `Components.Find`, `Components.Union`: the union-find `parent` dictionary is a map from keys to positions in an insertion-ordered key list. The model proves the partition that the components form, not the tree shapes Python builds.
- `NodeIds.NodeNumber` reads back only ids of the form `n` followed by decimal digits. `int()` also accepts a sign, surrounding whitespace and underscores, and such ids never occur among minted nodes.
- The alias key `'CNoR'` of the alias table can never be looked up, because the lookup key is upper-cased first (`RailwayLines.MixedCaseAliasUnused`). The key `'CNOR'` gives the same category.
- Merge.ChainClassification: when no joined segment is a main line the script takes `list(chain_classifications)[0]`, whose choice depends on set iteration order; the model takes any joined classification. `Merge.BuildChains`, `Merge.MergeOperator` and `Merge.MergeConsecutiveSegments` therefore describe each first-pass chain's classification only up to that choice.
- Subdivision names: a chain keeps them as a set. The script joins them with `', '` (scripts/merge_nrwn_data.py:315,390) and splits them again at line 331, which gives back the same set unless a name itself contains `', '`.
- RouteGeometry.ExtendPathToEdge: computes the corrected splice of the first Findings row, not the as-written `extension_coords[:-1] + coords` of scripts/verify_railway_routes.py:167; `RouteGeometry.ExtendAsWrittenMissesClosest` models the line as written.
- EdgeGeometry.GetNodeOnlyGeometry: computes the corrected splice of the second Findings row, not the as-written `portion[:-1][::-1] + [node]` of scripts/verify_railway_routes.py:352; `EdgeGeometry.NodeOnlyAsWrittenMissesClosest` models the line as written.
- Verification.GetRoutedGeometry: builds on `RouteGeometry.ExtendPathToEdge`, so it returns the corrected geometry, not that of scripts/verify_railway_routes.py:167.
- Verification.RoutedGeometry: the same, through `Verification.GetRoutedGeometry`.
- Verification.GetLocalGeometry: builds on `EdgeGeometry.GetNodeOnlyGeometry`, so its node-only case returns the corrected geometry, not that of scripts/verify_railway_routes.py:352.
- Verification.VerifyConnection: judges the corrected geometries above. A connection whose verdict depends on the dropped closest vertex may be judged differently by the script.
- Branches that cannot fire are not modelled as reachable code; lemmas show they are dead instead.
  - The `if not segments` fallback of scripts/build_railway_network.py:275-277 never fires, because a track with at least two points always yields a piece.
  - The `len(seg_points) < 2` skip at lines 281-282 never fires either (`Builder.PiecesOfWellFormed`).
- `Snapper.EdgeDistances`, `Snapper.NearestEdge`, `Snapper.NearestEdgeIsFirstMinimum`, `Snapper.FindNearestEdgePoint`, `Snapper.SnapOne`, `Snapper.SnapOneIsClosest` and `Snapper.SnapSettlements` require every edge to name two known nodes (`EdgesIndexed`). The script looks both ends up with `nodes[...]` and fails with a `KeyError` on an edge naming an unknown node (scripts/snap_settlements_to_network.py:95-96). The network builder never writes such an edge, because every edge it adds joins two nodes it has resolved, so that failure is not modelled.
- `Snapper.SnapOne` requires a non-empty node list. The script's nearest-node search over an empty network returns no node, and the script then fails with a `KeyError` (scripts/snap_settlements_to_network.py:207).
- The report loop of `main` in scripts/verify_railway_routes.py (lines 426 onwards) deduplicates pairs for printing only, so it is not modelled.
- The issue messages built by `verify_connection` are not modelled. An issue is its side, its distance and whether it is only a warning.
- The sample listing of multi-railway settlements in scripts/update_multi_railways.py:256-276 only prints.
- scripts/create_data_issues_doc.py is not part of this model: it only writes a document.

## Findings

| source | as written | input that shows it | evidently intended | confidence | as-written member | corrected member |
|---|---|---|---|---|---|---|
| scripts/verify_railway_routes.py:164-167 | at the start of a route the extension is `extension_coords[:-1] + coords`. The extension runs from the track end nearest the route towards the settlement's closest vertex, so this drops the closest vertex and keeps the vertex that meets the route | a three-vertex track (0,0), (1,0), (2,0), a route starting at (0,0), and a settlement at (2,0) (Manhattan metric): the route is extended by (0,0), (1,0) and still starts at (0,0) | the mirror of the end case: the extension reversed, without the vertex that meets the route, so the route starts at (2,0) | not executed | RouteGeometry.ExtendAsWrittenMissesClosest | RouteGeometry.ExtendPathToEdge |
| scripts/verify_railway_routes.py:349-352 | when the edge settlement comes first, the geometry is `portion[:-1][::-1] + [node]`. The portion runs from the shared node to the settlement's closest vertex, so this drops the closest vertex and keeps the node's own vertex | the same track, the edge settlement at (2,0), and the node settlement at (-1,0) on node (0,0): the geometry is (1,0), (0,0), (-1,0) | the mirror of the node-first case: the portion reversed without the node's own vertex, giving (2,0), (1,0), (-1,0) | not executed | EdgeGeometry.NodeOnlyAsWrittenMissesClosest | EdgeGeometry.GetNodeOnlyGeometry |
