/**
 * Snapping settlements onto the railway graph (scripts/snap_settlements_to_network.py).
 *
 * Every settlement is compared with every node and with the straight chord between the two
 * nodes of every edge, in projected metres; the edge wins only when it is strictly closer than
 * the nearest node. The projection from latitude/longitude is done before the model starts:
 * settlements and nodes arrive with projected coordinates, and `euclid` is the projected
 * Euclidean distance (the square root of SqDist).
 */
module Snapper {
  import opened Wrappers
  import opened Geometry
  import opened Minimum
  import opened Ordering

  const OnNetworkThreshold: real := 5000.0
  const NearNetworkThreshold: real := 15000.0
  const MaxSnapDistance: real := 50000.0

  // ---------------------------------------------------------------------------------------------
  // Projection of a point onto an edge's chord

  datatype SegmentSnap = SegmentSnap(dist: real, t: real)

  /**
   * The clamped projection parameter max(0, min(1, dot / len2)) for a chord of positive squared
   * length len2, with the clamping done by comparing the numerator with the denominator: for
   * len2 > 0, dot / len2 < 0 exactly when dot < 0 and dot / len2 > 1 exactly when dot > len2.
   */
  function ClampedRatio(dot: real, len2: real): (t: real)
    ensures 0.0 <= t <= 1.0
    ensures dot <= 0.0 ==> t == 0.0
    ensures dot >= len2 > 0.0 ==> t == 1.0
    ensures 0.0 < dot < len2 ==> t * len2 == dot
  {
    if dot <= 0.0 then 0.0
    else if dot >= len2 then 1.0
    else
      var t := dot / len2;
      assert t * len2 == dot;
      t
  }

  /**
   * point_to_segment_distance_with_t: the distance from p to the chord a-b and the position t of
   * the closest chord point. A chord whose ends coincide gives t = 0 and the distance to a.
   */
  function PointToSegment(p: Point, a: Point, b: Point, euclid: Metric): (r: SegmentSnap)
    ensures 0.0 <= r.t <= 1.0
    ensures a == b ==> r.t == 0.0 && r.dist == euclid(p, a)
    ensures a != b ==> r.t == ClampedRatio(Dot(p, a, b), SqDist(b, a))
    ensures r.dist == euclid(p, Lerp(a, b, r.t))
  {
    var dx, dy := b.x - a.x, b.y - a.y;
    if dx == 0.0 && dy == 0.0 then
      assert Lerp(a, b, 0.0) == a;
      SegmentSnap(euclid(p, a), 0.0)
    else
      assert a != b;
      var t := ClampedRatio(Dot(p, a, b), SqDist(b, a));
      SegmentSnap(euclid(p, Lerp(a, b, t)), t)
  }

  lemma {:induction false} QuadraticGap(s: real, t: real, len2: real, dot: real)
    ensures (s * s * len2 - 2.0 * s * dot) - (t * t * len2 - 2.0 * t * dot) == (s - t) * (len2 * (s + t) - 2.0 * dot)
  {
  }

  lemma {:induction false} NonNegativeProduct(u: real, v: real)
    requires u >= 0.0 && v >= 0.0
    ensures u * v >= 0.0
  {
  }

  /** Over 0 <= s <= 1, the quadratic c - 2 s dot + s^2 len2 (len2 >= 0) is least at the clamped ratio. */
  lemma {:induction false} ClampedRatioMinimises(c: real, dot: real, len2: real, s: real)
    requires len2 >= 0.0 && 0.0 <= s <= 1.0
    ensures Quad(c, dot, len2, ClampedRatio(dot, len2)) <= Quad(c, dot, len2, s)
  {
    var t := ClampedRatio(dot, len2);
    QuadraticGap(s, t, len2, dot);
    if dot <= 0.0 {
      NonNegativeProduct(len2, s);
      NonNegativeProduct(s, len2 * s - 2.0 * dot);
    } else if dot >= len2 {
      assert t == 1.0;
      NonNegativeProduct(len2, 1.0 - s);
      assert (s - 1.0) * (len2 * (s + 1.0) - 2.0 * dot) == (1.0 - s) * (2.0 * dot - len2 * (s + 1.0));
      NonNegativeProduct(1.0 - s, 2.0 * dot - len2 * (s + 1.0));
    } else {
      assert len2 * (s + t) - 2.0 * dot == len2 * (s - t);
      NonNegativeProduct(len2, (s - t) * (s - t));
      assert (s - t) * (len2 * (s - t)) == len2 * ((s - t) * (s - t));
    }
  }

  /** The clamped ratio gives the chord point nearest to p, in squared distance. */
  lemma {:induction false} ClampedRatioNearest(p: Point, a: Point, b: Point, s: real)
    requires 0.0 <= s <= 1.0
    ensures SqDist(p, Lerp(a, b, ClampedRatio(Dot(p, a, b), SqDist(b, a)))) <= SqDist(p, Lerp(a, b, s))
  {
    SqDistNonNegative(b, a);
    var t := ClampedRatio(Dot(p, a, b), SqDist(b, a));
    SqDistAlongChord(p, a, b, s);
    SqDistAlongChord(p, a, b, t);
    ClampedRatioMinimises(SqDist(p, a), Dot(p, a, b), SqDist(b, a), s);
  }

  /**
   * With the projected Euclidean distance, the distance returned is the least distance from p to
   * any point of the chord, so in particular no more than the distance to either end.
   */
  lemma {:induction false} PointToSegmentNearest(p: Point, a: Point, b: Point, euclid: Metric, s: real)
    requires EuclideanLike(euclid) && 0.0 <= s <= 1.0
    ensures PointToSegment(p, a, b, euclid).dist <= euclid(p, Lerp(a, b, s))
    ensures PointToSegment(p, a, b, euclid).dist <= euclid(p, a)
    ensures PointToSegment(p, a, b, euclid).dist <= euclid(p, b)
  {
    assert Lerp(a, b, 0.0) == a;
    assert Lerp(a, b, 1.0) == b;
    if a == b {
      assert Lerp(a, b, s) == a;
    } else {
      ClampedRatioNearest(p, a, b, s);
      ClampedRatioNearest(p, a, b, 0.0);
      ClampedRatioNearest(p, a, b, 1.0);
    }
  }

  /** At either end of the chord the parameter is 0 or 1 and the distance is the distance to that end. */
  lemma {:induction false} PointToSegmentAtEnds(p: Point, a: Point, b: Point, euclid: Metric)
    ensures PointToSegment(p, a, b, euclid).t == 0.0 ==> PointToSegment(p, a, b, euclid).dist == euclid(p, a)
    ensures PointToSegment(p, a, b, euclid).t == 1.0 ==> PointToSegment(p, a, b, euclid).dist == euclid(p, b)
  {
    assert Lerp(a, b, 0.0) == a;
    assert Lerp(a, b, 1.0) == b;
  }

  // ---------------------------------------------------------------------------------------------
  // Snap quality

  datatype Quality = OnNetwork | NearNetwork | Distant | OffNetwork

  /** classify_snap_quality: the four distance bands, each closed at its upper threshold. */
  function ClassifySnapQuality(d: real): (q: Quality)
    ensures q == OnNetwork <==> d <= OnNetworkThreshold
    ensures q == NearNetwork <==> OnNetworkThreshold < d <= NearNetworkThreshold
    ensures q == Distant <==> NearNetworkThreshold < d <= MaxSnapDistance
    ensures q == OffNetwork <==> MaxSnapDistance < d
  {
    if d <= OnNetworkThreshold then OnNetwork
    else if d <= NearNetworkThreshold then NearNetwork
    else if d <= MaxSnapDistance then Distant
    else OffNetwork
  }

  function Rank(q: Quality): nat {
    match q
    case OnNetwork => 0
    case NearNetwork => 1
    case Distant => 2
    case OffNetwork => 3
  }

  /** A settlement farther away never gets a better class. */
  lemma {:induction false} ClassifyMonotone(d1: real, d2: real)
    requires d1 <= d2
    ensures Rank(ClassifySnapQuality(d1)) <= Rank(ClassifySnapQuality(d2))
  {
  }

  // ---------------------------------------------------------------------------------------------
  // Nearest node and nearest edge

  /**
   * The node index: node ids in the network file's order and their projected positions (a
   * Python dict keyed by id).
   */
  datatype NodeIndex = NodeIndex(order: seq<string>, pos: map<string, Point>)

  ghost predicate Indexed(index: NodeIndex) {
    forall k :: 0 <= k < |index.order| ==> index.order[k] in index.pos
  }

  /** A network edge as the snapper reads it: its two node ids and its length in km. */
  datatype NetEdge = NetEdge(source: string, target: string, lengthM: real, lengthKm: real)

  ghost predicate EdgesIndexed(edges: seq<NetEdge>, index: NodeIndex) {
    forall k :: 0 <= k < |edges| ==> edges[k].source in index.pos && edges[k].target in index.pos
  }

  function NodeDistances(p: Point, index: NodeIndex, euclid: Metric): (ds: seq<real>)
    requires Indexed(index)
    ensures |ds| == |index.order|
    ensures forall k :: 0 <= k < |ds| ==> ds[k] == euclid(p, index.pos[index.order[k]])
  {
    seq(|index.order|, k requires 0 <= k < |index.order| => euclid(p, index.pos[index.order[k]]))
  }

  function EdgeSnap(p: Point, e: NetEdge, index: NodeIndex, euclid: Metric): SegmentSnap
    requires e.source in index.pos && e.target in index.pos
  {
    PointToSegment(p, index.pos[e.source], index.pos[e.target], euclid)
  }

  function EdgeDistances(p: Point, edges: seq<NetEdge>, index: NodeIndex, euclid: Metric): (ds: seq<real>)
    requires EdgesIndexed(edges, index)
    ensures |ds| == |edges|
    ensures forall k :: 0 <= k < |ds| ==> ds[k] == EdgeSnap(p, edges[k], index, euclid).dist
  {
    seq(|edges|, k requires 0 <= k < |edges| => EdgeSnap(p, edges[k], index, euclid).dist)
  }

  datatype NodeHit = NodeHit(id: string, dist: real)

  datatype EdgeHit = EdgeHit(source: string, target: string, dist: real, t: real, lengthKm: real)

  /** What find_nearest_node settles on: the first node at the smallest distance. */
  function NearestNode(p: Point, index: NodeIndex, euclid: Metric): Option<NodeHit>
    requires Indexed(index)
  {
    match FirstMin(NodeDistances(p, index, euclid))
    case None => None
    case Some(k) => Some(NodeHit(index.order[k], euclid(p, index.pos[index.order[k]])))
  }

  /** What find_nearest_edge_point settles on: the first edge whose chord is closest. */
  function NearestEdge(p: Point, edges: seq<NetEdge>, index: NodeIndex, euclid: Metric): Option<EdgeHit>
    requires EdgesIndexed(edges, index)
  {
    match FirstMin(EdgeDistances(p, edges, index, euclid))
    case None => None
    case Some(k) =>
      var snap := EdgeSnap(p, edges[k], index, euclid);
      Some(EdgeHit(edges[k].source, edges[k].target, snap.dist, snap.t, edges[k].lengthKm))
  }

  /** No node is strictly closer than the one found, and every earlier node is strictly farther. */
  lemma {:induction false} NearestNodeIsFirstMinimum(p: Point, index: NodeIndex, euclid: Metric)
    requires Indexed(index)
    ensures NearestNode(p, index, euclid).None? <==> |index.order| == 0
    ensures NearestNode(p, index, euclid).Some? ==>
      exists k :: 0 <= k < |index.order| && index.order[k] == NearestNode(p, index, euclid).value.id
        && IsFirstMin(NodeDistances(p, index, euclid), k)
  {
    var ds := NodeDistances(p, index, euclid);
    var r := FirstMin(ds);
    if r.Some? {
      assert index.order[r.value] == NearestNode(p, index, euclid).value.id;
    }
  }

  /** The edge found has a chord no farther than any other edge's, its t lies in [0, 1]. */
  lemma {:induction false} NearestEdgeIsFirstMinimum(p: Point, edges: seq<NetEdge>, index: NodeIndex, euclid: Metric)
    requires EdgesIndexed(edges, index)
    ensures NearestEdge(p, edges, index, euclid).None? <==> |edges| == 0
    ensures NearestEdge(p, edges, index, euclid).Some? ==>
      var h := NearestEdge(p, edges, index, euclid).value;
      && 0.0 <= h.t <= 1.0
      && (exists k :: 0 <= k < |edges| && edges[k].source == h.source && edges[k].target == h.target
                   && IsFirstMin(EdgeDistances(p, edges, index, euclid), k))
  {
    var ds := EdgeDistances(p, edges, index, euclid);
    var r := FirstMin(ds);
    if r.Some? {
      var k := r.value;
      assert edges[k].source == NearestEdge(p, edges, index, euclid).value.source;
    }
  }

  /** find_nearest_node: a running minimum over the index in its order. */
  method FindNearestNode(p: Point, index: NodeIndex, euclid: Metric) returns (nearest: Option<NodeHit>)
    requires Indexed(index)
    ensures nearest == NearestNode(p, index, euclid)
  {
    ghost var ds := NodeDistances(p, index, euclid);
    nearest := None;
    for i := 0 to |index.order|
      invariant nearest == match FirstMin(ds[..i])
        case None => None
        case Some(k) => Some(NodeHit(index.order[k], ds[k]))
    {
      var id := index.order[i];
      var d := euclid(p, index.pos[id]);
      FirstMinStep(ds, i);
      if nearest.None? || d < nearest.value.dist {
        nearest := Some(NodeHit(id, d));
      }
    }
    assert ds[..|index.order|] == ds;
  }

  /** find_nearest_edge_point: a running minimum over the edges in file order. */
  method FindNearestEdgePoint(p: Point, edges: seq<NetEdge>, index: NodeIndex, euclid: Metric)
    returns (best: Option<EdgeHit>)
    requires EdgesIndexed(edges, index)
    ensures best == NearestEdge(p, edges, index, euclid)
  {
    ghost var ds := EdgeDistances(p, edges, index, euclid);
    best := None;
    for i := 0 to |edges|
      invariant best == match FirstMin(ds[..i])
        case None => None
        case Some(k) =>
          var snap := EdgeSnap(p, edges[k], index, euclid);
          Some(EdgeHit(edges[k].source, edges[k].target, snap.dist, snap.t, edges[k].lengthKm))
    {
      var e := edges[i];
      var snap := PointToSegment(p, index.pos[e.source], index.pos[e.target], euclid);
      FirstMinStep(ds, i);
      if best.None? || snap.dist < best.value.dist {
        best := Some(EdgeHit(e.source, e.target, snap.dist, snap.t, e.lengthKm));
      }
    }
    assert ds[..|edges|] == ds;
  }

  // ---------------------------------------------------------------------------------------------
  // One settlement's mapping

  datatype SnapType = NodeType | EdgeType

  /**
   * A settlement-to-network mapping. The display fields copied through unchanged (the settlement's
   * and the node's latitude and longitude, railway_arrives, first_railway) are not modelled.
   */
  datatype Mapping = Mapping(
    settlement: string,
    snapNode: string,
    snapNodes: seq<string>,
    snapType: SnapType,
    edgeT: Option<real>,
    edgeLengthKm: Option<real>,
    distance: real,
    quality: Quality)

  /** The per-settlement choice in main: the edge only when strictly closer than the nearest node. */
  function ChooseSnap(name: string, node: NodeHit, edge: Option<EdgeHit>): (m: Mapping)
    ensures m.settlement == name
    ensures m.snapType == EdgeType <==> edge.Some? && edge.value.dist < node.dist
    ensures m.snapType == EdgeType ==>
      && m.snapNodes == [edge.value.source, edge.value.target]
      && m.edgeT == Some(edge.value.t) && m.edgeLengthKm == Some(edge.value.lengthKm)
      && m.distance == edge.value.dist
    ensures m.snapType == NodeType ==>
      m.snapNodes == [node.id] && m.edgeT.None? && m.edgeLengthKm.None? && m.distance == node.dist
    ensures m.snapNode == m.snapNodes[0]
    ensures m.quality == ClassifySnapQuality(m.distance)
    ensures m.distance <= node.dist
  {
    if edge.Some? && edge.value.dist < node.dist then
      var e := edge.value;
      Mapping(name, e.source, [e.source, e.target], EdgeType, Some(e.t), Some(e.lengthKm), e.dist,
        ClassifySnapQuality(e.dist))
    else
      Mapping(name, node.id, [node.id], NodeType, None, None, node.dist, ClassifySnapQuality(node.dist))
  }

  datatype Settlement = Settlement(name: string, pos: Point)

  /** The mapping main builds for one settlement; the network must have a node (else a KeyError). */
  function SnapOne(s: Settlement, index: NodeIndex, edges: seq<NetEdge>, euclid: Metric): Mapping
    requires Indexed(index) && EdgesIndexed(edges, index) && |index.order| > 0
  {
    NearestNodeIsFirstMinimum(s.pos, index, euclid);
    ChooseSnap(s.name, NearestNode(s.pos, index, euclid).value, NearestEdge(s.pos, edges, index, euclid))
  }

  /**
   * The mapping's distance is the smallest distance from the settlement to any node and to any
   * edge chord; the mapping names a node of the network.
   */
  lemma {:induction false} SnapOneIsClosest(s: Settlement, index: NodeIndex, edges: seq<NetEdge>, euclid: Metric)
    requires Indexed(index) && EdgesIndexed(edges, index) && |index.order| > 0
    ensures var m := SnapOne(s, index, edges, euclid);
      && m.snapNode in index.pos
      && (forall k :: 0 <= k < |index.order| ==> m.distance <= euclid(s.pos, index.pos[index.order[k]]))
      && (forall k :: 0 <= k < |edges| ==> m.distance <= EdgeSnap(s.pos, edges[k], index, euclid).dist)
  {
    var nds := NodeDistances(s.pos, index, euclid);
    var eds := EdgeDistances(s.pos, edges, index, euclid);
    var kn := FirstMin(nds).value;
    var node := NearestNode(s.pos, index, euclid).value;
    assert node.dist == nds[kn];
    var m := SnapOne(s, index, edges, euclid);
    forall k | 0 <= k < |edges|
      ensures m.distance <= EdgeSnap(s.pos, edges[k], index, euclid).dist
    {
      var ke := FirstMin(eds).value;
      assert eds[ke] <= eds[k];
    }
  }

  function ByName(a: Mapping, b: Mapping): bool {
    StrLe(a.settlement, b.settlement)
  }

  /** How many mappings fall in class q: the per-class counter of main. */
  function CountQuality(ms: seq<Mapping>, q: Quality): nat {
    if |ms| == 0 then 0
    else CountQuality(ms[..|ms| - 1], q) + (if ms[|ms| - 1].quality == q then 1 else 0)
  }

  function Get(stats: map<Quality, nat>, q: Quality): nat {
    if q in stats then stats[q] else 0
  }

  /**
   * main's loop over the settlements: one mapping per settlement, counted by class, then sorted by
   * settlement name.
   */
  method SnapSettlements(settlements: seq<Settlement>, index: NodeIndex, edges: seq<NetEdge>, euclid: Metric)
    returns (mappings: seq<Mapping>, stats: map<Quality, nat>)
    requires Indexed(index) && EdgesIndexed(edges, index) && |index.order| > 0
    ensures var unsorted := seq(|settlements|, i requires 0 <= i < |settlements| => SnapOne(settlements[i], index, edges, euclid));
      && mappings == SortBy(unsorted, ByName)
      && forall q :: Get(stats, q) == CountQuality(unsorted, q)
  {
    ghost var unsorted := seq(|settlements|, i requires 0 <= i < |settlements| => SnapOne(settlements[i], index, edges, euclid));
    mappings := [];
    stats := map[];
    for i := 0 to |settlements|
      invariant mappings == unsorted[..i]
      invariant forall q :: Get(stats, q) == CountQuality(mappings, q)
    {
      var s := settlements[i];
      var node := FindNearestNode(s.pos, index, euclid);
      NearestNodeIsFirstMinimum(s.pos, index, euclid);
      var edge := FindNearestEdgePoint(s.pos, edges, index, euclid);
      var m := ChooseSnap(s.name, node.value, edge);
      stats := stats[m.quality := Get(stats, m.quality) + 1];
      assert (mappings + [m])[..|mappings|] == mappings;
      mappings := mappings + [m];
      assert unsorted[..i + 1] == unsorted[..i] + [unsorted[i]];
    }
    assert unsorted[..|settlements|] == unsorted;
    mappings := SortBy(mappings, ByName);
  }

  /** The mapping list ends sorted by settlement name and holds one mapping per settlement. */
  lemma {:induction false} SnapSettlementsSorted(ms: seq<Mapping>)
    ensures SortedBy(SortBy(ms, ByName), ByName)
    ensures multiset(SortBy(ms, ByName)) == multiset(ms)
  {
    assert Total(ByName) by {
      forall a: Mapping, b: Mapping
        ensures ByName(a, b) || ByName(b, a)
      {
        StrLeTotal(a.settlement, b.settlement);
      }
    }
    SortBySorted(ms, ByName);
  }
}
