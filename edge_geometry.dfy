/**
 * Route geometry assembly of scripts/verify_railway_routes.py, part two: the geometry of two
 * settlements snapped to the same edge, to two edges meeting at their common snap node, or to
 * that node itself.
 */
module EdgeGeometry {
  import opened Wrappers
  import opened Geometry
  import opened Snapper
  import opened Routing
  import opened RouteGeometry

  /**
   * The mappings the snapper writes: one snap node for a node snap, two for an edge snap, and
   * snap_node the first of them.
   */
  predicate WellFormed(m: Mapping) {
    (|m.snapNodes| == 1 || |m.snapNodes| == 2) && m.snapNode == m.snapNodes[0]
  }

  /** is_same_edge: two two-node lists naming the same nodes, in either order. */
  function IsSameEdge(nodes1: seq<string>, nodes2: seq<string>): (r: bool)
    ensures r <==> |nodes1| == 2 && |nodes2| == 2 && multiset(nodes1) == multiset(nodes2)
  {
    if |nodes1| != 2 || |nodes2| != 2 then false
    else
      SameEdgeMultiset(nodes1, nodes2);
      (nodes1[0] == nodes2[0] && nodes1[1] == nodes2[1]) || (nodes1[0] == nodes2[1] && nodes1[1] == nodes2[0])
  }

  lemma {:induction false} SameEdgeMultiset(nodes1: seq<string>, nodes2: seq<string>)
    requires |nodes1| == 2 && |nodes2| == 2
    ensures multiset(nodes1) == multiset(nodes2) <==>
      (nodes1[0] == nodes2[0] && nodes1[1] == nodes2[1]) || (nodes1[0] == nodes2[1] && nodes1[1] == nodes2[0])
  {
    var a, b, c, d := nodes1[0], nodes1[1], nodes2[0], nodes2[1];
    assert nodes1 == [a, b] && nodes2 == [c, d];
    assert multiset(nodes1) == multiset{a, b} && multiset(nodes2) == multiset{c, d};
    PairMultiset(a, b, c, d);
  }

  lemma {:induction false} PairMultiset(a: string, b: string, c: string, d: string)
    ensures multiset{a, b} == multiset{c, d} <==> (a == c && b == d) || (a == d && b == c)
  {
    if multiset{a, b} == multiset{c, d} {
      assert a in multiset{c, d};
      if a == c {
        assert multiset{b} == multiset{a, b} - multiset{a} == multiset{c, d} - multiset{c} == multiset{d};
      } else {
        assert multiset{b} == multiset{a, b} - multiset{a} == multiset{c, d} - multiset{d} == multiset{c};
      }
    }
  }

  // ---------------------------------------------------------------------------------------------
  // get_same_edge_geometry

  /**
   * Two settlements on one edge: the track between their closest vertices, inclusive, walked from
   * the first settlement's vertex; when both share one vertex, the line through it.
   */
  function SameEdgeGeometry(fromM: Mapping, toM: Mapping, fromP: Point, toP: Point, lookup: map<Key, TrackRec>,
                            hav: Metric): Option<seq<Point>>
  {
    if |fromM.snapNodes| != 2 || |toM.snapNodes| != 2 || !IsSameEdge(fromM.snapNodes, toM.snapNodes) then None
    else
      match EdgeCoords(lookup, fromM.snapNodes[0], fromM.snapNodes[1])
      case None => None
      case Some(track) =>
        var i := Closest(track, fromP, hav);
        var j := Closest(track, toP, hav);
        var coords := Span(track, i, j);
        if |coords| < 2 then Some([fromP, track[i], toP]) else Some(coords)
  }

  /**
   * The vertices from index i to index j inclusive, walked from i: track[i:j + 1] when i <= j,
   * track[j:i + 1][::-1] otherwise.
   */
  function Span(track: seq<Point>, i: nat, j: nat): (r: seq<Point>)
    requires i < |track| && j < |track|
    ensures |r| == (if i <= j then j - i else i - j) + 1
    ensures r[0] == track[i] && Last(r) == track[j]
    ensures forall n :: 0 <= n < |r| ==> r[n] == track[if i <= j then i + n else i - n]
  {
    if i <= j then track[i..j + 1]
    else
      var r := Reverse(track[j..i + 1]);
      assert forall n :: 0 <= n < |r| ==> r[n] == track[j..i + 1][i - j - n];
      r
  }

  /**
   * The same-edge geometry exists exactly when both snaps name the same edge and its track has
   * coordinates. It is then the line from, vertex, to when both settlements are nearest the same
   * vertex, and otherwise the consecutive vertices from the first settlement's nearest vertex to
   * the second's, in that direction.
   */
  lemma {:induction false} SameEdgeRuns(fromM: Mapping, toM: Mapping, fromP: Point, toP: Point, lookup: map<Key, TrackRec>, hav: Metric)
    ensures var r := SameEdgeGeometry(fromM, toM, fromP, toP, lookup, hav);
      && (r.Some? <==> IsSameEdge(fromM.snapNodes, toM.snapNodes)
                       && EdgeCoords(lookup, fromM.snapNodes[0], fromM.snapNodes[1]).Some?)
      && (r.Some? ==>
            var track := EdgeCoords(lookup, fromM.snapNodes[0], fromM.snapNodes[1]).value;
            var i, j := Closest(track, fromP, hav), Closest(track, toP, hav);
            && |r.value| >= 2
            && (i == j ==> r.value == [fromP, track[i], toP])
            && (i != j ==>
                  && |r.value| == (if i <= j then j - i else i - j) + 1
                  && r.value[0] == track[i] && Last(r.value) == track[j]
                  && forall n :: 0 <= n < |r.value| ==> r.value[n] == track[if i <= j then i + n else i - n]))
  {
  }

  /** get_same_edge_geometry as the script runs it: one scan keeps both running minima. */
  method GetSameEdgeGeometry(fromM: Mapping, toM: Mapping, fromP: Point, toP: Point, lookup: map<Key, TrackRec>,
                             hav: Metric) returns (r: Option<seq<Point>>)
    ensures r == SameEdgeGeometry(fromM, toM, fromP, toP, lookup, hav)
  {
    var fromNodes, toNodes := fromM.snapNodes, toM.snapNodes;
    if |fromNodes| != 2 || |toNodes| != 2 {
      return None;
    }
    if !IsSameEdge(fromNodes, toNodes) {
      return None;
    }
    var track := EdgeCoords(lookup, fromNodes[0], fromNodes[1]);
    if track.None? {
      return None;
    }
    var trackCoords := track.value;
    ghost var fromDs, toDs := Distances(trackCoords, fromP, hav), Distances(trackCoords, toP, hav);
    var fromIdx, toIdx := 0, 0;
    var fromMin: Option<real>, toMin: Option<real> := None, None;
    for i := 0 to |trackCoords|
      invariant Scanned(fromDs, i, fromIdx, fromMin) && Scanned(toDs, i, toIdx, toMin)
    {
      var fromDist := hav(trackCoords[i], fromP);
      var toDist := hav(trackCoords[i], toP);
      ScanStep(fromDs, i, fromIdx, fromMin);
      ScanStep(toDs, i, toIdx, toMin);
      if fromMin.None? || fromDist < fromMin.value {
        fromMin := Some(fromDist);
        fromIdx := i;
      }
      if toMin.None? || toDist < toMin.value {
        toMin := Some(toDist);
        toIdx := i;
      }
    }
    ScanDone(fromDs, fromIdx, fromMin);
    ScanDone(toDs, toIdx, toMin);
    var coords;
    if fromIdx <= toIdx {
      coords := trackCoords[fromIdx..toIdx + 1];
    } else {
      coords := Reverse(trackCoords[toIdx..fromIdx + 1]);
    }
    assert coords == Span(trackCoords, fromIdx, toIdx);
    if |coords| < 2 {
      return Some([fromP, trackCoords[fromIdx], toP]);
    }
    return Some(coords);
  }

  // ---------------------------------------------------------------------------------------------
  // get_shared_node_geometry

  /**
   * Two settlements on different edges with the same snap node: from the first settlement's
   * nearest vertex to the end of its track at the shared node, then from the shared node's end of
   * the second track to the second settlement's nearest vertex, the joint point once.
   */
  function SharedNodeGeometry(fromM: Mapping, toM: Mapping, fromP: Point, toP: Point, lookup: map<Key, TrackRec>,
                              nodes: map<string, Point>, hav: Metric): Option<seq<Point>>
  {
    if |fromM.snapNodes| != 2 || |toM.snapNodes| != 2 then None
    else if fromM.snapNode != toM.snapNode || IsSameEdge(fromM.snapNodes, toM.snapNodes) then None
    else
      var fromTrack := EdgeCoords(lookup, fromM.snapNodes[0], fromM.snapNodes[1]);
      var toTrack := EdgeCoords(lookup, toM.snapNodes[0], toM.snapNodes[1]);
      if fromTrack.None? || toTrack.None? || fromM.snapNode !in nodes then None
      else
        var shared := nodes[fromM.snapNode];
        var fromPortion := ToNearEnd(fromTrack.value, Closest(fromTrack.value, fromP, hav), shared);
        var toPortion := FromNearEnd(toTrack.value, Closest(toTrack.value, toP, hav), shared);
        var combined := fromPortion + toPortion[1..];
        if |combined| >= 2 then Some(combined) else None
  }

  /**
   * A shared-node geometry needs two different edges with one snap node, both tracks and the
   * node's position. It starts at the first settlement's nearest vertex, runs through the first
   * track's end at the shared node, and ends at the second settlement's nearest vertex unless that
   * vertex is itself the second track's end at the shared node.
   */
  lemma {:induction false} SharedNodeRuns(fromM: Mapping, toM: Mapping, fromP: Point, toP: Point, lookup: map<Key, TrackRec>,
                       nodes: map<string, Point>, hav: Metric)
    ensures var r := SharedNodeGeometry(fromM, toM, fromP, toP, lookup, nodes, hav);
      r.Some? ==>
        && |fromM.snapNodes| == 2 && |toM.snapNodes| == 2
        && fromM.snapNode == toM.snapNode && !IsSameEdge(fromM.snapNodes, toM.snapNodes)
        && fromM.snapNode in nodes
        && EdgeCoords(lookup, fromM.snapNodes[0], fromM.snapNodes[1]).Some?
        && EdgeCoords(lookup, toM.snapNodes[0], toM.snapNodes[1]).Some?
        && var shared := nodes[fromM.snapNode];
           var fc := EdgeCoords(lookup, fromM.snapNodes[0], fromM.snapNodes[1]).value;
           var tc := EdgeCoords(lookup, toM.snapNodes[0], toM.snapNodes[1]).value;
           var fi, ti := Closest(fc, fromP, hav), Closest(tc, toP, hav);
           && |r.value| >= 2
           && r.value[0] == fc[fi]
           && fc[NearEnd(fc, shared)] in r.value
           && (ti != NearEnd(tc, shared) ==> Last(r.value) == tc[ti])
  {
    var r := SharedNodeGeometry(fromM, toM, fromP, toP, lookup, nodes, hav);
    if r.Some? {
      var shared := nodes[fromM.snapNode];
      var fc := EdgeCoords(lookup, fromM.snapNodes[0], fromM.snapNodes[1]).value;
      var tc := EdgeCoords(lookup, toM.snapNodes[0], toM.snapNodes[1]).value;
      var fi, ti := Closest(fc, fromP, hav), Closest(tc, toP, hav);
      var fromPortion, toPortion := ToNearEnd(fc, fi, shared), FromNearEnd(tc, ti, shared);
      assert r.value == fromPortion + toPortion[1..];
      assert r.value[|fromPortion| - 1] == Last(fromPortion);
      if ti != NearEnd(tc, shared) {
        assert |toPortion| >= 2;
        assert Last(r.value) == Last(toPortion);
      }
    }
  }

  /** get_shared_node_geometry as the script runs it: one closest-vertex scan per track. */
  method GetSharedNodeGeometry(fromM: Mapping, toM: Mapping, fromP: Point, toP: Point, lookup: map<Key, TrackRec>,
                               nodes: map<string, Point>, hav: Metric) returns (r: Option<seq<Point>>)
    ensures r == SharedNodeGeometry(fromM, toM, fromP, toP, lookup, nodes, hav)
  {
    var fromNodes, toNodes := fromM.snapNodes, toM.snapNodes;
    if |fromNodes| != 2 || |toNodes| != 2 {
      return None;
    }
    if fromM.snapNode != toM.snapNode {
      return None;
    }
    if IsSameEdge(fromNodes, toNodes) {
      return None;
    }
    var fromTrack := EdgeCoords(lookup, fromNodes[0], fromNodes[1]);
    var toTrack := EdgeCoords(lookup, toNodes[0], toNodes[1]);
    if fromTrack.None? || toTrack.None? {
      return None;
    }
    var fromCoords, toCoords := fromTrack.value, toTrack.value;
    var fromIdx, _ := ClosestVertex(fromCoords, fromP, hav);
    var toIdx, _ := ClosestVertex(toCoords, toP, hav);
    if fromM.snapNode !in nodes {
      return None;
    }
    var shared := nodes[fromM.snapNode];
    var fromPortion := RunToNearEnd(fromCoords, fromIdx, shared);
    var toPortion := RunFromNearEnd(toCoords, toIdx, shared);
    var combined := fromPortion + toPortion[1..];
    if |combined| >= 2 {
      return Some(combined);
    }
    return None;
  }

  // ---------------------------------------------------------------------------------------------
  // get_node_only_geometry

  /**
   * The decision get_node_only_geometry makes before it builds anything: the shared node's
   * position, and for a one-sided case the edge track, its closest vertex to the settlement on
   * the edge, and the run from the node's end to that vertex.
   */
  datatype NodeOnlyCase =
    | NotNodeOnly
    | ThroughNode(shared: Point)
    | AlongEdge(shared: Point, fromIsNode: bool, portion: seq<Point>)

  /**
   * The run along the edge settlement's track from the end nearer the shared node to the vertex
   * nearest that settlement, when the track has coordinates.
   */
  function EdgeRun(edgeM: Mapping, edgeP: Point, shared: Point, lookup: map<Key, TrackRec>, hav: Metric)
    : (r: Option<seq<Point>>)
    requires |edgeM.snapNodes| == 2
    ensures r.Some? ==> |r.value| > 0
  {
    match EdgeCoords(lookup, edgeM.snapNodes[0], edgeM.snapNodes[1])
    case None => None
    case Some(track) => Some(FromNearEnd(track, Closest(track, edgeP, hav), shared))
  }

  function NodeOnlyCaseOf(fromM: Mapping, toM: Mapping, fromP: Point, toP: Point, lookup: map<Key, TrackRec>,
                          nodes: map<string, Point>, hav: Metric): (c: NodeOnlyCase)
    requires WellFormed(fromM) && WellFormed(toM)
    ensures c.AlongEdge? ==> |c.portion| > 0
  {
    var fromIsNode, toIsNode := |fromM.snapNodes| == 1, |toM.snapNodes| == 1;
    if fromM.snapNode != toM.snapNode || (!fromIsNode && !toIsNode) || fromM.snapNode !in nodes then NotNodeOnly
    else
      var shared := nodes[fromM.snapNode];
      if fromIsNode && toIsNode then ThroughNode(shared)
      else
        var run := if fromIsNode then EdgeRun(toM, toP, shared, lookup, hav) else EdgeRun(fromM, fromP, shared, lookup, hav);
        if run.None? then ThroughNode(shared) else AlongEdge(shared, fromIsNode, run.value)
  }

  /** Naming the settlements the other way round gives the same case, seen from the other side. */
  lemma {:induction false} NodeOnlyCaseSwap(fromM: Mapping, toM: Mapping, fromP: Point, toP: Point, lookup: map<Key, TrackRec>,
                         nodes: map<string, Point>, hav: Metric)
    requires WellFormed(fromM) && WellFormed(toM)
    ensures var c := NodeOnlyCaseOf(fromM, toM, fromP, toP, lookup, nodes, hav);
      NodeOnlyCaseOf(toM, fromM, toP, fromP, lookup, nodes, hav)
        == if c.AlongEdge? then AlongEdge(c.shared, !c.fromIsNode, c.portion) else c
  {
  }

  /**
   * get_node_only_geometry as written: when the first settlement is on the edge, the run is cut
   * before the settlement's vertex and reversed.
   */
  function NodeOnlyAsWritten(fromM: Mapping, toM: Mapping, fromP: Point, toP: Point, lookup: map<Key, TrackRec>,
                             nodes: map<string, Point>, hav: Metric): Option<seq<Point>>
    requires WellFormed(fromM) && WellFormed(toM)
  {
    match NodeOnlyCaseOf(fromM, toM, fromP, toP, lookup, nodes, hav)
    case NotNodeOnly => None
    case ThroughNode(shared) => Some([fromP, shared, toP])
    case AlongEdge(_, fromIsNode, portion) =>
      if fromIsNode then Some([fromP] + portion[1..]) else Some(Reverse(portion[..|portion| - 1]) + [toP])
  }

  /**
   * get_node_only_geometry with the edge-first case mirrored from the node-first case: the run
   * from the settlement's vertex back to the node, whose own vertex is replaced by the settlement
   * at the node.
   */
  function NodeOnlyGeometry(fromM: Mapping, toM: Mapping, fromP: Point, toP: Point, lookup: map<Key, TrackRec>,
                            nodes: map<string, Point>, hav: Metric): Option<seq<Point>>
    requires WellFormed(fromM) && WellFormed(toM)
  {
    CaseGeometry(NodeOnlyCaseOf(fromM, toM, fromP, toP, lookup, nodes, hav), fromP, toP)
  }

  /** The line drawn for a node-only case, from fromP to toP. */
  function CaseGeometry(c: NodeOnlyCase, fromP: Point, toP: Point): Option<seq<Point>>
    requires c.AlongEdge? ==> |c.portion| > 0
  {
    match c
    case NotNodeOnly => None
    case ThroughNode(shared) => Some([fromP, shared, toP])
    case AlongEdge(_, fromIsNode, portion) =>
      if fromIsNode then Some([fromP] + portion[1..]) else Some(Reverse(portion[1..]) + [toP])
  }

  /** Naming the settlements the other way round reverses the line of a case. */
  lemma {:induction false} CaseGeometrySwap(c: NodeOnlyCase, fromP: Point, toP: Point)
    requires c.AlongEdge? ==> |c.portion| > 0
    ensures var d := if c.AlongEdge? then AlongEdge(c.shared, !c.fromIsNode, c.portion) else c;
      var r, s := CaseGeometry(c, fromP, toP), CaseGeometry(d, toP, fromP);
      r.Some? == s.Some? && (r.Some? ==> r.value == Reverse(s.value))
  {
    match c
    case NotNodeOnly =>
    case ThroughNode(shared) =>
      assert Reverse([toP, shared, fromP]) == [fromP, shared, toP];
    case AlongEdge(shared, fromIsNode, portion) =>
      if fromIsNode {
        ReverseAppend(Reverse(portion[1..]), [fromP]);
        ReverseReverse(portion[1..]);
        assert Reverse([fromP]) == [fromP];
      } else {
        ReverseAppend([toP], portion[1..]);
        assert Reverse([toP]) == [toP];
      }
  }

  lemma {:induction false} ReverseAppend(a: seq<Point>, b: seq<Point>)
    ensures Reverse(a + b) == Reverse(b) + Reverse(a)
  {
    var l, r := Reverse(a + b), Reverse(b) + Reverse(a);
    assert |l| == |r|;
    forall i | 0 <= i < |l|
      ensures l[i] == r[i]
    {
      if i < |b| {
        assert l[i] == (a + b)[|a| + |b| - 1 - i] == b[|b| - 1 - i];
      } else {
        assert l[i] == (a + b)[|a| + |b| - 1 - i] == a[|a| + |b| - 1 - i];
      }
    }
  }

  lemma {:induction false} ReverseReverse(a: seq<Point>)
    ensures Reverse(Reverse(a)) == a
  {
    var l := Reverse(Reverse(a));
    assert |l| == |a|;
    forall i | 0 <= i < |a|
      ensures l[i] == a[i]
    {
      assert l[i] == Reverse(a)[|a| - 1 - i];
    }
  }

  /**
   * The node-only geometry does not depend on which settlement is named first: swapping the two
   * settlements reverses it. It runs from the first settlement to the second, and in a one-sided
   * case with a track it meets the edge settlement at its nearest vertex.
   */
  lemma {:induction false} NodeOnlySymmetric(fromM: Mapping, toM: Mapping, fromP: Point, toP: Point, lookup: map<Key, TrackRec>,
                          nodes: map<string, Point>, hav: Metric)
    requires WellFormed(fromM) && WellFormed(toM)
    ensures var r := NodeOnlyGeometry(fromM, toM, fromP, toP, lookup, nodes, hav);
      var s := NodeOnlyGeometry(toM, fromM, toP, fromP, lookup, nodes, hav);
      && r.Some? == s.Some?
      && (r.Some? ==> r.value == Reverse(s.value))
  {
    NodeOnlyCaseSwap(fromM, toM, fromP, toP, lookup, nodes, hav);
    CaseGeometrySwap(NodeOnlyCaseOf(fromM, toM, fromP, toP, lookup, nodes, hav), fromP, toP);
  }

  /** Where the node-only geometry begins and ends. */
  lemma {:induction false} NodeOnlyEnds(fromM: Mapping, toM: Mapping, fromP: Point, toP: Point, lookup: map<Key, TrackRec>,
                     nodes: map<string, Point>, hav: Metric)
    requires WellFormed(fromM) && WellFormed(toM)
    ensures var r := NodeOnlyGeometry(fromM, toM, fromP, toP, lookup, nodes, hav);
      && (r.Some? <==>
            fromM.snapNode == toM.snapNode && fromM.snapNode in nodes
            && (|fromM.snapNodes| == 1 || |toM.snapNodes| == 1))
      && (r.Some? && |fromM.snapNodes| == 1 ==> r.value[0] == fromP)
      && (r.Some? && |toM.snapNodes| == 1 ==> Last(r.value) == toP)
      && (r.Some? && |fromM.snapNodes| == 1 && |toM.snapNodes| == 1 ==> r.value == [fromP, nodes[fromM.snapNode], toP])
  {
    match NodeOnlyCaseOf(fromM, toM, fromP, toP, lookup, nodes, hav)
    case NotNodeOnly =>
    case ThroughNode(shared) =>
    case AlongEdge(shared, fromIsNode, portion) =>
      if !fromIsNode {
        var r := Reverse(portion[1..]) + [toP];
        assert Last(r) == toP;
      }
  }

  /**
   * In a one-sided case with a track, the geometry touches the edge settlement's nearest vertex at
   * its edge-side end, unless that vertex is the node's own end of the track.
   */
  lemma {:induction false} NodeOnlyReachesClosest(fromM: Mapping, toM: Mapping, fromP: Point, toP: Point, lookup: map<Key, TrackRec>,
                               nodes: map<string, Point>, hav: Metric)
    requires WellFormed(fromM) && WellFormed(toM)
    ensures var c := NodeOnlyCaseOf(fromM, toM, fromP, toP, lookup, nodes, hav);
      var r := NodeOnlyGeometry(fromM, toM, fromP, toP, lookup, nodes, hav);
      c.AlongEdge? && |c.portion| > 1 ==>
        r.Some? && (if c.fromIsNode then Last(r.value) else r.value[0]) == Last(c.portion)
  {
    var c := NodeOnlyCaseOf(fromM, toM, fromP, toP, lookup, nodes, hav);
    if c.AlongEdge? && |c.portion| > 1 && !c.fromIsNode {
      var front := Reverse(c.portion[1..]);
      assert front[0] == Last(c.portion);
    }
  }

  /** get_node_only_geometry as the script runs it, with the edge-first case corrected. */
  method GetNodeOnlyGeometry(fromM: Mapping, toM: Mapping, fromP: Point, toP: Point, lookup: map<Key, TrackRec>,
                             nodes: map<string, Point>, hav: Metric) returns (r: Option<seq<Point>>)
    requires WellFormed(fromM) && WellFormed(toM)
    ensures r == NodeOnlyGeometry(fromM, toM, fromP, toP, lookup, nodes, hav)
  {
    var c := ClassifyNodeOnly(fromM, toM, fromP, toP, lookup, nodes, hav);
    match c
    case NotNodeOnly =>
      r := None;
    case ThroughNode(shared) =>
      r := Some([fromP, shared, toP]);
    case AlongEdge(_, fromIsNode, portion) =>
      if fromIsNode {
        r := Some([fromP] + portion[1..]);
      } else {
        r := Some(Reverse(portion[1..]) + [toP]);
      }
  }

  /** The branches of get_node_only_geometry that decide which line to draw. */
  method ClassifyNodeOnly(fromM: Mapping, toM: Mapping, fromP: Point, toP: Point, lookup: map<Key, TrackRec>,
                          nodes: map<string, Point>, hav: Metric) returns (c: NodeOnlyCase)
    requires WellFormed(fromM) && WellFormed(toM)
    ensures c == NodeOnlyCaseOf(fromM, toM, fromP, toP, lookup, nodes, hav)
  {
    if fromM.snapNode != toM.snapNode {
      return NotNodeOnly;
    }
    var fromIsNode, toIsNode := |fromM.snapNodes| == 1, |toM.snapNodes| == 1;
    if !fromIsNode && !toIsNode {
      return NotNodeOnly;
    }
    if fromM.snapNode !in nodes {
      return NotNodeOnly;
    }
    var shared := nodes[fromM.snapNode];
    if fromIsNode && toIsNode {
      return ThroughNode(shared);
    }
    var edgeM := if fromIsNode then toM else fromM;
    var edgeP := if fromIsNode then toP else fromP;
    var run := RunAlongEdge(edgeM, edgeP, shared, lookup, hav);
    if run.None? {
      return ThroughNode(shared);
    }
    return AlongEdge(shared, fromIsNode, run.value);
  }

  /** The run along the edge settlement's track from the shared node's end to its nearest vertex. */
  method RunAlongEdge(edgeM: Mapping, edgeP: Point, shared: Point, lookup: map<Key, TrackRec>, hav: Metric)
    returns (run: Option<seq<Point>>)
    requires |edgeM.snapNodes| == 2
    ensures run == EdgeRun(edgeM, edgeP, shared, lookup, hav)
  {
    var track := EdgeCoords(lookup, edgeM.snapNodes[0], edgeM.snapNodes[1]);
    if track.None? {
      return None;
    }
    var trackCoords := track.value;
    var closestIdx, _ := ClosestVertex(trackCoords, edgeP, hav);
    var portion := RunFromNearEnd(trackCoords, closestIdx, shared);
    return Some(portion);
  }

  // ---------------------------------------------------------------------------------------------
  // The edge-first node-only case on a sample

  /** A settlement snapped to node n1, the shared end of the sample edge. */
  const SampleNodeMapping: Mapping := Mapping("B", "n1", ["n1"], NodeType, None, None, 0.0, OnNetwork)
  const SampleNodes: map<string, Point> := map["n1" := Point(0.0, 0.0)]
  const SampleStation: Point := Point(-1.0, 0.0)

  /**
   * The first settlement sits on the sample edge at its far vertex (2, 0); the second is snapped
   * to n1 at (0, 0). The run from the node's end reaches the far vertex: the whole track.
   */
  lemma {:induction false} SampleNodeCase()
    ensures WellFormed(SampleMapping) && WellFormed(SampleNodeMapping)
    ensures NodeOnlyCaseOf(SampleMapping, SampleNodeMapping, SampleSettlement, SampleStation, SampleLookup, SampleNodes,
                           Manhattan)
      == AlongEdge(Point(0.0, 0.0), false, SampleTrack)
  {
    SampleEdgeRun();
    assert SampleNodes[SampleMapping.snapNode] == Point(0.0, 0.0);
    EdgeFirstCase(SampleMapping, SampleNodeMapping, SampleSettlement, SampleStation, SampleLookup, SampleNodes, Manhattan);
  }

  /** An edge settlement followed by one snapped to an end of its edge: the run along the edge. */
  lemma {:induction false} EdgeFirstCase(fromM: Mapping, toM: Mapping, fromP: Point, toP: Point, lookup: map<Key, TrackRec>,
                      nodes: map<string, Point>, hav: Metric)
    requires WellFormed(fromM) && WellFormed(toM) && |fromM.snapNodes| == 2 && |toM.snapNodes| == 1
    requires fromM.snapNode == toM.snapNode && fromM.snapNode in nodes
    requires EdgeRun(fromM, fromP, nodes[fromM.snapNode], lookup, hav).Some?
    ensures NodeOnlyCaseOf(fromM, toM, fromP, toP, lookup, nodes, hav)
      == AlongEdge(nodes[fromM.snapNode], false, EdgeRun(fromM, fromP, nodes[fromM.snapNode], lookup, hav).value)
  {
  }

  /** The run along the sample edge from n1's end to the settlement's vertex is the whole track. */
  lemma {:induction false} SampleEdgeRun()
    ensures EdgeRun(SampleMapping, SampleSettlement, Point(0.0, 0.0), SampleLookup, Manhattan) == Some(SampleTrack)
  {
    SampleCoords();
    SampleClosest();
    SampleWholeTrack();
    assert SampleRoute[0] == Point(0.0, 0.0);
  }

  lemma {:induction false} SampleEdgeFirstRuns()
    ensures Reverse(SampleTrack[..2]) + [SampleStation] == [Point(1.0, 0.0), Point(0.0, 0.0), SampleStation]
    ensures Reverse(SampleTrack[1..]) + [SampleStation] == [Point(2.0, 0.0), Point(1.0, 0.0), SampleStation]
  {
    SampleTrackPieces();
    assert SampleTrack[..2] == [Point(0.0, 0.0), Point(1.0, 0.0)];
    var front := Reverse(SampleTrack[..2]);
    assert front[0] == Point(1.0, 0.0) && front[1] == Point(0.0, 0.0);
    assert front == [Point(1.0, 0.0), Point(0.0, 0.0)];
  }

  /**
   * As written, the edge-first case starts at (1, 0) and keeps the node's own vertex (0, 0): the
   * settlement's nearest vertex (2, 0) is lost. The corrected case starts there.
   */
  lemma {:induction false} NodeOnlyAsWrittenMissesClosest()
    ensures WellFormed(SampleMapping) && WellFormed(SampleNodeMapping)
    ensures NodeOnlyAsWritten(SampleMapping, SampleNodeMapping, SampleSettlement, SampleStation, SampleLookup,
                              SampleNodes, Manhattan)
      == Some([Point(1.0, 0.0), Point(0.0, 0.0), SampleStation])
    ensures NodeOnlyGeometry(SampleMapping, SampleNodeMapping, SampleSettlement, SampleStation, SampleLookup,
                             SampleNodes, Manhattan)
      == Some([Point(2.0, 0.0), Point(1.0, 0.0), SampleStation])
  {
    SampleNodeCase();
    var portion := SampleTrack;
    assert NodeOnlyAsWritten(SampleMapping, SampleNodeMapping, SampleSettlement, SampleStation, SampleLookup,
                             SampleNodes, Manhattan)
      == Some(Reverse(portion[..2]) + [SampleStation]);
    assert NodeOnlyGeometry(SampleMapping, SampleNodeMapping, SampleSettlement, SampleStation, SampleLookup,
                            SampleNodes, Manhattan)
      == Some(Reverse(portion[1..]) + [SampleStation]);
    SampleEdgeFirstRuns();
  }
}
