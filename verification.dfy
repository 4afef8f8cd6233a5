/**
 * verify_connection of scripts/verify_railway_routes.py: build a route geometry for a connection
 * (local geometry when both settlements share a snap node, otherwise the shortest path extended
 * onto the settlements' edges) and judge how close it passes to the two settlements.
 */
module Verification {
  import opened Wrappers
  import opened Geometry
  import opened Snapper
  import opened Routing
  import opened ShortestPath
  import opened RouteGeometry
  import opened EdgeGeometry

  // ---------------------------------------------------------------------------------------------
  // Mapping lookup

  /** build_mapping_lookup: mappings by settlement name, a later mapping replacing an earlier one. */
  function MappingLookupOf(mappings: seq<Mapping>): map<string, Mapping> {
    if |mappings| == 0 then map[]
    else
      var m := mappings[|mappings| - 1];
      MappingLookupOf(mappings[..|mappings| - 1])[m.settlement := m]
  }

  /**
   * A name is in the lookup exactly when some mapping is for it, and it then holds the last
   * mapping for it.
   */
  lemma {:induction false} MappingLookupLast(mappings: seq<Mapping>, name: string)
    ensures name in MappingLookupOf(mappings) <==> exists i :: 0 <= i < |mappings| && mappings[i].settlement == name
    ensures name in MappingLookupOf(mappings) ==>
      exists i :: 0 <= i < |mappings| && MappingLookupOf(mappings)[name] == mappings[i] && mappings[i].settlement == name
        && forall j :: i < j < |mappings| ==> mappings[j].settlement != name
    decreases |mappings|
  {
    if |mappings| > 0 {
      var front := mappings[..|mappings| - 1];
      var n := |mappings| - 1;
      MappingLookupLast(front, name);
      if mappings[n].settlement != name {
        if name in MappingLookupOf(front) {
          var i :| 0 <= i < |front| && MappingLookupOf(front)[name] == front[i] && front[i].settlement == name
            && forall j :: i < j < |front| ==> front[j].settlement != name;
          assert mappings[i] == front[i];
          assert forall j :: i < j < |mappings| ==> mappings[j].settlement != name by {
            forall j | i < j < |mappings|
              ensures mappings[j].settlement != name
            {
              if j < n { assert mappings[j] == front[j]; }
            }
          }
        }
        if exists i :: 0 <= i < |mappings| && mappings[i].settlement == name {
          var i :| 0 <= i < |mappings| && mappings[i].settlement == name;
          assert front[i].settlement == name;
        }
      }
    }
  }

  /** Every mapping in the lookup is one of the mappings it was built from. */
  lemma {:induction false} MappingLookupWellFormed(mappings: seq<Mapping>)
    requires forall i :: 0 <= i < |mappings| ==> WellFormed(mappings[i])
    ensures forall name :: name in MappingLookupOf(mappings) ==> WellFormed(MappingLookupOf(mappings)[name])
  {
    forall name | name in MappingLookupOf(mappings)
      ensures WellFormed(MappingLookupOf(mappings)[name])
    {
      MappingLookupLast(mappings, name);
    }
  }

  // ---------------------------------------------------------------------------------------------
  // Judging a geometry

  /** The issue types verify_connection reports; the first four are failures. */
  datatype Status = NoMapping | NoPath | NoGeometry | FarFromPath | Warning | Ok

  predicate Success(s: Status) {
    s == Warning || s == Ok
  }

  /** Kilometres: a path farther than this from a settlement is a warning. */
  const WarnThreshold: real := 5.0
  /** Kilometres: a path farther than this from a settlement is an error. */
  const ErrorThreshold: real := 15.0

  datatype Side = FromSide | ToSide

  /** One entry of the issues list: the side, the distance, and whether it is only a warning. */
  datatype Issue = Issue(side: Side, distance: real, warnOnly: bool)

  /** The issue recorded for one settlement: an error beyond 15 km, a warning beyond 5 km. */
  function SideIssue(side: Side, d: real): (r: seq<Issue>)
    ensures |r| <= 1
    ensures |r| == 1 <==> d > WarnThreshold
    ensures |r| == 1 ==> r[0] == Issue(side, d, d <= ErrorThreshold)
  {
    if d > ErrorThreshold then [Issue(side, d, false)]
    else if d > WarnThreshold then [Issue(side, d, true)]
    else []
  }

  function Max(a: real, b: real): real {
    if a >= b then a else b
  }

  /** The closing decision of verify_connection on the two closest-approach distances. */
  function Verdict(fromDist: real, toDist: real): Status {
    var issues := SideIssue(FromSide, fromDist) + SideIssue(ToSide, toDist);
    if |issues| > 0 then
      if Max(fromDist, toDist) > ErrorThreshold then FarFromPath else Warning
    else Ok
  }

  /**
   * The verdict is a function of the larger distance alone: far from the path beyond 15 km, a
   * warning beyond 5 km, and OK otherwise.
   */
  lemma {:induction false} VerdictByDistance(fromDist: real, toDist: real)
    ensures Verdict(fromDist, toDist) == FarFromPath <==> Max(fromDist, toDist) > ErrorThreshold
    ensures Verdict(fromDist, toDist) == Warning <==> WarnThreshold < Max(fromDist, toDist) <= ErrorThreshold
    ensures Verdict(fromDist, toDist) == Ok <==> Max(fromDist, toDist) <= WarnThreshold
    ensures Success(Verdict(fromDist, toDist)) <==> Max(fromDist, toDist) <= ErrorThreshold
  {
    var issues := SideIssue(FromSide, fromDist) + SideIssue(ToSide, toDist);
    assert |issues| > 0 <==> fromDist > WarnThreshold || toDist > WarnThreshold;
  }

  /** The distance from p to the nearest vertex of a non-empty geometry. */
  function NearestApproach(coords: seq<Point>, p: Point, hav: Metric): (d: real)
    requires |coords| > 0
    ensures exists i :: 0 <= i < |coords| && d == hav(coords[i], p)
    ensures forall i :: 0 <= i < |coords| ==> d <= hav(coords[i], p)
  {
    var m := MinOf(Distances(coords, p, hav));
    m.value
  }

  /** A geometry of fewer than two points is NO_GEOMETRY; otherwise the verdict on it. */
  function Judged(coords: seq<Point>, fromP: Point, toP: Point, hav: Metric): (s: Status)
    ensures s != NoMapping && s != NoPath
    ensures s == NoGeometry <==> |coords| < 2
  {
    if |coords| < 2 then NoGeometry
    else Verdict(NearestApproach(coords, fromP, hav), NearestApproach(coords, toP, hav))
  }

  // ---------------------------------------------------------------------------------------------
  // The geometry behind the verdict

  /** Python's truth value of a coordinate list: present and non-empty. */
  predicate Present(coords: Option<seq<Point>>) {
    coords.Some? && |coords.value| > 0
  }

  /**
   * The local geometry tried when both settlements have the same snap node: same edge, then
   * shared node, then node only, each consulted when the one before gave nothing.
   */
  function LocalGeometry(fromM: Mapping, toM: Mapping, fromP: Point, toP: Point, lookup: map<Key, TrackRec>,
                         nodes: map<string, Point>, hav: Metric): Option<seq<Point>>
    requires WellFormed(fromM) && WellFormed(toM)
  {
    if fromM.snapNode != toM.snapNode then None
    else
      var sameEdge := SameEdgeGeometry(fromM, toM, fromP, toP, lookup, hav);
      if Present(sameEdge) then sameEdge
      else
        var sharedNode := SharedNodeGeometry(fromM, toM, fromP, toP, lookup, nodes, hav);
        if Present(sharedNode) then sharedNode
        else NodeOnlyGeometry(fromM, toM, fromP, toP, lookup, nodes, hav)
  }

  /**
   * The routed geometry for a path: the path's geometry, when it has at least two points,
   * extended onto the first settlement's edge at its start and the second's at its end.
   */
  function RoutedGeometry(path: seq<string>, fromM: Mapping, toM: Mapping, fromP: Point, toP: Point,
                          lookup: map<Key, TrackRec>, hav: Metric): (r: Option<seq<Point>>)
    ensures r.Some? ==> |r.value| >= 2
  {
    match PathGeometry(path, lookup)
    case None => None
    case Some(coords) =>
      if |coords| < 2 then None
      else Some(ExtendToEdge(ExtendToEdge(coords, fromM, fromP, lookup, false, hav), toM, toP, lookup, true, hav))
  }

  /** g appears in r as a run of consecutive points. */
  ghost predicate RunsThrough(r: seq<Point>, g: seq<Point>) {
    exists lo :: 0 <= lo <= |r| - |g| && Window(r, lo, |g|) == g
  }

  function Window(r: seq<Point>, lo: int, n: nat): seq<Point>
    requires 0 <= lo <= |r| - n
  {
    r[lo..lo + n]
  }

  /**
   * The routed geometry exists exactly when the path geometry has two points or more. It holds
   * the path geometry as a contiguous run, and its ends are no farther from the settlements than
   * the path geometry's ends.
   */
  lemma {:induction false} RoutedGeometryKeepsPath(path: seq<string>, fromM: Mapping, toM: Mapping, fromP: Point, toP: Point,
                                lookup: map<Key, TrackRec>, hav: Metric)
    ensures var r := RoutedGeometry(path, fromM, toM, fromP, toP, lookup, hav);
      var g := PathGeometry(path, lookup);
      && (r.Some? <==> g.Some? && |g.value| >= 2)
      && (r.Some? ==>
            && RunsThrough(r.value, g.value)
            && hav(r.value[0], fromP) <= hav(g.value[0], fromP)
            && hav(Last(r.value), toP) <= hav(Last(g.value), toP))
  {
    var r := RoutedGeometry(path, fromM, toM, fromP, toP, lookup, hav);
    if r.Some? {
      var g := PathGeometry(path, lookup).value;
      var e1 := ExtendToEdge(g, fromM, fromP, lookup, false, hav);
      var e2 := ExtendToEdge(e1, toM, toP, lookup, true, hav);
      ExtendNoFarther(g, fromM, fromP, lookup, false, hav);
      ExtendNoFarther(e1, toM, toP, lookup, true, hav);
      TwoExtensions(g, e1, e2, fromP, toP, hav);
    }
  }

  /** A route grown at its front and then at its back still runs through the original. */
  lemma {:induction false} TwoExtensions(g: seq<Point>, e1: seq<Point>, e2: seq<Point>, fromP: Point, toP: Point, hav: Metric)
    requires 0 < |g| <= |e1| <= |e2|
    requires e1[|e1| - |g|..] == g && hav(e1[0], fromP) <= hav(g[0], fromP)
    requires e2[..|e1|] == e1 && hav(Last(e2), toP) <= hav(Last(e1), toP)
    ensures RunsThrough(e2, g) && hav(e2[0], fromP) <= hav(g[0], fromP) && hav(Last(e2), toP) <= hav(Last(g), toP)
  {
    var lo := |e1| - |g|;
    assert e2[lo..lo + |g|] == e1[lo..];
    assert Window(e2, lo, |g|) == g;
    assert e2[0] == e1[0];
    assert e1[|e1| - 1] == e1[lo..][|g| - 1];
  }

  /** p is a path find_path may return from a to b: a walk between them, shortest for non-negative weights. */
  ghost predicate ShortestRoute(adj: Adj, a: string, b: string, p: seq<string>) {
    && |p| > 0 && p[0] == a && Last(p) == b && IsWalk(adj, p)
    && (NonNegativeWeights(adj) ==>
          forall q :: IsWalk(adj, q) && |q| > 0 && q[0] == a && Last(q) == b ==> PathWeight(adj, p) <= PathWeight(adj, q))
  }

  ghost predicate Unreachable(adj: Adj, a: string, b: string) {
    forall q :: IsWalk(adj, q) && |q| > 0 && q[0] == a ==> Last(q) != b
  }

  /** The status a connection gets when find_path returns the given route. */
  function RoutedStatus(path: seq<string>, fromM: Mapping, toM: Mapping, fromP: Point, toP: Point,
                        lookup: map<Key, TrackRec>, hav: Metric): (s: Status)
    ensures s != NoMapping && s != NoPath
  {
    match RoutedGeometry(path, fromM, toM, fromP, toP, lookup, hav)
    case None => NoGeometry
    case Some(coords) => Judged(coords, fromP, toP, hav)
  }

  // ---------------------------------------------------------------------------------------------
  // verify_connection

  /**
   * Judge one connection. The mappings must have one or two snap nodes with snap_node first: the
   * node-only geometry unpacks an edge mapping's two snap nodes.
   */
  method VerifyConnection(fromName: string, toName: string, fromP: Point, toP: Point, mappings: map<string, Mapping>,
                          adj: Adj, lookup: map<Key, TrackRec>, nodes: map<string, Point>, hav: Metric)
    returns (success: bool, status: Status)
    requires forall name :: name in mappings ==> WellFormed(mappings[name])
    ensures success <==> Success(status)
    ensures status == NoMapping <==> fromName !in mappings || toName !in mappings
    ensures fromName in mappings && toName in mappings ==>
      var fromM, toM := mappings[fromName], mappings[toName];
      var local := LocalGeometry(fromM, toM, fromP, toP, lookup, nodes, hav);
      if Present(local) then status == Judged(local.value, fromP, toP, hav)
      else if status == NoPath then Unreachable(adj, fromM.snapNode, toM.snapNode)
      else exists path :: ShortestRoute(adj, fromM.snapNode, toM.snapNode, path)
                          && status == RoutedStatus(path, fromM, toM, fromP, toP, lookup, hav)
  {
    if fromName !in mappings || toName !in mappings {
      return false, NoMapping;
    }
    var fromM, toM := mappings[fromName], mappings[toName];
    var coords := GetLocalGeometry(fromM, toM, fromP, toP, lookup, nodes, hav);
    if !Present(coords) {
      var path := FindPath(fromM.snapNode, toM.snapNode, adj);
      if path.None? {
        return false, NoPath;
      }
      assert ShortestRoute(adj, fromM.snapNode, toM.snapNode, path.value);
      coords := GetRoutedGeometry(path.value, fromM, toM, fromP, toP, lookup, hav);
      if coords.None? {
        return false, NoGeometry;
      }
      status := Judge(coords.value, fromP, toP, hav);
    } else {
      status := Judge(coords.value, fromP, toP, hav);
    }
    success := status == Warning || status == Ok;
  }

  /** The chain of local geometries as verify_connection tries them. */
  method GetLocalGeometry(fromM: Mapping, toM: Mapping, fromP: Point, toP: Point, lookup: map<Key, TrackRec>,
                          nodes: map<string, Point>, hav: Metric) returns (coords: Option<seq<Point>>)
    requires WellFormed(fromM) && WellFormed(toM)
    ensures coords == LocalGeometry(fromM, toM, fromP, toP, lookup, nodes, hav)
  {
    coords := None;
    if fromM.snapNode == toM.snapNode {
      coords := GetSameEdgeGeometry(fromM, toM, fromP, toP, lookup, hav);
      if !Present(coords) {
        coords := GetSharedNodeGeometry(fromM, toM, fromP, toP, lookup, nodes, hav);
      }
      if !Present(coords) {
        coords := GetNodeOnlyGeometry(fromM, toM, fromP, toP, lookup, nodes, hav);
      }
    }
  }

  /** The path geometry of a found route, extended onto both settlements' edges. */
  method GetRoutedGeometry(path: seq<string>, fromM: Mapping, toM: Mapping, fromP: Point, toP: Point,
                           lookup: map<Key, TrackRec>, hav: Metric) returns (coords: Option<seq<Point>>)
    ensures coords == RoutedGeometry(path, fromM, toM, fromP, toP, lookup, hav)
  {
    var geometry := GetPathGeometry(path, lookup);
    if geometry.None? || |geometry.value| < 2 {
      return None;
    }
    var extended := ExtendPathToEdge(geometry.value, fromM, fromP, lookup, false, hav);
    extended := ExtendPathToEdge(extended, toM, toP, lookup, true, hav);
    return Some(extended);
  }

  /** The closing checks of verify_connection on a built geometry. */
  method Judge(coords: seq<Point>, fromP: Point, toP: Point, hav: Metric) returns (status: Status)
    ensures status == Judged(coords, fromP, toP, hav)
  {
    if |coords| < 2 {
      return NoGeometry;
    }
    var fromDist := FindClosestPointDistance(coords, fromP, hav);
    var toDist := FindClosestPointDistance(coords, toP, hav);
    var issues: seq<Issue> := [];
    if fromDist.value > ErrorThreshold {
      issues := issues + [Issue(FromSide, fromDist.value, false)];
    } else if fromDist.value > WarnThreshold {
      issues := issues + [Issue(FromSide, fromDist.value, true)];
    }
    if toDist.value > ErrorThreshold {
      issues := issues + [Issue(ToSide, toDist.value, false)];
    } else if toDist.value > WarnThreshold {
      issues := issues + [Issue(ToSide, toDist.value, true)];
    }
    if |issues| > 0 {
      var maxDist := if fromDist.value >= toDist.value then fromDist.value else toDist.value;
      if maxDist > ErrorThreshold {
        return FarFromPath;
      }
      return Warning;
    }
    return Ok;
  }
}
