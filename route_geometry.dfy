/**
 * Route geometry assembly of scripts/verify_railway_routes.py, part one: track lookups with
 * coordinates turned from [lon, lat] into [lat, lon], the running closest-vertex scans, the
 * geometry of a routed path and its extension along a partially used edge.
 *
 * After LatLon a Point holds x = latitude and y = longitude, the order the script works in; the
 * haversine distance is a Metric parameter on such points.
 */
module RouteGeometry {
  import opened Wrappers
  import opened Geometry
  import opened Minimum
  import opened Snapper
  import opened Routing

  // ---------------------------------------------------------------------------------------------
  // Coordinates and track lookups

  /** [[c[1], c[0]] for c in coordinates]: swap [lon, lat] into [lat, lon]. */
  function LatLon(coords: seq<Point>): (r: seq<Point>)
    ensures |r| == |coords|
    ensures forall i :: 0 <= i < |coords| ==> r[i] == Point(coords[i].y, coords[i].x)
  {
    seq(|coords|, i requires 0 <= i < |coords| => Point(coords[i].y, coords[i].x))
  }

  /** Swapping twice gives the coordinates back: no coordinate is lost or altered. */
  lemma {:induction false} LatLonInvolution(coords: seq<Point>)
    ensures LatLon(LatLon(coords)) == coords
  {
  }

  /** track_lookup.get("a|b") or track_lookup.get("b|a"), kept only when it has coordinates. */
  function EdgeCoords(lookup: map<Key, TrackRec>, a: string, b: string): (r: Option<seq<Point>>)
    ensures r.Some? ==> |r.value| > 0
    ensures r.None? <==>
      (Key(a, b) !in lookup || |lookup[Key(a, b)].coordinates| == 0) &&
      (Key(a, b) in lookup || Key(b, a) !in lookup || |lookup[Key(b, a)].coordinates| == 0)
  {
    var track := if Key(a, b) in lookup then Some(lookup[Key(a, b)])
      else if Key(b, a) in lookup then Some(lookup[Key(b, a)])
      else None;
    if track.Some? && |track.value.coordinates| > 0 then Some(LatLon(track.value.coordinates)) else None
  }

  /** On a lookup built by build_track_lookup, the order of the two node ids does not matter. */
  lemma {:induction false} EdgeCoordsSymmetric(tracks: seq<TrackRec>, a: string, b: string)
    ensures EdgeCoords(TrackLookupOf(tracks), a, b) == EdgeCoords(TrackLookupOf(tracks), b, a)
  {
    TrackLookupSymmetric(tracks, a, b);
  }

  /** The distance from every vertex to p, in vertex order. */
  function Distances(coords: seq<Point>, p: Point, hav: Metric): (ds: seq<real>)
    ensures |ds| == |coords|
    ensures forall i :: 0 <= i < |coords| ==> ds[i] == hav(coords[i], p)
  {
    seq(|coords|, i requires 0 <= i < |coords| => hav(coords[i], p))
  }

  /** The index of the vertex closest to p: the first of the nearest ones, 0 for no vertices. */
  function Closest(coords: seq<Point>, p: Point, hav: Metric): (k: nat)
    ensures |coords| > 0 ==> k < |coords|
    ensures forall i :: 0 <= i < |coords| ==> hav(coords[k], p) <= hav(coords[i], p)
    ensures forall i :: 0 <= i < k && k < |coords| ==> hav(coords[i], p) > hav(coords[k], p)
  {
    ClosestIndex(Distances(coords, p, hav))
  }

  /** Is the first vertex strictly nearer to p than the last one (in |dlat| + |dlon|)? */
  predicate StartIsNear(coords: seq<Point>, p: Point)
    requires |coords| > 0
  {
    Manhattan(coords[0], p) < Manhattan(Last(coords), p)
  }

  // ---------------------------------------------------------------------------------------------
  // Running-minimum scans

  /** The state of a scan after i values: min_dist is None while it is still infinite. */
  predicate Scanned(ds: seq<real>, i: nat, idx: nat, minDist: Option<real>)
    requires i <= |ds|
  {
    match FirstMin(ds[..i])
    case None => idx == 0 && minDist.None?
    case Some(k) => idx == k && minDist == Some(ds[k])
  }

  lemma {:induction false} ScanStep(ds: seq<real>, i: nat, idx: nat, minDist: Option<real>)
    requires i < |ds| && Scanned(ds, i, idx, minDist)
    ensures minDist.None? || ds[i] < minDist.value ==> Scanned(ds, i + 1, i, Some(ds[i]))
    ensures !(minDist.None? || ds[i] < minDist.value) ==> Scanned(ds, i + 1, idx, minDist)
  {
    FirstMinStep(ds, i);
  }

  lemma {:induction false} ScanDone(ds: seq<real>, idx: nat, minDist: Option<real>)
    requires Scanned(ds, |ds|, idx, minDist)
    ensures idx == ClosestIndex(ds)
    ensures minDist.None? <==> |ds| == 0
    ensures minDist.Some? ==> minDist.value == ds[idx]
  {
    assert ds[..|ds|] == ds;
  }

  /** The closest-vertex loop the geometry functions share: index and distance of the nearest vertex. */
  method ClosestVertex(coords: seq<Point>, p: Point, hav: Metric) returns (idx: nat, minDist: Option<real>)
    ensures idx == Closest(coords, p, hav)
    ensures minDist.None? <==> |coords| == 0
    ensures minDist.Some? ==> minDist.value == hav(coords[idx], p)
  {
    ghost var ds := Distances(coords, p, hav);
    idx, minDist := 0, None;
    for i := 0 to |coords|
      invariant Scanned(ds, i, idx, minDist)
    {
      var d := hav(coords[i], p);
      ScanStep(ds, i, idx, minDist);
      if minDist.None? || d < minDist.value {
        minDist := Some(d);
        idx := i;
      }
    }
    ScanDone(ds, idx, minDist);
  }

  /** The least value, None (infinity) for no values. */
  function MinOf(ds: seq<real>): (m: Option<real>)
    ensures m.None? <==> |ds| == 0
    ensures m.Some? ==> (exists i :: 0 <= i < |ds| && ds[i] == m.value) && forall i :: 0 <= i < |ds| ==> m.value <= ds[i]
    decreases |ds|
  {
    if |ds| == 0 then None
    else
      var m := MinOf(ds[..|ds| - 1]);
      if m.None? || ds[|ds| - 1] < m.value then Some(ds[|ds| - 1]) else m
  }

  /** find_closest_point_distance: how close the route gets to the target, infinity for no points. */
  method FindClosestPointDistance(coords: seq<Point>, target: Point, hav: Metric) returns (minDist: Option<real>)
    ensures minDist == MinOf(Distances(coords, target, hav))
  {
    ghost var ds := Distances(coords, target, hav);
    minDist := None;
    for i := 0 to |coords|
      invariant minDist == MinOf(ds[..i])
    {
      assert ds[..i + 1][..i] == ds[..i];
      var d := hav(coords[i], target);
      if minDist.None? || d < minDist.value {
        minDist := Some(d);
      }
    }
    assert ds[..|coords|] == ds;
  }

  // ---------------------------------------------------------------------------------------------
  // get_path_geometry

  /**
   * How get_path_geometry lays one track after the points gathered so far: reversed exactly when
   * the running last point is strictly nearer to the track's last point than to its first.
   */
  function Oriented(acc: seq<Point>, coords: seq<Point>): seq<Point>
    requires |coords| > 0
  {
    if |acc| > 0 && Manhattan(Last(acc), Last(coords)) < Manhattan(Last(acc), coords[0]) then Reverse(coords)
    else coords
  }

  /** The track of the hop a -> b, looked up under "a|b" only, when it has coordinates. */
  function HopCoords(lookup: map<Key, TrackRec>, a: string, b: string): Option<seq<Point>> {
    if Key(a, b) in lookup && |lookup[Key(a, b)].coordinates| > 0 then Some(LatLon(lookup[Key(a, b)].coordinates))
    else None
  }

  /** The points get_path_geometry gathers along path: every hop's track in full, in path order. */
  function PathCoords(path: seq<string>, lookup: map<Key, TrackRec>): seq<Point>
    decreases |path|
  {
    if |path| < 2 then []
    else WithHop(PathCoords(path[..|path| - 1], lookup), lookup, path[|path| - 2], path[|path| - 1])
  }

  /** The running points after the hop a -> b: its track appended, oriented, when it has one. */
  function WithHop(acc: seq<Point>, lookup: map<Key, TrackRec>, a: string, b: string): seq<Point> {
    match HopCoords(lookup, a, b)
    case None => acc
    case Some(coords) => acc + Oriented(acc, coords)
  }

  /** get_path_geometry: None for fewer than two nodes or when no hop has a track. */
  function PathGeometry(path: seq<string>, lookup: map<Key, TrackRec>): Option<seq<Point>> {
    if |path| < 2 then None
    else
      var coords := PathCoords(path, lookup);
      if |coords| == 0 then None else Some(coords)
  }

  /**
   * The track laid after the running points is the track or its reverse, and starts at the end
   * that is (not strictly) nearer to the running last point; it is reversed exactly when the
   * last point is strictly nearer to the track's last coordinate.
   */
  lemma {:induction false} OrientedFacesJoint(acc: seq<Point>, coords: seq<Point>)
    requires |coords| > 0
    ensures var o := Oriented(acc, coords);
      && |o| == |coords|
      && (o == coords || o == Reverse(coords))
      && (o == Reverse(coords) && o != coords ==>
            |acc| > 0 && Manhattan(Last(acc), Last(coords)) < Manhattan(Last(acc), coords[0]))
      && (|acc| > 0 ==> Manhattan(Last(acc), o[0]) <= Manhattan(Last(acc), Last(o)))
  {
    var o := Oriented(acc, coords);
    if o != coords {
      assert o[0] == coords[|coords| - 1] && Last(o) == coords[0];
    }
  }

  /** The number of track points along path, counted hop by hop with joints counted twice. */
  function TrackPointCount(path: seq<string>, lookup: map<Key, TrackRec>): nat
    decreases |path|
  {
    if |path| < 2 then 0
    else
      var n := |path|;
      var here := if Key(path[n - 2], path[n - 1]) in lookup then |lookup[Key(path[n - 2], path[n - 1])].coordinates| else 0;
      TrackPointCount(path[..n - 1], lookup) + here
  }

  /**
   * The assembled geometry keeps every point of every hop's track, repeating the shared joint
   * points, and a longer path only appends to the geometry of its prefix.
   */
  lemma {:induction false} PathCoordsAppends(path: seq<string>, lookup: map<Key, TrackRec>, k: nat)
    requires k <= |path|
    ensures |PathCoords(path, lookup)| == TrackPointCount(path, lookup)
    ensures PathCoords(path[..k], lookup) <= PathCoords(path, lookup)
    decreases |path|
  {
    if |path| >= 2 {
      var front := path[..|path| - 1];
      if k < |path| {
        assert path[..k] == front[..k];
        PathCoordsAppends(front, lookup, k);
      } else {
        assert path[..k] == path;
        PathCoordsAppends(front, lookup, 0);
      }
      var acc := PathCoords(front, lookup);
      match HopCoords(lookup, path[|path| - 2], path[|path| - 1])
      case None =>
      case Some(coords) =>
        OrientedFacesJoint(acc, coords);
    } else if k < |path| {
      assert |path[..k]| < 2;
    } else {
      assert path[..k] == path;
    }
  }

  /** get_path_geometry as the loop the script runs. */
  method GetPathGeometry(path: seq<string>, lookup: map<Key, TrackRec>) returns (r: Option<seq<Point>>)
    ensures r == PathGeometry(path, lookup)
  {
    if |path| < 2 {
      return None;
    }
    var all: seq<Point> := [];
    for i := 0 to |path| - 1
      invariant all == PathCoords(path[..i + 1], lookup)
    {
      assert path[..i + 2][..i + 1] == path[..i + 1];
      all := AppendHop(all, lookup, path[i], path[i + 1]);
    }
    assert path[..|path|] == path;
    if |all| == 0 {
      return None;
    }
    return Some(all);
  }

  /** One iteration of get_path_geometry's loop: look the hop up and lay its track, oriented. */
  method AppendHop(all: seq<Point>, lookup: map<Key, TrackRec>, a: string, b: string) returns (next: seq<Point>)
    ensures next == WithHop(all, lookup, a, b)
  {
    next := all;
    var key := Key(a, b);
    if key in lookup && |lookup[key].coordinates| > 0 {
      var coords := LatLon(lookup[key].coordinates);
      if |all| > 0 {
        var lastPoint := all[|all| - 1];
        var distToFirst := Abs(lastPoint.x - coords[0].x) + Abs(lastPoint.y - coords[0].y);
        var distToLast := Abs(lastPoint.x - coords[|coords| - 1].x) + Abs(lastPoint.y - coords[|coords| - 1].y);
        if distToLast < distToFirst {
          coords := Reverse(coords);
        }
      }
      next := all + coords;
    }
  }

  // ---------------------------------------------------------------------------------------------
  // extend_path_to_edge

  /** The index of the track end nearer to p: the first vertex when strictly nearer, else the last. */
  function NearEnd(track: seq<Point>, p: Point): (e: nat)
    requires |track| > 0
    ensures e < |track|
    ensures Manhattan(track[e], p) <= Manhattan(track[0], p) && Manhattan(track[e], p) <= Manhattan(Last(track), p)
  {
    if StartIsNear(track, p) then 0 else |track| - 1
  }

  /**
   * The run of vertices from the track end nearer to p to vertex k: track[:k + 1] when the start is
   * nearer, track[k:][::-1] otherwise.
   */
  function FromNearEnd(track: seq<Point>, k: nat, p: Point): (r: seq<Point>)
    requires k < |track|
    ensures |r| == (if StartIsNear(track, p) then k + 1 else |track| - k)
    ensures |r| > 0 && r[0] == track[NearEnd(track, p)] && Last(r) == track[k]
    ensures forall n :: 0 <= n < |r| ==> r[n] == track[if StartIsNear(track, p) then n else |track| - 1 - n]
  {
    if StartIsNear(track, p) then track[..k + 1] else Reverse(track[k..])
  }

  /**
   * The slicing the script repeats in each geometry helper: compare the track's two ends with p
   * in |dlat| + |dlon| and cut the run from the nearer end to vertex k.
   */
  method RunFromNearEnd(track: seq<Point>, k: nat, p: Point) returns (run: seq<Point>)
    requires k < |track|
    ensures run == FromNearEnd(track, k, p)
  {
    var distToStart := Abs(track[0].x - p.x) + Abs(track[0].y - p.y);
    var distToEnd := Abs(track[|track| - 1].x - p.x) + Abs(track[|track| - 1].y - p.y);
    if distToStart < distToEnd {
      run := track[..k + 1];
    } else {
      run := Reverse(track[k..]);
    }
  }

  /**
   * The run of vertices from vertex k to the track end nearer to p: track[:k + 1][::-1] when the
   * start is nearer, track[k:] otherwise.
   */
  function ToNearEnd(track: seq<Point>, k: nat, p: Point): (r: seq<Point>)
    requires k < |track|
    ensures |r| == (if StartIsNear(track, p) then k + 1 else |track| - k)
    ensures |r| > 0 && r[0] == track[k] && Last(r) == track[NearEnd(track, p)]
    ensures forall n :: 0 <= n < |r| ==> r[n] == track[if StartIsNear(track, p) then k - n else k + n]
  {
    if StartIsNear(track, p) then Reverse(track[..k + 1]) else track[k..]
  }

  /** The slicing of RunFromNearEnd in the other direction, from vertex k to the nearer end. */
  method RunToNearEnd(track: seq<Point>, k: nat, p: Point) returns (run: seq<Point>)
    requires k < |track|
    ensures run == ToNearEnd(track, k, p)
  {
    var distToStart := Abs(track[0].x - p.x) + Abs(track[0].y - p.y);
    var distToEnd := Abs(track[|track| - 1].x - p.x) + Abs(track[|track| - 1].y - p.y);
    if distToStart < distToEnd {
      run := Reverse(track[..k + 1]);
    } else {
      run := track[k..];
    }
  }

  /**
   * The decision extend_path_to_edge makes: the track piece to add, or None when the mapping is not
   * on an edge with a track, or when the closest vertex is no nearer than the current end.
   */
  function ExtensionFor(coords: seq<Point>, m: Mapping, s: Point, lookup: map<Key, TrackRec>, atEnd: bool, hav: Metric)
    : (r: Option<seq<Point>>)
    requires |coords| > 0
    ensures r.Some? ==> |r.value| > 0
  {
    if |m.snapNodes| != 2 then None
    else
      match EdgeCoords(lookup, m.snapNodes[0], m.snapNodes[1])
      case None => None
      case Some(track) =>
        var k := Closest(track, s, hav);
        var endpoint := if atEnd then Last(coords) else coords[0];
        if hav(track[k], s) >= hav(endpoint, s) then None
        else Some(FromNearEnd(track, k, endpoint))
  }

  /**
   * extend_path_to_edge as written: appended pieces drop their first point, prepended pieces drop
   * their last point.
   */
  function ExtendAsWritten(coords: seq<Point>, m: Mapping, s: Point, lookup: map<Key, TrackRec>, atEnd: bool,
                           hav: Metric): seq<Point>
    requires |coords| > 0
  {
    match ExtensionFor(coords, m, s, lookup, atEnd, hav)
    case None => coords
    case Some(ext) => if atEnd then coords + ext[1..] else ext[..|ext| - 1] + coords
  }

  /**
   * extend_path_to_edge with the start case mirrored from the end case: the piece is walked from
   * the settlement's closest vertex back to the route's first point, whose own vertex is dropped.
   */
  function ExtendToEdge(coords: seq<Point>, m: Mapping, s: Point, lookup: map<Key, TrackRec>, atEnd: bool,
                        hav: Metric): (r: seq<Point>)
    requires |coords| > 0
    ensures |r| >= |coords|
  {
    match ExtensionFor(coords, m, s, lookup, atEnd, hav)
    case None => coords
    case Some(ext) => if atEnd then coords + ext[1..] else Reverse(ext[1..]) + coords
  }

  /**
   * The route is left unchanged unless the mapping names exactly two snap nodes whose track has
   * coordinates and whose closest vertex is strictly nearer than the route's current end.
   * Otherwise the route keeps its points and grows at the chosen end only, and that end becomes the
   * settlement's closest track vertex, strictly nearer to the settlement than the old end.
   */
  lemma {:induction false} ExtendReachesClosest(coords: seq<Point>, m: Mapping, s: Point, lookup: map<Key, TrackRec>, atEnd: bool,
                             hav: Metric)
    requires |coords| > 0
    ensures var r := ExtendToEdge(coords, m, s, lookup, atEnd, hav);
      && (r != coords ==>
            && |m.snapNodes| == 2 && EdgeCoords(lookup, m.snapNodes[0], m.snapNodes[1]).Some?
            && var track := EdgeCoords(lookup, m.snapNodes[0], m.snapNodes[1]).value;
               var k := Closest(track, s, hav);
               && hav(track[k], s) < hav(if atEnd then Last(coords) else coords[0], s)
               && (atEnd ==> Last(r) == track[k])
               && (!atEnd ==> r[0] == track[k]))
      && (atEnd ==> r[..|coords|] == coords)
      && (!atEnd ==> r[|r| - |coords|..] == coords)
  {
    var r := ExtendToEdge(coords, m, s, lookup, atEnd, hav);
    match ExtensionFor(coords, m, s, lookup, atEnd, hav)
    case None =>
    case Some(ext) =>
      if atEnd {
        assert r[..|coords|] == coords;
        if |ext| > 1 {
          assert Last(r) == Last(ext);
        }
      } else {
        var front := Reverse(ext[1..]);
        assert r[|r| - |coords|..] == coords;
        if |ext| > 1 {
          assert r[0] == front[0] == ext[|ext| - 1];
        }
      }
  }
  /**
   * Extending keeps the route whole and never moves the route's end at the settlement's side
   * farther from the settlement.
   */
  lemma {:induction false} ExtendNoFarther(coords: seq<Point>, m: Mapping, s: Point, lookup: map<Key, TrackRec>, atEnd: bool, hav: Metric)
    requires |coords| > 0
    ensures var r := ExtendToEdge(coords, m, s, lookup, atEnd, hav);
      if atEnd then r[..|coords|] == coords && hav(Last(r), s) <= hav(Last(coords), s)
      else r[|r| - |coords|..] == coords && hav(r[0], s) <= hav(coords[0], s)
  {
    ExtendReachesClosest(coords, m, s, lookup, atEnd, hav);
  }


  // A sample edge for the counterexample below: a three-vertex track "n1|n2" along one meridian,
  // a route leaving n1 westwards and a settlement on the far vertex.
  const SampleLookup: map<Key, TrackRec> :=
    map[Key("n1", "n2") := TrackRec("n1", "n2", [Point(0.0, 0.0), Point(0.0, 1.0), Point(0.0, 2.0)])]
  const SampleTrack: seq<Point> := [Point(0.0, 0.0), Point(1.0, 0.0), Point(2.0, 0.0)]
  const SampleMapping: Mapping := Mapping("A", "n1", ["n1", "n2"], EdgeType, Some(0.9), Some(1.0), 0.0, OnNetwork)
  const SampleRoute: seq<Point> := [Point(0.0, 0.0), Point(-1.0, 0.0)]
  const SampleSettlement: Point := Point(2.0, 0.0)

  lemma {:induction false} SampleCoords()
    ensures EdgeCoords(SampleLookup, "n1", "n2") == Some(SampleTrack)
  {
    var swapped := LatLon(SampleLookup[Key("n1", "n2")].coordinates);
    assert swapped[0] == SampleTrack[0] && swapped[1] == SampleTrack[1] && swapped[2] == SampleTrack[2];
    assert swapped == SampleTrack;
  }

  lemma {:induction false} SampleClosest()
    ensures Closest(SampleTrack, SampleSettlement, Manhattan) == 2
  {
    var k := Closest(SampleTrack, SampleSettlement, Manhattan);
    assert Manhattan(SampleTrack[k], SampleSettlement) <= Manhattan(SampleTrack[2], SampleSettlement);
    assert Manhattan(SampleTrack[2], SampleSettlement) == 0.0;
    SampleOnlyFarVertex(k);
  }

  lemma {:induction false} SampleOnlyFarVertex(k: nat)
    requires k < 3 && Manhattan(SampleTrack[k], SampleSettlement) <= 0.0
    ensures k == 2
  {
    assert Manhattan(SampleTrack[0], SampleSettlement) == 2.0;
    assert Manhattan(SampleTrack[1], SampleSettlement) == 1.0;
  }

  /** On the sample the whole track is the extension, ending at the far vertex. */
  lemma {:induction false} SampleExtension()
    ensures ExtensionFor(SampleRoute, SampleMapping, SampleSettlement, SampleLookup, false, Manhattan) == Some(SampleTrack)
  {
    SampleCoords();
    SampleClosest();
    SampleWholeTrack();
    assert Manhattan(SampleTrack[2], SampleSettlement) < Manhattan(SampleRoute[0], SampleSettlement);
  }

  lemma {:induction false} SampleWholeTrack()
    ensures FromNearEnd(SampleTrack, 2, SampleRoute[0]) == SampleTrack
  {
    assert SampleTrack[..3] == SampleTrack;
    assert Manhattan(SampleTrack[0], SampleRoute[0]) < Manhattan(SampleTrack[2], SampleRoute[0]);
  }

  /**
   * The start case as written does not reach the settlement: on the sample, the route is extended by
   * the first two vertices and still starts at the first one, while the corrected rule starts at the
   * settlement's vertex.
   */
  lemma {:induction false} ExtendAsWrittenMissesClosest()
    ensures ExtendAsWritten(SampleRoute, SampleMapping, SampleSettlement, SampleLookup, false, Manhattan)
      == [Point(0.0, 0.0), Point(1.0, 0.0)] + SampleRoute
    ensures ExtendToEdge(SampleRoute, SampleMapping, SampleSettlement, SampleLookup, false, Manhattan)
      == [Point(2.0, 0.0), Point(1.0, 0.0)] + SampleRoute
  {
    SampleExtension();
    assert ExtendAsWritten(SampleRoute, SampleMapping, SampleSettlement, SampleLookup, false, Manhattan)
      == SampleTrack[..2] + SampleRoute;
    assert ExtendToEdge(SampleRoute, SampleMapping, SampleSettlement, SampleLookup, false, Manhattan)
      == Reverse(SampleTrack[1..]) + SampleRoute;
    SampleTrackPieces();
  }

  lemma {:induction false} SampleTrackPieces()
    ensures SampleTrack[..2] == [Point(0.0, 0.0), Point(1.0, 0.0)]
    ensures Reverse(SampleTrack[1..]) == [Point(2.0, 0.0), Point(1.0, 0.0)]
  {
    assert SampleTrack[1..] == [Point(1.0, 0.0), Point(2.0, 0.0)];
  }

  /** extend_path_to_edge as the script runs it, with the start case corrected. */
  method ExtendPathToEdge(coords: seq<Point>, m: Mapping, s: Point, lookup: map<Key, TrackRec>, atEnd: bool,
                          hav: Metric) returns (r: seq<Point>)
    requires |coords| > 0
    ensures r == ExtendToEdge(coords, m, s, lookup, atEnd, hav)
  {
    if |m.snapNodes| != 2 {
      return coords;
    }
    var track := EdgeCoords(lookup, m.snapNodes[0], m.snapNodes[1]);
    if track.None? {
      return coords;
    }
    var trackCoords := track.value;
    var closestIdx, minDist := ClosestVertex(trackCoords, s, hav);
    var currentEndpoint := if atEnd then coords[|coords| - 1] else coords[0];
    var currentDist := hav(currentEndpoint, s);
    if minDist.value >= currentDist {
      return coords;
    }
    var extension := RunFromNearEnd(trackCoords, closestIdx, currentEndpoint);
    assert ExtensionFor(coords, m, s, lookup, atEnd, hav) == Some(extension);
    if atEnd {
      r := coords + extension[1..];
    } else {
      r := Reverse(extension[1..]) + coords;
    }
  }
}
