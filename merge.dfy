/**
 * scripts/merge_nrwn_data.py: shortline tracks of the national railway network are chained into
 * longer tracks per operator and stitched into the existing network as new nodes, edges and
 * track geometries.
 */
module Merge {
  import opened Wrappers
  import opened Geometry
  import opened NodeIds

  // ---------------------------------------------------------------------------------------------
  // Positions and lengths

  /** A GML posList, already split into numbers, read as (lon, lat) pairs. */
  method ParsePoslist(values: seq<real>) returns (r: Option<seq<Point>>)
    ensures r.None? <==> |values| % 2 == 1
    ensures r.Some? ==> |r.value| == |values| / 2
    ensures r.Some? ==> forall i :: 0 <= i < |r.value| ==> r.value[i] == Point(values[2 * i], values[2 * i + 1])
  {
    var coords: seq<Point> := [];
    var i := 0;
    while i < |values|
      invariant 0 <= i <= |values| && i % 2 == 0 && |coords| == i / 2
      invariant forall k :: 0 <= k < |coords| ==> coords[k] == Point(values[2 * k], values[2 * k + 1])
      decreases |values| - i
    {
      if i + 1 == |values| {
        // values[i + 1] is out of range: the script stops with an IndexError
        return None;
      }
      coords := coords + [Point(values[i], values[i + 1])];
      i := i + 2;
    }
    return Some(coords);
  }

  /** The posList text of a coordinate sequence. */
  function Flatten(coords: seq<Point>): (values: seq<real>)
    ensures |values| == 2 * |coords|
  {
    if |coords| == 0 then [] else [coords[0].x, coords[0].y] + Flatten(coords[1..])
  }

  /** Parsing gives back exactly the pairs a posList was written from, and nothing else. */
  lemma {:induction false} FlattenInverse(values: seq<real>, coords: seq<Point>)
    requires |values| == 2 * |coords|
    ensures Flatten(coords) == values <==>
      forall i :: 0 <= i < |coords| ==> coords[i] == Point(values[2 * i], values[2 * i + 1])
    decreases |coords|
  {
    if |coords| > 0 {
      FlattenInverse(values[2..], coords[1..]);
      var f := Flatten(coords);
      assert f == [coords[0].x, coords[0].y] + Flatten(coords[1..]);
      if forall i :: 0 <= i < |coords| ==> coords[i] == Point(values[2 * i], values[2 * i + 1]) {
        assert coords[0] == Point(values[0], values[1]);
        forall i | 0 <= i < |coords[1..]|
          ensures coords[1..][i] == Point(values[2..][2 * i], values[2..][2 * i + 1])
        {
          assert coords[i + 1] == Point(values[2 * (i + 1)], values[2 * (i + 1) + 1]);
        }
        assert values == [values[0], values[1]] + values[2..];
      }
      if f == values {
        forall i | 0 <= i < |coords|
          ensures coords[i] == Point(values[2 * i], values[2 * i + 1])
        {
          if i > 0 {
            assert coords[1..][i - 1] == Point(values[2..][2 * (i - 1)], values[2..][2 * (i - 1) + 1]);
          } else {
            assert f[0] == coords[0].x && f[1] == coords[0].y;
          }
        }
      }
    }
  }

  /** calculate_track_length: the summed haversine length of a track, in kilometres. */
  method CalculateTrackLength(coords: seq<Point>, hav: Metric) returns (km: real)
    ensures km == PolylineLength(coords, hav) / 1000.0
  {
    var total := 0.0;
    var i := 0;
    while i + 1 < |coords|
      invariant |coords| < 2 ==> i == 0
      invariant |coords| >= 2 ==> i < |coords| && total == PolylineLength(coords[..i + 1], hav)
      invariant |coords| < 2 ==> total == 0.0
      decreases |coords| - i
    {
      assert coords[..i + 2][..i + 1] == coords[..i + 1];
      total := total + hav(coords[i], coords[i + 1]);
      i := i + 1;
    }
    if |coords| >= 2 {
      assert coords[..i + 1] == coords;
    }
    km := total / 1000.0;
  }

  /** A polyline is as long walked backwards as forwards when the distance is symmetric. */
  lemma {:induction false} PolylineLengthReverse(pts: seq<Point>, hav: Metric)
    requires forall p, q :: hav(p, q) == hav(q, p)
    ensures PolylineLength(Reverse(pts), hav) == PolylineLength(pts, hav)
    decreases |pts|
  {
    if |pts| >= 2 {
      var front := pts[..|pts| - 1];
      PolylineLengthReverse(front, hav);
      ReverseFront(pts);
      PolylineLengthCons(Last(pts), Reverse(front), hav);
      assert Reverse(front)[0] == pts[|pts| - 2];
    }
  }

  /** Reversing a sequence puts its last element first, before the rest reversed. */
  lemma {:induction false} ReverseFront<T>(s: seq<T>)
    requires |s| > 0
    ensures Reverse(s) == [Last(s)] + Reverse(s[..|s| - 1])
  {
    var f := s[..|s| - 1];
    var r, rf := Reverse(s), Reverse(f);
    var t := [Last(s)] + rf;
    forall i | 0 <= i < |r| ensures r[i] == t[i] {
      if i > 0 {
        assert t[i] == rf[i - 1] == f[|f| - i];
      }
    }
    assert r == t;
  }

  /** The length of a two-point polyline is the distance between its points. */
  lemma {:induction false} PolylineLengthTwo(p: Point, q: Point, hav: Metric)
    ensures PolylineLength([p, q], hav) == hav(p, q)
  {
    assert [p, q][..1] == [p];
  }

  /** A point put in front of a polyline adds the distance to its first point. */
  lemma {:induction false} PolylineLengthCons(p: Point, pts: seq<Point>, hav: Metric)
    requires |pts| > 0
    ensures PolylineLength([p] + pts, hav) == hav(p, pts[0]) + PolylineLength(pts, hav)
  {
    var head := [p, pts[0]];
    PolylineLengthJoin(head, pts, hav);
    PolylineLengthTwo(p, pts[0], hav);
    assert head + pts[1..] == [p] + pts;
  }

  // ---------------------------------------------------------------------------------------------
  // Junctions with the existing network

  /** A node of the existing network, at (lon, lat). */
  datatype NetNode = NetNode(id: string, pos: Point)

  /** The index of the first node closer than tolerance to p, in list order. */
  function FirstJunctionIndex(p: Point, nodes: seq<NetNode>, hav: Metric, tolerance: real): (r: Option<nat>)
    ensures r.Some? ==> r.value < |nodes| && hav(p, nodes[r.value].pos) < tolerance
    ensures r.Some? ==> forall j :: 0 <= j < r.value ==> hav(p, nodes[j].pos) >= tolerance
    ensures r.None? ==> forall j :: 0 <= j < |nodes| ==> hav(p, nodes[j].pos) >= tolerance
    decreases |nodes|
  {
    if |nodes| == 0 then None
    else if hav(p, nodes[0].pos) < tolerance then Some(0)
    else
      match FirstJunctionIndex(p, nodes[1..], hav, tolerance)
      case None => None
      case Some(k) => Some(k + 1)
  }

  datatype Junction = Junction(id: string, dist: real)

  /** find_junction_node: the first existing node within tolerance, with its distance. */
  method FindJunctionNode(p: Point, nodes: seq<NetNode>, hav: Metric, tolerance: real) returns (r: Option<Junction>)
    ensures r.None? <==> FirstJunctionIndex(p, nodes, hav, tolerance).None?
    ensures r.Some? ==> var k := FirstJunctionIndex(p, nodes, hav, tolerance).value;
      r.value == Junction(nodes[k].id, hav(p, nodes[k].pos))
  {
    for i := 0 to |nodes|
      invariant forall j :: 0 <= j < i ==> hav(p, nodes[j].pos) >= tolerance
    {
      var dist := hav(p, nodes[i].pos);
      if dist < tolerance {
        return Some(Junction(nodes[i].id, dist));
      }
    }
    return None;
  }

  // ---------------------------------------------------------------------------------------------
  // Chaining segments

  /** Which end of a segment matched. */
  datatype End = AtStart | AtFinish

  /** Either end of the piece is within tolerance of p. */
  predicate Near(p: Point, piece: seq<Point>, hav: Metric, tolerance: real)
    requires |piece| > 0
  {
    hav(p, piece[0]) < tolerance || hav(p, Last(piece)) < tolerance
  }

  /** The end find_nearby_endpoint reports for a near piece: the start is checked first. */
  function NearEnd(p: Point, piece: seq<Point>, hav: Metric, tolerance: real): End
    requires |piece| > 0
  {
    if hav(p, piece[0]) < tolerance then AtStart else AtFinish
  }

  predicate Pieces(tracks: seq<seq<Point>>) {
    forall i :: 0 <= i < |tracks| ==> |tracks[i]| > 0
  }

  /** The first unused segment with an end within tolerance of p, in list order. */
  function FirstNearby(p: Point, tracks: seq<seq<Point>>, used: seq<bool>, hav: Metric, tolerance: real): (r: Option<nat>)
    requires Pieces(tracks) && |used| == |tracks|
    ensures r.Some? ==> r.value < |tracks| && !used[r.value] && Near(p, tracks[r.value], hav, tolerance)
    ensures r.Some? ==> forall j :: 0 <= j < r.value ==> used[j] || !Near(p, tracks[j], hav, tolerance)
    ensures r.None? ==> forall j :: 0 <= j < |tracks| ==> used[j] || !Near(p, tracks[j], hav, tolerance)
    decreases |tracks|
  {
    if |tracks| == 0 then None
    else if !used[0] && Near(p, tracks[0], hav, tolerance) then Some(0)
    else
      match FirstNearby(p, tracks[1..], used[1..], hav, tolerance)
      case None => None
      case Some(k) => Some(k + 1)
  }

  datatype Hit = Hit(index: nat, end: End)

  /** find_nearby_endpoint: the first unused segment with an end near p, and which end. */
  method FindNearbyEndpoint(p: Point, tracks: seq<seq<Point>>, used: seq<bool>, hav: Metric, tolerance: real)
    returns (r: Option<Hit>)
    requires Pieces(tracks) && |used| == |tracks|
    ensures r.None? <==> FirstNearby(p, tracks, used, hav, tolerance).None?
    ensures r.Some? ==> var k := FirstNearby(p, tracks, used, hav, tolerance).value;
      r.value == Hit(k, NearEnd(p, tracks[k], hav, tolerance))
  {
    for i := 0 to |tracks|
      invariant forall j :: 0 <= j < i ==> used[j] || !Near(p, tracks[j], hav, tolerance)
    {
      if used[i] {
        continue;
      }
      var dist := hav(p, tracks[i][0]);
      if dist < tolerance {
        return Some(Hit(i, AtStart));
      }
      dist := hav(p, tracks[i][|tracks[i]| - 1]);
      if dist < tolerance {
        return Some(Hit(i, AtFinish));
      }
    }
    return None;
  }

  /** The piece turned so that its matched end comes first. */
  function Leading(piece: seq<Point>, end: End): (r: seq<Point>)
    ensures |r| == |piece|
  {
    if end == AtStart then piece else Reverse(piece)
  }

  /** The piece turned so that its matched end comes last. */
  function Trailing(piece: seq<Point>, end: End): (r: seq<Point>)
    ensures |r| == |piece|
  {
    if end == AtFinish then piece else Reverse(piece)
  }

  /** A piece joined after the chain: its matched end is dropped in favour of the chain's last point. */
  function Append(chain: seq<Point>, piece: seq<Point>, end: End): seq<Point>
    requires |piece| > 0
  {
    chain + Leading(piece, end)[1..]
  }

  /** A piece joined before the chain: its matched end is dropped in favour of the chain's first point. */
  function Prepend(chain: seq<Point>, piece: seq<Point>, end: End): seq<Point>
    requires |piece| > 0
  {
    Trailing(piece, end)[..|piece| - 1] + chain
  }

  /**
   * Joining never duplicates the shared point: the chain keeps all its points in place, grows by
   * one point fewer than the piece has, and ends (or starts) at the piece's unmatched end.
   */
  lemma {:induction false} AppendShape(chain: seq<Point>, piece: seq<Point>, end: End)
    requires |chain| > 0 && |piece| > 0
    ensures var r := Append(chain, piece, end);
      |r| == |chain| + |piece| - 1 && r[..|chain|] == chain && r[0] == chain[0]
      && Last(r) == (if |piece| == 1 then Last(chain) else if end == AtStart then Last(piece) else piece[0])
  {
    var r := Append(chain, piece, end);
    assert r[..|chain|] == chain;
    if |piece| > 1 && end == AtFinish {
      assert Last(r) == Reverse(piece)[|piece| - 1];
    }
  }

  lemma {:induction false} PrependShape(chain: seq<Point>, piece: seq<Point>, end: End)
    requires |chain| > 0 && |piece| > 0
    ensures var r := Prepend(chain, piece, end);
      |r| == |chain| + |piece| - 1 && r[|piece| - 1..] == chain && Last(r) == Last(chain)
      && r[0] == (if |piece| == 1 then chain[0] else if end == AtFinish then piece[0] else Last(piece))
  {
    var r := Prepend(chain, piece, end);
    assert r[|piece| - 1..] == chain;
    if |piece| > 1 && end == AtStart {
      assert r[0] == Reverse(piece)[0];
    }
  }

  /**
   * When the matched end coincides with the chain's end, the joined chain is exactly as long as
   * its parts together: no stretch of track is counted twice or lost.
   */
  lemma {:induction false} AppendLength(chain: seq<Point>, piece: seq<Point>, end: End, hav: Metric)
    requires |chain| > 0 && |piece| > 0 && Last(chain) == Leading(piece, end)[0]
    requires forall p, q :: hav(p, q) == hav(q, p)
    ensures PolylineLength(Append(chain, piece, end), hav) == PolylineLength(chain, hav) + PolylineLength(piece, hav)
  {
    PolylineLengthJoin(chain, Leading(piece, end), hav);
    if end == AtFinish {
      PolylineLengthReverse(piece, hav);
    }
  }

  lemma {:induction false} DropSharedPoint(t: seq<Point>, chain: seq<Point>)
    requires |t| > 0 && |chain| > 0 && Last(t) == chain[0]
    ensures t[..|t| - 1] + chain == t + chain[1..]
  {
    assert t == t[..|t| - 1] + [chain[0]];
    assert chain == [chain[0]] + chain[1..];
  }

  lemma {:induction false} PrependLength(chain: seq<Point>, piece: seq<Point>, end: End, hav: Metric)
    requires |chain| > 0 && |piece| > 0 && Last(Trailing(piece, end)) == chain[0]
    requires forall p, q :: hav(p, q) == hav(q, p)
    ensures PolylineLength(Prepend(chain, piece, end), hav) == PolylineLength(chain, hav) + PolylineLength(piece, hav)
  {
    var t := Trailing(piece, end);
    DropSharedPoint(t, chain);
    PolylineLengthJoin(t, chain, hav);
    if end == AtStart {
      PolylineLengthReverse(piece, hav);
    }
  }

  /** extend(piece[1:]) or extend(reversed(piece)[1:]), as the forward loop writes it. */
  method AppendPiece(chain: seq<Point>, piece: seq<Point>, end: End) returns (r: seq<Point>)
    requires |chain| > 0 && |piece| > 0
    ensures r == Append(chain, piece, end) && |r| >= |chain|
  {
    if end == AtStart {
      r := chain + piece[1..];
    } else {
      var reversed := Reverse(piece);
      r := chain + reversed[1..];
    }
  }

  /** piece[:-1] + chain or reversed(piece)[:-1] + chain, as the backward loop writes it. */
  method PrependPiece(chain: seq<Point>, piece: seq<Point>, end: End) returns (r: seq<Point>)
    requires |chain| > 0 && |piece| > 0
    ensures r == Prepend(chain, piece, end) && EndsWith(r, chain)
  {
    if end == AtFinish {
      r := piece[..|piece| - 1] + chain;
    } else {
      var reversed := Reverse(piece);
      r := reversed[..|piece| - 1] + chain;
    }
  }

  /** The number of segments not yet used. */
  function Remaining(used: seq<bool>): (n: nat)
    ensures n <= |used|
  {
    if |used| == 0 then 0 else Remaining(used[..|used| - 1]) + (if used[|used| - 1] then 0 else 1)
  }

  lemma {:induction false} RemainingMark(used: seq<bool>, j: nat)
    requires j < |used| && !used[j]
    ensures Remaining(used[j := true]) == Remaining(used) - 1
    decreases |used|
  {
    var u := used[j := true];
    if j < |used| - 1 {
      RemainingMark(used[..|used| - 1], j);
      assert u[..|u| - 1] == used[..|used| - 1][j := true];
    } else {
      assert u[..|u| - 1] == used[..|used| - 1];
    }
  }

  /**
   * Which chain each used item belongs to: exactly the used items have an owner, and every owner
   * is a chain below bound.
   */
  ghost predicate Owned(used: seq<bool>, owner: map<nat, nat>, bound: nat) {
    && (forall j :: 0 <= j < |used| ==> (used[j] <==> j in owner))
    && (forall j :: j in owner ==> j < |used| && owner[j] < bound)
  }

  /** Marking an unused item and giving it to chain c keeps the bookkeeping and uses one up. */
  lemma {:induction false} MarkUsed(used: seq<bool>, owner: map<nat, nat>, bound: nat, j: nat, c: nat)
    requires Owned(used, owner, bound) && j < |used| && !used[j] && c < bound
    ensures Owned(used[j := true], owner[j := c], bound)
    ensures Remaining(used[j := true]) < Remaining(used)
    ensures forall k :: 0 <= k < |used| && used[k] ==> used[j := true][k]
  {
    RemainingMark(used, j);
  }

  /** Starting a chain c at an unused item i: it is used, owned by c, and nothing else changes. */
  lemma {:induction false} MarkStarts(used: seq<bool>, owner: map<nat, nat>, c: nat, i: nat)
    requires Owned(used, owner, c) && i < |used| && !used[i]
    ensures Owned(used[i := true], owner[i := c], c + 1)
    ensures Extends(used, owner, used[i := true], owner[i := c]) && used[i := true][i]
  {
  }

  lemma {:induction false} ExtendsTrans(u0: seq<bool>, o0: map<nat, nat>, u1: seq<bool>, o1: map<nat, nat>,
                                        u2: seq<bool>, o2: map<nat, nat>)
    requires Extends(u0, o0, u1, o1) && Extends(u1, o1, u2, o2)
    ensures Extends(u0, o0, u2, o2)
  {
  }

  /** used' and owner' only add to used and owner. */
  ghost predicate Extends(used: seq<bool>, owner: map<nat, nat>, used': seq<bool>, owner': map<nat, nat>) {
    && |used'| == |used|
    && (forall k :: 0 <= k < |used| && used[k] ==> used'[k])
    && (forall k :: k in owner ==> k in owner' && owner'[k] == owner[k])
  }

  lemma {:induction false} ExtendsMark(used0: seq<bool>, owner0: map<nat, nat>, used: seq<bool>, owner: map<nat, nat>, bound: nat, j: nat, c: nat)
    requires Extends(used0, owner0, used, owner) && Owned(used, owner, bound) && j < |used| && !used[j] && c < bound
    ensures Extends(used0, owner0, used[j := true], owner[j := c])
    ensures Owned(used[j := true], owner[j := c], bound)
    ensures Remaining(used[j := true]) < Remaining(used)
  {
    MarkUsed(used, owner, bound, j, c);
  }

  /** A segment read from the national network file. */
  datatype NrwnTrack = NrwnTrack(operator: string, subdivision: string, classification: string, coords: seq<Point>)

  /** A merged track; its subdivision names are kept as a set (the script joins them with ", "). */
  datatype Chain = Chain(operator: string, subdivisions: set<string>, classification: string, coords: seq<Point>)

  const MergeTolerance: real := 100.0

  function CoordsOf(ts: seq<NrwnTrack>): (pieces: seq<seq<Point>>)
    ensures |pieces| == |ts| && forall i :: 0 <= i < |ts| ==> pieces[i] == ts[i].coords
  {
    seq(|ts|, i requires 0 <= i < |ts| => ts[i].coords)
  }

  /** s ends with suffix. */
  predicate EndsWith(s: seq<Point>, suffix: seq<Point>) {
    |s| >= |suffix| && s[|s| - |suffix|..] == suffix
  }

  lemma {:induction false} SuffixOfSuffix(a: seq<Point>, b: seq<Point>, c: seq<Point>)
    requires EndsWith(b, a) && EndsWith(c, b)
    ensures EndsWith(c, a)
  {
    assert c[|c| - |a|..] == c[|c| - |b|..][|b| - |a|..];
  }

  /** A chain of the first pass while it grows: its points, subdivisions, classifications and the used flags. */
  datatype Growth = Growth(coords: seq<Point>, subdivisions: set<string>, classes: set<string>, used: seq<bool>)

  /** One pass of the forward loop that found segment j: it is appended at the end it matched. */
  function AppendStep(ts: seq<NrwnTrack>, hav: Metric, g: Growth, j: nat): Growth
    requires j < |ts| && |ts[j].coords| > 0 && |g.coords| > 0 && |g.used| == |ts|
  {
    var end := NearEnd(Last(g.coords), ts[j].coords, hav, MergeTolerance);
    Growth(Append(g.coords, ts[j].coords, end), g.subdivisions + {ts[j].subdivision},
           g.classes + {ts[j].classification}, g.used[j := true])
  }

  /** One pass of the backward loop that found segment j: it is prepended at the end it matched. */
  function PrependStep(ts: seq<NrwnTrack>, hav: Metric, g: Growth, j: nat): Growth
    requires j < |ts| && |ts[j].coords| > 0 && |g.coords| > 0 && |g.used| == |ts|
  {
    var end := NearEnd(g.coords[0], ts[j].coords, hav, MergeTolerance);
    Growth(Prepend(g.coords, ts[j].coords, end), g.subdivisions + {ts[j].subdivision},
           g.classes + {ts[j].classification}, g.used[j := true])
  }

  /** The forward loop as a function: the first unused segment with an end near the chain's end is appended until there is none. */
  function GrowForward(ts: seq<NrwnTrack>, hav: Metric, g: Growth): (r: Growth)
    requires Pieces(CoordsOf(ts)) && |g.used| == |ts| && |g.coords| > 0
    ensures |r.used| == |ts| && |r.coords| >= |g.coords|
    decreases Remaining(g.used)
  {
    match FirstNearby(Last(g.coords), CoordsOf(ts), g.used, hav, MergeTolerance)
    case None => g
    case Some(j) =>
      RemainingMark(g.used, j);
      GrowForward(ts, hav, AppendStep(ts, hav, g, j))
  }

  /** The backward loop as a function: the first unused segment with an end near the chain's start is prepended until there is none. */
  function GrowBackward(ts: seq<NrwnTrack>, hav: Metric, g: Growth): (r: Growth)
    requires Pieces(CoordsOf(ts)) && |g.used| == |ts| && |g.coords| > 0
    ensures |r.used| == |ts| && |r.coords| >= |g.coords|
    decreases Remaining(g.used)
  {
    match FirstNearby(g.coords[0], CoordsOf(ts), g.used, hav, MergeTolerance)
    case None => g
    case Some(j) =>
      RemainingMark(g.used, j);
      GrowBackward(ts, hav, PrependStep(ts, hav, g, j))
  }

  /**
   * The forward loop only adds to the chain's end and to the used segments, and it stops exactly
   * when no unused segment has an end near the chain's end.
   */
  lemma {:induction false} GrowForwardStops(ts: seq<NrwnTrack>, hav: Metric, g: Growth)
    requires Pieces(CoordsOf(ts)) && |g.used| == |ts| && |g.coords| > 0
    ensures var r := GrowForward(ts, hav, g);
      && r.coords[..|g.coords|] == g.coords
      && (forall k :: 0 <= k < |ts| && g.used[k] ==> r.used[k])
      && FirstNearby(Last(r.coords), CoordsOf(ts), r.used, hav, MergeTolerance).None?
    decreases Remaining(g.used)
  {
    match FirstNearby(Last(g.coords), CoordsOf(ts), g.used, hav, MergeTolerance)
    case None =>
    case Some(j) =>
      RemainingMark(g.used, j);
      var g' := AppendStep(ts, hav, g, j);
      GrowForwardStops(ts, hav, g');
      var r := GrowForward(ts, hav, g');
      assert r.coords[..|g.coords|] == r.coords[..|g'.coords|][..|g.coords|];
  }

  /**
   * The backward loop only adds to the chain's start and to the used segments, and it stops
   * exactly when no unused segment has an end near the chain's start.
   */
  lemma {:induction false} GrowBackwardStops(ts: seq<NrwnTrack>, hav: Metric, g: Growth)
    requires Pieces(CoordsOf(ts)) && |g.used| == |ts| && |g.coords| > 0
    ensures var r := GrowBackward(ts, hav, g);
      && EndsWith(r.coords, g.coords)
      && (forall k :: 0 <= k < |ts| && g.used[k] ==> r.used[k])
      && FirstNearby(r.coords[0], CoordsOf(ts), r.used, hav, MergeTolerance).None?
    decreases Remaining(g.used)
  {
    match FirstNearby(g.coords[0], CoordsOf(ts), g.used, hav, MergeTolerance)
    case None =>
      assert g.coords[|g.coords| - |g.coords|..] == g.coords;
    case Some(j) =>
      RemainingMark(g.used, j);
      var end := NearEnd(g.coords[0], ts[j].coords, hav, MergeTolerance);
      var g' := PrependStep(ts, hav, g, j);
      var front := Trailing(ts[j].coords, end)[..|ts[j].coords| - 1];
      assert g'.coords == front + g.coords;
      assert EndsWith(g'.coords, g.coords);
      GrowBackwardStops(ts, hav, g');
      SuffixOfSuffix(g.coords, g'.coords, GrowBackward(ts, hav, g').coords);
  }

  /** The chains of the first pass so far and the used flags. */
  datatype FirstPass = FirstPass(chains: seq<Growth>, used: seq<bool>)

  /**
   * The first pass over segments 0 .. i-1: each segment not yet used starts a chain, which is
   * grown forward and then backward, and the segments it took are used for the later chains.
   */
  function FirstPassTo(ts: seq<NrwnTrack>, hav: Metric, i: nat): (r: FirstPass)
    requires Pieces(CoordsOf(ts)) && i <= |ts|
    ensures |r.used| == |ts| && |r.chains| <= i
    decreases i
  {
    if i == 0 then FirstPass([], Unused(|ts|))
    else
      var p := FirstPassTo(ts, hav, i - 1);
      if p.used[i - 1] then p
      else
        var start := Growth(ts[i - 1].coords, {ts[i - 1].subdivision}, {ts[i - 1].classification}, p.used[i - 1 := true]);
        var g := GrowBackward(ts, hav, GrowForward(ts, hav, start));
        FirstPass(p.chains + [g], g.used)
  }

  /**
   * The chains of the first pass for one operator as the grown states describe them: the same
   * points and subdivisions, and 'Main' as the classification when any joined segment is a main
   * line, otherwise one of the joined classifications.
   */
  ghost predicate Describe(operator: string, chains: seq<Chain>, gs: seq<Growth>) {
    && |chains| == |gs|
    && forall c :: 0 <= c < |chains| ==>
      && chains[c].operator == operator
      && chains[c].coords == gs[c].coords
      && chains[c].subdivisions == gs[c].subdivisions
      && chains[c].classification in gs[c].classes
      && ("Main" in gs[c].classes ==> chains[c].classification == "Main")
  }

  /** The forward loop: while some unused segment has an end near the chain's end, append it. */
  method ExtendForward(ts: seq<NrwnTrack>, hav: Metric, chain: seq<Point>, subdivisions: set<string>,
                       classes: set<string>, used: seq<bool>, ghost owner: map<nat, nat>, ghost c: nat)
    returns (chain': seq<Point>, subdivisions': set<string>, classes': set<string>, used': seq<bool>,
             ghost owner': map<nat, nat>)
    requires Pieces(CoordsOf(ts)) && |used| == |ts| && |chain| > 0
    requires Owned(used, owner, c + 1)
    ensures |chain'| >= |chain| && |used'| == |ts| && Owned(used', owner', c + 1)
    ensures chain'[..|chain|] == chain && subdivisions <= subdivisions' && classes <= classes'
    ensures Extends(used, owner, used', owner')
    ensures Growth(chain', subdivisions', classes', used') == GrowForward(ts, hav, Growth(chain, subdivisions, classes, used))
  {
    chain', subdivisions', classes', used', owner' := chain, subdivisions, classes, used, owner;
    var changed := true;
    while changed
      invariant |chain'| >= |chain| > 0 && |used'| == |ts| && Owned(used', owner', c + 1)
      invariant chain'[..|chain|] == chain && subdivisions <= subdivisions' && classes <= classes'
      invariant Extends(used, owner, used', owner')
      invariant GrowForward(ts, hav, Growth(chain', subdivisions', classes', used'))
             == GrowForward(ts, hav, Growth(chain, subdivisions, classes, used))
      invariant !changed ==> FirstNearby(Last(chain'), CoordsOf(ts), used', hav, MergeTolerance).None?
      decreases Remaining(used'), changed
    {
      changed, chain', subdivisions', classes', used', owner' :=
        AppendNearby(ts, hav, chain, used, owner, c, chain', subdivisions', classes', used', owner');
    }
  }

  /** One pass of the forward loop: append the first unused segment with an end near the chain's end, if any. */
  method AppendNearby(ts: seq<NrwnTrack>, hav: Metric, chain: seq<Point>, used: seq<bool>, ghost owner: map<nat, nat>,
                      ghost c: nat, cur: seq<Point>, subs: set<string>, cls: set<string>, u: seq<bool>,
                      ghost o: map<nat, nat>)
    returns (changed: bool, cur': seq<Point>, subs': set<string>, cls': set<string>, u': seq<bool>,
             ghost o': map<nat, nat>)
    requires Pieces(CoordsOf(ts)) && |cur| >= |chain| > 0 && |u| == |ts| && Owned(u, o, c + 1)
    requires cur[..|chain|] == chain && Extends(used, owner, u, o)
    ensures |cur'| >= |chain| && |u'| == |ts| && Owned(u', o', c + 1)
    ensures cur'[..|chain|] == chain && subs <= subs' && cls <= cls'
    ensures Extends(used, owner, u', o')
    ensures changed ==> Remaining(u') < Remaining(u)
    ensures changed <==> FirstNearby(Last(cur), CoordsOf(ts), u, hav, MergeTolerance).Some?
    ensures changed ==>
      Growth(cur', subs', cls', u')
      == AppendStep(ts, hav, Growth(cur, subs, cls, u), FirstNearby(Last(cur), CoordsOf(ts), u, hav, MergeTolerance).value)
    ensures !changed ==> cur' == cur && subs' == subs && cls' == cls && u' == u
  {
    var pieces := CoordsOf(ts);
    changed, cur', subs', cls', u', o' := false, cur, subs, cls, u, o;
    var hit := FindNearbyEndpoint(Last(cur), pieces, u, hav, MergeTolerance);
    if hit.Some? {
      var j := hit.value.index;
      cur' := AppendPiece(cur, pieces[j], hit.value.end);
      assert cur'[..|cur|] == cur;
      assert cur'[..|chain|] == cur[..|chain|];
      subs' := subs + {ts[j].subdivision};
      cls' := cls + {ts[j].classification};
      ExtendsMark(used, owner, u, o, c + 1, j, c);
      u' := u[j := true];
      o' := o[j := c];
      changed := true;
    }
  }



  /** The backward loop: while some unused segment has an end near the chain's start, prepend it. */
  method ExtendBackward(ts: seq<NrwnTrack>, hav: Metric, chain: seq<Point>, subdivisions: set<string>,
                        classes: set<string>, used: seq<bool>, ghost owner: map<nat, nat>, ghost c: nat)
    returns (chain': seq<Point>, subdivisions': set<string>, classes': set<string>, used': seq<bool>,
             ghost owner': map<nat, nat>)
    requires Pieces(CoordsOf(ts)) && |used| == |ts| && |chain| > 0
    requires Owned(used, owner, c + 1)
    ensures |used'| == |ts| && Owned(used', owner', c + 1)
    ensures EndsWith(chain', chain) && subdivisions <= subdivisions' && classes <= classes'
    ensures Extends(used, owner, used', owner')
    ensures Growth(chain', subdivisions', classes', used') == GrowBackward(ts, hav, Growth(chain, subdivisions, classes, used))
  {
    chain', subdivisions', classes', used', owner' := chain, subdivisions, classes, used, owner;
    var changed := true;
    while changed
      invariant |chain| > 0 && |used'| == |ts| && Owned(used', owner', c + 1)
      invariant EndsWith(chain', chain) && subdivisions <= subdivisions' && classes <= classes'
      invariant Extends(used, owner, used', owner')
      invariant GrowBackward(ts, hav, Growth(chain', subdivisions', classes', used'))
             == GrowBackward(ts, hav, Growth(chain, subdivisions, classes, used))
      invariant !changed ==> FirstNearby(chain'[0], CoordsOf(ts), used', hav, MergeTolerance).None?
      decreases Remaining(used'), changed
    {
      changed, chain', subdivisions', classes', used', owner' :=
        PrependNearby(ts, hav, chain, used, owner, c, chain', subdivisions', classes', used', owner');
    }
  }

  /** One pass of the backward loop: prepend the first unused segment with an end near the chain's start, if any. */
  method PrependNearby(ts: seq<NrwnTrack>, hav: Metric, chain: seq<Point>, used: seq<bool>, ghost owner: map<nat, nat>,
                       ghost c: nat, cur: seq<Point>, subs: set<string>, cls: set<string>, u: seq<bool>,
                       ghost o: map<nat, nat>)
    returns (changed: bool, cur': seq<Point>, subs': set<string>, cls': set<string>, u': seq<bool>,
             ghost o': map<nat, nat>)
    requires Pieces(CoordsOf(ts)) && |chain| > 0 && |u| == |ts| && Owned(u, o, c + 1)
    requires EndsWith(cur, chain) && Extends(used, owner, u, o)
    ensures |u'| == |ts| && Owned(u', o', c + 1)
    ensures EndsWith(cur', chain) && subs <= subs' && cls <= cls'
    ensures Extends(used, owner, u', o')
    ensures changed ==> Remaining(u') < Remaining(u)
    ensures changed <==> FirstNearby(cur[0], CoordsOf(ts), u, hav, MergeTolerance).Some?
    ensures changed ==>
      Growth(cur', subs', cls', u')
      == PrependStep(ts, hav, Growth(cur, subs, cls, u), FirstNearby(cur[0], CoordsOf(ts), u, hav, MergeTolerance).value)
    ensures !changed ==> cur' == cur && subs' == subs && cls' == cls && u' == u
  {
    var pieces := CoordsOf(ts);
    changed, cur', subs', cls', u', o' := false, cur, subs, cls, u, o;
    var hit := FindNearbyEndpoint(cur[0], pieces, u, hav, MergeTolerance);
    if hit.Some? {
      var j := hit.value.index;
      cur' := PrependPiece(cur, pieces[j], hit.value.end);
      SuffixOfSuffix(chain, cur, cur');
      subs' := subs + {ts[j].subdivision};
      cls' := cls + {ts[j].classification};
      ExtendsMark(used, owner, u, o, c + 1, j, c);
      u' := u[j := true];
      o' := o[j := c];
      changed := true;
    }
  }

  /** 'Main' when any joined segment is a main line, otherwise one of the joined classifications. */
  method ChainClassification(classes: set<string>) returns (cls: string)
    requires classes != {}
    ensures cls in classes && ("Main" in classes ==> cls == "Main")
  {
    if "Main" in classes {
      return "Main";
    }
    cls :| cls in classes;
  }

  /**
   * The first pass of merge_consecutive_segments for one operator's segments: every segment is
   * used exactly once and lands in exactly one chain, which starts at an unused segment, so there
   * are never more chains than segments.
   */
  method BuildChains(operator: string, ts: seq<NrwnTrack>, hav: Metric)
    returns (chains: seq<Chain>, ghost owner: map<nat, nat>)
    requires forall i :: 0 <= i < |ts| ==> |ts[i].coords| > 0
    ensures |chains| <= |ts|
    ensures forall j :: 0 <= j < |ts| ==> j in owner && owner[j] < |chains|
    ensures forall j :: j in owner ==> j < |ts|
    ensures forall c :: 0 <= c < |chains| ==> chains[c].operator == operator && |chains[c].coords| > 0
    ensures Pieces(CoordsOf(ts)) && Describe(operator, chains, FirstPassTo(ts, hav, |ts|).chains)
  {
    var used := Unused(|ts|);
    chains := [];
    owner := map[];
    for i := 0 to |ts|
      invariant FirstPassState(operator, ts, hav, i, chains, used, owner)
    {
      chains, used, owner := PassSegment(operator, ts, hav, i, chains, used, owner);
    }
  }

  /** The first pass after segments 0 .. i-1: the bookkeeping, and the chains and flags of FirstPassTo. */
  ghost predicate FirstPassState(operator: string, ts: seq<NrwnTrack>, hav: Metric, i: nat, chains: seq<Chain>,
                                 used: seq<bool>, owner: map<nat, nat>)
  {
    && Pieces(CoordsOf(ts)) && i <= |ts|
    && |used| == |ts| && |chains| <= i && Owned(used, owner, |chains|)
    && (forall j :: 0 <= j < i ==> used[j])
    && (forall c :: 0 <= c < |chains| ==> chains[c].operator == operator && |chains[c].coords| > 0)
    && used == FirstPassTo(ts, hav, i).used
    && Describe(operator, chains, FirstPassTo(ts, hav, i).chains)
  }

  /** One turn of the first pass's for loop: segment i is skipped when used, otherwise it starts a chain. */
  method PassSegment(operator: string, ts: seq<NrwnTrack>, hav: Metric, i: nat, chains: seq<Chain>,
                     used: seq<bool>, ghost owner: map<nat, nat>)
    returns (chains': seq<Chain>, used': seq<bool>, ghost owner': map<nat, nat>)
    requires i < |ts| && FirstPassState(operator, ts, hav, i, chains, used, owner)
    ensures FirstPassState(operator, ts, hav, i + 1, chains', used', owner')
  {
    if used[i] {
      FirstPassSkip(operator, ts, hav, i, chains, used, owner);
      return chains, used, owner;
    }
    var chain;
    ghost var g;
    chain, used', owner', g := StartChain(operator, ts, hav, i, used, owner, |chains|);
    FirstPassTake(operator, ts, hav, i, chains, used, owner, chain, used', owner', g);
    chains' := chains + [chain];
  }

  lemma {:induction false} FirstPassSkip(operator: string, ts: seq<NrwnTrack>, hav: Metric, i: nat, chains: seq<Chain>,
                                         used: seq<bool>, owner: map<nat, nat>)
    requires i < |ts| && FirstPassState(operator, ts, hav, i, chains, used, owner) && used[i]
    ensures FirstPassState(operator, ts, hav, i + 1, chains, used, owner)
  {
    assert FirstPassTo(ts, hav, i + 1) == FirstPassTo(ts, hav, i);
  }

  lemma {:induction false} FirstPassTake(operator: string, ts: seq<NrwnTrack>, hav: Metric, i: nat, chains: seq<Chain>,
                                         used: seq<bool>, owner: map<nat, nat>, chain: Chain, used': seq<bool>,
                                         owner': map<nat, nat>, g: Growth)
    requires i < |ts| && FirstPassState(operator, ts, hav, i, chains, used, owner) && !used[i]
    requires |used'| == |ts| && Owned(used', owner', |chains| + 1) && Extends(used, owner, used', owner') && used'[i]
    requires |chain.coords| > 0
    requires g == GrowBackward(ts, hav, GrowForward(ts, hav,
      Growth(ts[i].coords, {ts[i].subdivision}, {ts[i].classification}, used[i := true])))
    requires used' == g.used && chain.operator == operator && chain.coords == g.coords && chain.subdivisions == g.subdivisions
    requires chain.classification in g.classes && ("Main" in g.classes ==> chain.classification == "Main")
    ensures FirstPassState(operator, ts, hav, i + 1, chains + [chain], used', owner')
  {
    var p := FirstPassTo(ts, hav, i);
    assert FirstPassTo(ts, hav, i + 1) == FirstPass(p.chains + [g], g.used);
    DescribeSnoc(operator, chains, p.chains, chain, g);
  }

  /** One chain of the first pass: segment i, grown forward and then backward, and its classification. */
  method StartChain(operator: string, ts: seq<NrwnTrack>, hav: Metric, i: nat, used: seq<bool>,
                    ghost owner: map<nat, nat>, ghost c: nat)
    returns (chain: Chain, used': seq<bool>, ghost owner': map<nat, nat>, ghost g: Growth)
    requires Pieces(CoordsOf(ts)) && |used| == |ts| && i < |ts| && !used[i] && Owned(used, owner, c)
    ensures |used'| == |ts| && Owned(used', owner', c + 1) && Extends(used, owner, used', owner') && used'[i]
    ensures |chain.coords| > 0
    ensures g == GrowBackward(ts, hav, GrowForward(ts, hav,
      Growth(ts[i].coords, {ts[i].subdivision}, {ts[i].classification}, used[i := true])))
    ensures used' == g.used && chain.operator == operator && chain.coords == g.coords && chain.subdivisions == g.subdivisions
    ensures chain.classification in g.classes && ("Main" in g.classes ==> chain.classification == "Main")
  {
    var coords := ts[i].coords;
    var subdivisions := {ts[i].subdivision};
    var classes := {ts[i].classification};
    MarkStarts(used, owner, c, i);
    var used1 := used[i := true];
    ghost var owner1 := owner[i := c];
    var coords2, subdivisions2, classes2, used2, owner2 :=
      ExtendForward(ts, hav, coords, subdivisions, classes, used1, owner1, c);
    ExtendsTrans(used, owner, used1, owner1, used2, owner2);
    coords, subdivisions, classes, used', owner' :=
      ExtendBackward(ts, hav, coords2, subdivisions2, classes2, used2, owner2, c);
    ExtendsTrans(used, owner, used2, owner2, used', owner');
    g := Growth(coords, subdivisions, classes, used');
    var cls := ChainClassification(classes);
    chain := Chain(operator, subdivisions, cls, coords);
  }

  lemma {:induction false} DescribeSnoc(operator: string, chains: seq<Chain>, gs: seq<Growth>, ch: Chain, g: Growth)
    requires Describe(operator, chains, gs)
    requires ch.operator == operator && ch.coords == g.coords && ch.subdivisions == g.subdivisions
    requires ch.classification in g.classes && ("Main" in g.classes ==> ch.classification == "Main")
    ensures Describe(operator, chains + [ch], gs + [g])
  {
  }

  /** [False] * n. */
  function Unused(n: nat): (used: seq<bool>)
    ensures |used| == n && forall k :: 0 <= k < n ==> !used[k]
  {
    seq(n, _ => false)
  }

  /** The four ways the second pass tries to attach another chain, in its order. */
  datatype Attachment = EndToStart | EndToEnd | StartToEnd | StartToStart

  function AttachmentOf(first: Point, last: Point, other: seq<Point>, hav: Metric, tolerance: real): Option<Attachment>
    requires |other| > 0
  {
    if hav(last, other[0]) < tolerance then Some(EndToStart)
    else if hav(last, Last(other)) < tolerance then Some(EndToEnd)
    else if hav(first, Last(other)) < tolerance then Some(StartToEnd)
    else if hav(first, other[0]) < tolerance then Some(StartToStart)
    else None
  }

  /** The merged coordinates for an attachment: the same joins as the first pass. */
  function Attach(merged: seq<Point>, other: seq<Point>, a: Attachment): seq<Point>
    requires |other| > 0
  {
    match a
    case EndToStart => Append(merged, other, AtStart)
    case EndToEnd => Append(merged, other, AtFinish)
    case StartToEnd => Prepend(merged, other, AtFinish)
    case StartToStart => Prepend(merged, other, AtStart)
  }

  datatype Found = Found(index: nat, how: Attachment)

  /** The first unused chain that attaches in one of the four ways, and how, in list order. */
  function FirstAttachable(first: Point, last: Point, pieces: seq<seq<Point>>, used: seq<bool>, hav: Metric): (r: Option<Found>)
    requires Pieces(pieces) && |used| == |pieces|
    ensures r.Some? ==> (r.value.index < |pieces| && !used[r.value.index]
      && AttachmentOf(first, last, pieces[r.value.index], hav, MergeTolerance) == Some(r.value.how))
    ensures r.Some? ==> forall k :: 0 <= k < r.value.index ==>
      used[k] || AttachmentOf(first, last, pieces[k], hav, MergeTolerance).None?
    ensures r.None? ==> forall k :: 0 <= k < |pieces| ==>
      used[k] || AttachmentOf(first, last, pieces[k], hav, MergeTolerance).None?
    decreases |pieces|
  {
    if |pieces| == 0 then None
    else if !used[0] && AttachmentOf(first, last, pieces[0], hav, MergeTolerance).Some? then
      Some(Found(0, AttachmentOf(first, last, pieces[0], hav, MergeTolerance).value))
    else
      match FirstAttachable(first, last, pieces[1..], used[1..], hav)
      case None => None
      case Some(f) => Some(Found(f.index + 1, f.how))
  }

  /** The for loop with break: the first unused chain that attaches, and how. */
  method FindAttachable(first: Point, last: Point, pieces: seq<seq<Point>>, used: seq<bool>, hav: Metric)
    returns (r: Option<Found>)
    requires Pieces(pieces) && |used| == |pieces|
    ensures r == FirstAttachable(first, last, pieces, used, hav)
  {
    ghost var spec := FirstAttachable(first, last, pieces, used, hav);
    for j := 0 to |pieces|
      invariant forall k :: 0 <= k < j ==> used[k] || AttachmentOf(first, last, pieces[k], hav, MergeTolerance).None?
      invariant spec.Some? ==> spec.value.index >= j
    {
      if used[j] {
        continue;
      }
      var other := pieces[j];
      if hav(last, other[0]) < MergeTolerance {
        return Some(Found(j, EndToStart));
      }
      if hav(last, other[|other| - 1]) < MergeTolerance {
        return Some(Found(j, EndToEnd));
      }
      if hav(first, other[|other| - 1]) < MergeTolerance {
        return Some(Found(j, StartToEnd));
      }
      if hav(first, other[0]) < MergeTolerance {
        return Some(Found(j, StartToStart));
      }
    }
    return None;
  }

  /** One attachment, written as the script's four branches. */
  method AttachChain(merged: seq<Point>, other: seq<Point>, a: Attachment) returns (r: seq<Point>)
    requires |merged| > 0 && |other| > 0
    ensures r == Attach(merged, other, a) && |r| >= |merged|
  {
    match a {
      case EndToStart =>
        r := AppendPiece(merged, other, AtStart);
      case EndToEnd =>
        r := AppendPiece(merged, other, AtFinish);
      case StartToEnd =>
        r := PrependPiece(merged, other, AtFinish);
      case StartToStart =>
        r := PrependPiece(merged, other, AtStart);
    }
  }

  /** A chain of the second pass while it grows: its points, subdivisions and the used flags. */
  datatype Merging = Merging(coords: seq<Point>, subdivisions: set<string>, used: seq<bool>)

  /**
   * The while-changed loop of the second pass as a function: the first unused chain that
   * attaches is joined in the way it attaches until none does.
   */
  function GrowMerged(chains: seq<Chain>, hav: Metric, m: Merging): (r: Merging)
    requires Pieces(ChainCoords(chains)) && |m.used| == |chains| && |m.coords| > 0
    ensures |r.used| == |chains| && |r.coords| >= |m.coords|
    decreases Remaining(m.used)
  {
    match FirstAttachable(m.coords[0], Last(m.coords), ChainCoords(chains), m.used, hav)
    case None => m
    case Some(f) =>
      RemainingMark(m.used, f.index);
      var other := chains[f.index];
      GrowMerged(chains, hav, Merging(Attach(m.coords, other.coords, f.how), m.subdivisions + other.subdivisions,
                                      m.used[f.index := true]))
  }

  /** The while-changed loop of the second pass around one chain. */
  method GrowChain(chains: seq<Chain>, hav: Metric, merged: seq<Point>, subdivisions: set<string>,
                   used: seq<bool>, ghost owner: map<nat, nat>, ghost c: nat)
    returns (merged': seq<Point>, subdivisions': set<string>, used': seq<bool>, ghost owner': map<nat, nat>)
    requires Pieces(ChainCoords(chains)) && |used| == |chains| && |merged| > 0
    requires Owned(used, owner, c + 1)
    ensures |merged'| >= |merged| && |used'| == |chains| && Owned(used', owner', c + 1)
    ensures subdivisions <= subdivisions'
    ensures Extends(used, owner, used', owner')
    ensures forall k :: 0 <= k < |chains| ==>
      used'[k] || AttachmentOf(merged'[0], Last(merged'), chains[k].coords, hav, MergeTolerance).None?
    ensures Merging(merged', subdivisions', used') == GrowMerged(chains, hav, Merging(merged, subdivisions, used))
  {
    var pieces := ChainCoords(chains);
    merged', subdivisions', used', owner' := merged, subdivisions, used, owner;
    var changed := true;
    while changed
      invariant |merged'| >= |merged| && |used'| == |chains| && Owned(used', owner', c + 1)
      invariant subdivisions <= subdivisions'
      invariant Extends(used, owner, used', owner')
      invariant GrowMerged(chains, hav, Merging(merged', subdivisions', used'))
             == GrowMerged(chains, hav, Merging(merged, subdivisions, used))
      invariant !changed ==> forall k :: 0 <= k < |chains| ==>
        used'[k] || AttachmentOf(merged'[0], Last(merged'), pieces[k], hav, MergeTolerance).None?
      decreases Remaining(used'), changed
    {
      changed := false;
      var found := FindAttachable(merged'[0], Last(merged'), pieces, used', hav);
      if found.Some? {
        var j := found.value.index;
        merged' := AttachChain(merged', pieces[j], found.value.how);
        subdivisions' := subdivisions' + chains[j].subdivisions;
        ExtendsMark(used, owner, used', owner', c + 1, j, c);
        used' := used'[j := true];
        owner' := owner'[j := c];
        changed := true;
      }
    }
  }

  function ChainCoords(chains: seq<Chain>): (pieces: seq<seq<Point>>)
    ensures |pieces| == |chains| && forall i :: 0 <= i < |chains| ==> pieces[i] == chains[i].coords
  {
    seq(|chains|, i requires 0 <= i < |chains| => chains[i].coords)
  }

  /**
   * The second pass of merge_consecutive_segments: every first-pass chain is used exactly once
   * and lands in exactly one final chain, and no final chain can take another one in any of the
   * four ways when it is finished.
   */
  method MergeChains(operator: string, chains: seq<Chain>, hav: Metric)
    returns (finals: seq<Chain>, ghost owner: map<nat, nat>)
    requires forall i :: 0 <= i < |chains| ==> |chains[i].coords| > 0
    ensures |finals| <= |chains|
    ensures forall j :: 0 <= j < |chains| ==> j in owner && owner[j] < |finals|
    ensures forall j :: j in owner ==> j < |chains|
    ensures forall c :: 0 <= c < |finals| ==> finals[c].operator == operator && |finals[c].coords| > 0
    ensures Pieces(ChainCoords(chains)) && finals == SecondPassTo(operator, chains, hav, |chains|).finals
  {
    var used := Unused(|chains|);
    finals := [];
    owner := map[];
    for i := 0 to |chains|
      invariant SecondPassState(operator, chains, hav, i, finals, used, owner)
    {
      finals, used, owner := PassChain(operator, chains, hav, i, finals, used, owner);
    }
  }

  /** The final chains of the second pass so far and the used flags. */
  datatype SecondPass = SecondPass(finals: seq<Chain>, used: seq<bool>)

  /**
   * The second pass over chains 0 .. i-1: each chain not yet used is grown by the chains that
   * attach to it, keeping its own classification.
   */
  function SecondPassTo(operator: string, chains: seq<Chain>, hav: Metric, i: nat): (r: SecondPass)
    requires Pieces(ChainCoords(chains)) && i <= |chains|
    ensures |r.used| == |chains| && |r.finals| <= i
    decreases i
  {
    if i == 0 then SecondPass([], Unused(|chains|))
    else
      var p := SecondPassTo(operator, chains, hav, i - 1);
      if p.used[i - 1] then p
      else
        var start := Merging(chains[i - 1].coords, chains[i - 1].subdivisions, p.used[i - 1 := true]);
        var m := GrowMerged(chains, hav, start);
        SecondPass(p.finals + [Chain(operator, m.subdivisions, chains[i - 1].classification, m.coords)], m.used)
  }

  /** The second pass after chains 0 .. i-1: the bookkeeping, and the chains and flags of SecondPassTo. */
  ghost predicate SecondPassState(operator: string, chains: seq<Chain>, hav: Metric, i: nat, finals: seq<Chain>,
                                  used: seq<bool>, owner: map<nat, nat>)
  {
    && Pieces(ChainCoords(chains)) && i <= |chains|
    && |used| == |chains| && |finals| <= i && Owned(used, owner, |finals|)
    && (forall j :: 0 <= j < i ==> used[j])
    && (forall c :: 0 <= c < |finals| ==> finals[c].operator == operator && |finals[c].coords| > 0)
    && used == SecondPassTo(operator, chains, hav, i).used
    && finals == SecondPassTo(operator, chains, hav, i).finals
  }

  /** One turn of the second pass's for loop: chain i is skipped when used, otherwise it is grown. */
  method PassChain(operator: string, chains: seq<Chain>, hav: Metric, i: nat, finals: seq<Chain>,
                   used: seq<bool>, ghost owner: map<nat, nat>)
    returns (finals': seq<Chain>, used': seq<bool>, ghost owner': map<nat, nat>)
    requires i < |chains| && SecondPassState(operator, chains, hav, i, finals, used, owner)
    ensures SecondPassState(operator, chains, hav, i + 1, finals', used', owner')
  {
    if used[i] {
      SecondPassSkip(operator, chains, hav, i, finals, used, owner);
      return finals, used, owner;
    }
    var merged := chains[i].coords;
    var subdivisions := chains[i].subdivisions;
    var cls := chains[i].classification;
    MarkStarts(used, owner, |finals|, i);
    var used1 := used[i := true];
    ghost var owner1 := owner[i := |finals|];
    merged, subdivisions, used', owner' := GrowChain(chains, hav, merged, subdivisions, used1, owner1, |finals|);
    ExtendsTrans(used, owner, used1, owner1, used', owner');
    SecondPassTake(operator, chains, hav, i, finals, used, owner, Merging(merged, subdivisions, used'), owner');
    finals' := finals + [Chain(operator, subdivisions, cls, merged)];
  }

  lemma {:induction false} SecondPassSkip(operator: string, chains: seq<Chain>, hav: Metric, i: nat, finals: seq<Chain>,
                                          used: seq<bool>, owner: map<nat, nat>)
    requires i < |chains| && SecondPassState(operator, chains, hav, i, finals, used, owner) && used[i]
    ensures SecondPassState(operator, chains, hav, i + 1, finals, used, owner)
  {
    assert SecondPassTo(operator, chains, hav, i + 1) == SecondPassTo(operator, chains, hav, i);
  }

  lemma {:induction false} SecondPassTake(operator: string, chains: seq<Chain>, hav: Metric, i: nat, finals: seq<Chain>,
                                          used: seq<bool>, owner: map<nat, nat>, m: Merging, owner': map<nat, nat>)
    requires i < |chains| && SecondPassState(operator, chains, hav, i, finals, used, owner) && !used[i]
    requires m == GrowMerged(chains, hav, Merging(chains[i].coords, chains[i].subdivisions, used[i := true]))
    requires Owned(m.used, owner', |finals| + 1) && Extends(used, owner, m.used, owner') && m.used[i]
    ensures SecondPassState(operator, chains, hav, i + 1,
                            finals + [Chain(operator, m.subdivisions, chains[i].classification, m.coords)], m.used, owner')
  {
    var p := SecondPassTo(operator, chains, hav, i);
    assert SecondPassTo(operator, chains, hav, i + 1)
        == SecondPass(p.finals + [Chain(operator, m.subdivisions, chains[i].classification, m.coords)], m.used);
  }

  /** One operator's segments, in file order. */
  function OfOperator(tracks: seq<NrwnTrack>, operator: string): (r: seq<NrwnTrack>)
    ensures forall t :: t in r ==> t in tracks && t.operator == operator
  {
    if |tracks| == 0 then []
    else OfOperator(tracks[..|tracks| - 1], operator) + (if Last(tracks).operator == operator then [Last(tracks)] else [])
  }

  /** The number of segments filed under the listed operators. */
  ghost function Total(groups: map<string, seq<NrwnTrack>>, order: seq<string>): nat
    requires forall op :: op in order ==> op in groups
  {
    if |order| == 0 then 0 else Total(groups, order[..|order| - 1]) + |groups[Last(order)]|
  }

  predicate Distinct(order: seq<string>) {
    forall i, j :: 0 <= i < j < |order| ==> order[i] != order[j]
  }

  lemma {:induction false} TotalUpdate(groups: map<string, seq<NrwnTrack>>, order: seq<string>, op: string, s: seq<NrwnTrack>)
    requires forall o :: o in order ==> o in groups
    requires Distinct(order) && op in groups
    ensures op in order ==> Total(groups[op := s], order) + |groups[op]| == Total(groups, order) + |s|
    ensures op !in order ==> Total(groups[op := s], order) == Total(groups, order)
    decreases |order|
  {
    if |order| > 0 {
      var front := order[..|order| - 1];
      assert forall o :: o in front ==> o in order;
      TotalUpdate(groups, front, op, s);
      if Last(order) == op {
        assert op !in front;
      }
    }
  }

  lemma {:induction false} TotalAdd(groups: map<string, seq<NrwnTrack>>, order: seq<string>, op: string, s: seq<NrwnTrack>)
    requires forall o :: o in order ==> o in groups
    requires op !in order
    ensures Total(groups[op := s], order + [op]) == Total(groups, order) + |s|
  {
    var groups' := groups[op := s];
    assert (order + [op])[..|order|] == order;
    TotalFrame(groups, groups', order);
  }

  lemma {:induction false} TotalFrame(groups: map<string, seq<NrwnTrack>>, groups': map<string, seq<NrwnTrack>>, order: seq<string>)
    requires forall o :: o in order ==> o in groups && o in groups' && groups[o] == groups'[o]
    ensures Total(groups, order) == Total(groups', order)
    decreases |order|
  {
    if |order| > 0 {
      TotalFrame(groups, groups', order[..|order| - 1]);
    }
  }

  /** Every operator's segments so far are filed under it, and only operators seen have a group. */
  ghost predicate Grouped(tracks: seq<NrwnTrack>, groups: map<string, seq<NrwnTrack>>) {
    && (forall op :: op in groups ==> groups[op] == OfOperator(tracks, op))
    && (forall op :: op !in groups ==> OfOperator(tracks, op) == [])
  }

  lemma {:induction false} GroupStep(tracks: seq<NrwnTrack>, i: nat, groups: map<string, seq<NrwnTrack>>)
    requires i < |tracks| && Grouped(tracks[..i], groups)
    ensures var t := tracks[i];
      Grouped(tracks[..i + 1], groups[t.operator := (if t.operator in groups then groups[t.operator] else []) + [t]])
  {
    var t := tracks[i];
    var prefix := tracks[..i + 1];
    assert prefix[..i] == tracks[..i] && Last(prefix) == t;
    var groups' := groups[t.operator := (if t.operator in groups then groups[t.operator] else []) + [t]];
    forall op ensures op in groups' ==> groups'[op] == OfOperator(prefix, op) {
      assert OfOperator(prefix, op) == OfOperator(tracks[..i], op) + (if t.operator == op then [t] else []);
    }
    forall op ensures op !in groups' ==> OfOperator(prefix, op) == [] {
      assert OfOperator(prefix, op) == OfOperator(tracks[..i], op) + (if t.operator == op then [t] else []);
    }
  }

  /** by_operator: segments grouped per operator, operators in order of first appearance. */
  method GroupByOperator(tracks: seq<NrwnTrack>) returns (order: seq<string>, groups: map<string, seq<NrwnTrack>>)
    ensures forall op :: op in groups <==> op in order
    ensures Distinct(order)
    ensures Grouped(tracks, groups)
    ensures Total(groups, order) == |tracks|
  {
    order, groups := [], map[];
    for i := 0 to |tracks|
      invariant forall op :: op in groups <==> op in order
      invariant Distinct(order)
      invariant Grouped(tracks[..i], groups)
      invariant Total(groups, order) == i
    {
      var t := tracks[i];
      GroupStep(tracks, i, groups);
      if t.operator in groups {
        TotalUpdate(groups, order, t.operator, groups[t.operator] + [t]);
        groups := groups[t.operator := groups[t.operator] + [t]];
      } else {
        TotalAdd(groups, order, t.operator, [t]);
        groups := groups[t.operator := [t]];
        order := order + [t.operator];
      }
    }
    assert tracks[..|tracks|] == tracks;
  }

  function OperatorsOf(tracks: seq<NrwnTrack>): set<string> {
    set t | t in tracks :: t.operator
  }

  /** The chains of several groups, one group after another. */
  function ConcatChains(parts: seq<seq<Chain>>): seq<Chain> {
    if |parts| == 0 then [] else ConcatChains(parts[..|parts| - 1]) + Last(parts)
  }

  /**
   * finals is what both passes give for one operator's segments ts: the first pass yields
   * firstPass, described by FirstPassTo (up to which classification is picked when no segment is a
   * main line), and the second pass over firstPass yields finals.
   */
  ghost predicate OperatorMerged(operator: string, ts: seq<NrwnTrack>, hav: Metric,
                                 firstPass: seq<Chain>, finals: seq<Chain>) {
    && Pieces(CoordsOf(ts))
    && Describe(operator, firstPass, FirstPassTo(ts, hav, |ts|).chains)
    && Pieces(ChainCoords(firstPass))
    && finals == SecondPassTo(operator, firstPass, hav, |firstPass|).finals
  }

  /**
   * merge_consecutive_segments: operators in order of first appearance, each operator's
   * segments chained and the chains merged, and the results concatenated; never more chains than
   * segments, and every chain carries an operator of the input.
   */
  method MergeConsecutiveSegments(tracks: seq<NrwnTrack>, hav: Metric)
    returns (merged: seq<Chain>, ghost order: seq<string>, ghost firstPasses: seq<seq<Chain>>,
             ghost parts: seq<seq<Chain>>)
    requires forall t :: t in tracks ==> |t.coords| > 0
    ensures |merged| <= |tracks|
    ensures forall c :: c in merged ==> c.operator in OperatorsOf(tracks) && |c.coords| > 0
    ensures Distinct(order) && forall op :: op !in order ==> OfOperator(tracks, op) == []
    ensures |parts| == |order| && merged == ConcatChains(parts)
    ensures AllMerged(tracks, hav, order, firstPasses, parts)
  {
    var operators, groups := GroupByOperator(tracks);
    order := operators;
    merged := [];
    firstPasses, parts := [], [];
    for k := 0 to |operators|
      invariant MergeState(tracks, hav, operators, groups, k, merged, firstPasses, parts)
    {
      merged, firstPasses, parts := MergeNext(tracks, hav, operators, groups, k, merged, firstPasses, parts);
    }
    assert operators[..|operators|] == operators;
  }

  /** The loop state of merge_consecutive_segments after the first k operators. */
  ghost predicate MergeState(tracks: seq<NrwnTrack>, hav: Metric, operators: seq<string>,
                             groups: map<string, seq<NrwnTrack>>, k: nat, merged: seq<Chain>,
                             firstPasses: seq<seq<Chain>>, parts: seq<seq<Chain>>) {
    && k <= |operators|
    && (forall op :: op in groups <==> op in operators)
    && Grouped(tracks, groups)
    && |merged| <= Total(groups, operators[..k])
    && (forall c :: c in merged ==> c.operator in OperatorsOf(tracks) && |c.coords| > 0)
    && |parts| == k && merged == ConcatChains(parts)
    && AllMerged(tracks, hav, operators[..k], firstPasses, parts)
  }

  /** One iteration of merge_consecutive_segments: the next operator's chains appended. */
  method MergeNext(tracks: seq<NrwnTrack>, hav: Metric, operators: seq<string>,
                   groups: map<string, seq<NrwnTrack>>, k: nat, merged: seq<Chain>,
                   ghost firstPasses: seq<seq<Chain>>, ghost parts: seq<seq<Chain>>)
    returns (merged': seq<Chain>, ghost firstPasses': seq<seq<Chain>>, ghost parts': seq<seq<Chain>>)
    requires forall t :: t in tracks ==> |t.coords| > 0
    requires k < |operators| && MergeState(tracks, hav, operators, groups, k, merged, firstPasses, parts)
    ensures MergeState(tracks, hav, operators, groups, k + 1, merged', firstPasses', parts')
  {
    var op := operators[k];
    assert operators[..k] + [op] == operators[..k + 1];
    var finals, firstPass := MergeOperator(tracks, op, groups[op], hav);
    TotalStep(groups, operators, k);
    AllMergedSnoc(tracks, hav, operators[..k], firstPasses, parts, op, firstPass, finals);
    merged' := merged + finals;
    firstPasses', parts' := firstPasses + [firstPass], parts + [finals];
  }

  ghost predicate AllMerged(tracks: seq<NrwnTrack>, hav: Metric, order: seq<string>,
                            firstPasses: seq<seq<Chain>>, parts: seq<seq<Chain>>) {
    && |firstPasses| == |parts| == |order|
    && forall k :: 0 <= k < |order| ==>
         OperatorMerged(order[k], OfOperator(tracks, order[k]), hav, firstPasses[k], parts[k])
  }

  lemma {:induction false} AllMergedSnoc(tracks: seq<NrwnTrack>, hav: Metric, order: seq<string>,
                                         firstPasses: seq<seq<Chain>>, parts: seq<seq<Chain>>,
                                         op: string, firstPass: seq<Chain>, finals: seq<Chain>)
    requires AllMerged(tracks, hav, order, firstPasses, parts)
    requires OperatorMerged(op, OfOperator(tracks, op), hav, firstPass, finals)
    ensures AllMerged(tracks, hav, order + [op], firstPasses + [firstPass], parts + [finals])
  {
    forall k | 0 <= k < |order| + 1
      ensures OperatorMerged((order + [op])[k], OfOperator(tracks, (order + [op])[k]), hav,
                             (firstPasses + [firstPass])[k], (parts + [finals])[k])
    {
      if k < |order| {
        assert (order + [op])[k] == order[k];
        assert (firstPasses + [firstPass])[k] == firstPasses[k] && (parts + [finals])[k] == parts[k];
      }
    }
  }

  /** One operator's segments chained and the chains merged. */
  method MergeOperator(tracks: seq<NrwnTrack>, op: string, ts: seq<NrwnTrack>, hav: Metric)
    returns (finals: seq<Chain>, ghost firstPass: seq<Chain>)
    requires forall t :: t in tracks ==> |t.coords| > 0
    requires forall t :: t in ts ==> t in tracks && t.operator == op
    ensures |finals| <= |ts|
    ensures forall c :: c in finals ==> c.operator in OperatorsOf(tracks) && |c.coords| > 0
    ensures OperatorMerged(op, ts, hav, firstPass, finals)
  {
    assert forall i :: 0 <= i < |ts| ==> ts[i] in tracks && ts[i].operator == op;
    var chains, _ := BuildChains(op, ts, hav);
    ghost var owner;
    finals, owner := MergeChains(op, chains, hav);
    firstPass := chains;
    if |ts| > 0 {
      assert ts[0].operator == op;
    }
  }

  lemma {:induction false} TotalStep(groups: map<string, seq<NrwnTrack>>, order: seq<string>, k: nat)
    requires k < |order| && forall op :: op in order ==> op in groups
    ensures Total(groups, order[..k + 1]) == Total(groups, order[..k]) + |groups[order[k]]|
  {
    assert order[..k + 1][..k] == order[..k];
  }

  // ---------------------------------------------------------------------------------------------
  // Stitching into the existing network

  const JunctionTolerance: real := 500.0
  const NewNodeStart: nat := 500

  /** round(x, 5), counted in units of 1e-5: the nearest unit, ties to the even one. */
  function Round5(x: real): (r: int)
    ensures -0.5 <= r as real - x * 100000.0 <= 0.5
  {
    RoundHalfEven(x * 100000.0)
  }

  /** A value already on the 1e-5 grid rounds to itself. */
  lemma {:induction false} Round5OnGrid(k: int)
    ensures Round5(k as real / 100000.0) == k
  {
    assert (k as real / 100000.0) * 100000.0 == k as real;
  }

  /** The coordinate key (round(lon, 5), round(lat, 5)). */
  datatype GridKey = GridKey(lon: int, lat: int)

  function KeyOf(p: Point): GridKey {
    GridKey(Round5(p.x), Round5(p.y))
  }

  /** An edge of the network file, as far as the merge reads or writes it. */
  datatype Link = Link(source: string, target: string, lengthM: real, lengthKm: real,
                       builtYear: int, abandonedYear: int, builderCode: string, builderName: string)

  /** A track geometry record. */
  datatype TrackGeometry = TrackGeometry(source: string, target: string, coords: seq<Point>,
                                         builtYear: int, abandonedYear: int, builderName: string, lengthKm: real)

  predicate Joins(e: Link, a: string, b: string) {
    (e.source == a && e.target == b) || (e.source == b && e.target == a)
  }

  /** The largest number among the ids of the form n<digits>, or 0. */
  method MaxNodeNumber(nodes: seq<NetNode>) returns (m: nat)
    ensures forall k :: 0 <= k < |nodes| && NodeNumber(nodes[k].id).Some? ==> NodeNumber(nodes[k].id).value <= m
    ensures m == 0 || exists k :: 0 <= k < |nodes| && NodeNumber(nodes[k].id) == Some(m)
  {
    m := 0;
    for i := 0 to |nodes|
      invariant forall k :: 0 <= k < i && NodeNumber(nodes[k].id).Some? ==> NodeNumber(nodes[k].id).value <= m
      invariant m == 0 || exists k :: 0 <= k < i && NodeNumber(nodes[k].id) == Some(m)
    {
      var num := NodeNumber(nodes[i].id);
      if num.Some? && num.value > m {
        m := num.value;
      }
    }
  }

  /** Whether any listed edge joins a and b, in either orientation. */
  method EdgeExists(edges: seq<Link>, a: string, b: string) returns (found: bool)
    ensures found <==> exists k :: 0 <= k < |edges| && Joins(edges[k], a, b)
  {
    for k := 0 to |edges|
      invariant forall k' :: 0 <= k' < k ==> !Joins(edges[k'], a, b)
    {
      if Joins(edges[k], a, b) {
        return true;
      }
    }
    return false;
  }

  /** The numbering and reuse bookkeeping of integrate_nrwn_tracks. */
  ghost predicate Numbering(existing: seq<NetNode>, start: nat, next: nat, newNodes: seq<NetNode>, coordToNode: map<GridKey, string>) {
    && next == start + |newNodes|
    && (forall k :: 0 <= k < |newNodes| ==> newNodes[k].id == NodeName(start + k))
    && (forall k :: 0 <= k < |newNodes| ==> KeyOf(newNodes[k].pos) in coordToNode && coordToNode[KeyOf(newNodes[k].pos)] == newNodes[k].id)
    && (forall k, k' :: 0 <= k < k' < |newNodes| ==> KeyOf(newNodes[k].pos) != KeyOf(newNodes[k'].pos))
  }

  /** The node bookkeeping of integrate_nrwn_tracks: the next number, the new nodes and the coordinate index. */
  datatype Nodes = Nodes(next: nat, newNodes: seq<NetNode>, coordToNode: map<GridKey, string>)

  datatype Resolved = Resolved(id: string, nodes: Nodes)

  /**
   * The get-or-create step as a function: a known key gives its node, then the first existing
   * node within 500 m when it has an id, and otherwise node n<next>, which is added and indexed.
   */
  function Resolve(p: Point, existing: seq<NetNode>, hav: Metric, s: Nodes): Resolved {
    var key := KeyOf(p);
    if key in s.coordToNode then Resolved(s.coordToNode[key], s)
    else
      var k := FirstJunctionIndex(p, existing, hav, JunctionTolerance);
      if k.Some? && existing[k.value].id != "" then Resolved(existing[k.value].id, s)
      else
        var id := NodeName(s.next);
        Resolved(id, Nodes(s.next + 1, s.newNodes + [NetNode(id, p)], s.coordToNode[key := id]))
  }

  /**
   * The get-or-create step for one track end: a known rounded key gives its node; otherwise the
   * first existing node within 500 m; otherwise a new node n<next> at the point, remembered under
   * its key.
   */
  method NodeFor(p: Point, existing: seq<NetNode>, hav: Metric, ghost start: nat, next: nat,
                 newNodes: seq<NetNode>, coordToNode: map<GridKey, string>)
    returns (id: string, next': nat, newNodes': seq<NetNode>, coordToNode': map<GridKey, string>)
    requires Numbering(existing, start, next, newNodes, coordToNode)
    ensures Numbering(existing, start, next', newNodes', coordToNode')
    ensures Resolved(id, Nodes(next', newNodes', coordToNode')) == Resolve(p, existing, hav, Nodes(next, newNodes, coordToNode))
    ensures KeyOf(p) in coordToNode ==> id == coordToNode[KeyOf(p)] && next' == next && newNodes' == newNodes && coordToNode' == coordToNode
    ensures KeyOf(p) !in coordToNode && newNodes' != newNodes ==>
      FirstJunctionIndex(p, existing, hav, JunctionTolerance).None? || existing[FirstJunctionIndex(p, existing, hav, JunctionTolerance).value].id == ""
    ensures newNodes' == newNodes || newNodes' == newNodes + [NetNode(NodeName(next), p)]
    ensures newNodes' != newNodes ==> id == NodeName(next)
    ensures newNodes' == newNodes ==> next' == next && coordToNode' == coordToNode
    ensures KeyOf(p) !in coordToNode && newNodes' == newNodes ==>
      var k := FirstJunctionIndex(p, existing, hav, JunctionTolerance);
      k.Some? && id == existing[k.value].id && id != ""
  {
    var key := KeyOf(p);
    if key in coordToNode {
      return coordToNode[key], next, newNodes, coordToNode;
    }
    var junction := FindJunctionNode(p, existing, hav, JunctionTolerance);
    if junction.Some? && junction.value.id != "" {
      return junction.value.id, next, newNodes, coordToNode;
    }
    id := NodeName(next);
    NumberingAdd(existing, start, next, newNodes, coordToNode, p);
    newNodes' := newNodes + [NetNode(id, p)];
    coordToNode' := coordToNode[key := id];
    next' := next + 1;
  }

  /** A new node at an unseen key takes the next number and is remembered under its key. */
  lemma {:induction false} NumberingAdd(existing: seq<NetNode>, start: nat, next: nat, newNodes: seq<NetNode>,
                                        coordToNode: map<GridKey, string>, p: Point)
    requires Numbering(existing, start, next, newNodes, coordToNode) && KeyOf(p) !in coordToNode
    ensures Numbering(existing, start, next + 1, newNodes + [NetNode(NodeName(next), p)],
                      coordToNode[KeyOf(p) := NodeName(next)])
  {
    var nodes' := newNodes + [NetNode(NodeName(next), p)];
    var index' := coordToNode[KeyOf(p) := NodeName(next)];
    assert forall k :: 0 <= k < |newNodes| ==> KeyOf(newNodes[k].pos) != KeyOf(p);
    forall k | 0 <= k < |nodes'|
      ensures nodes'[k].id == NodeName(start + k)
      ensures KeyOf(nodes'[k].pos) in index' && index'[KeyOf(nodes'[k].pos)] == nodes'[k].id
    {
      if k < |newNodes| {
        assert nodes'[k] == newNodes[k];
      }
    }
  }

  /** The coordinate index as a fold over the nodes: each node is written under its key in turn. */
  function KeyIndex(nodes: seq<NetNode>): map<GridKey, string>
    decreases |nodes|
  {
    if |nodes| == 0 then map[] else KeyIndex(nodes[..|nodes| - 1])[KeyOf(Last(nodes).pos) := Last(nodes).id]
  }

  /**
   * The index holds exactly the keys of the nodes, and a key maps to the id of the last node
   * with that key.
   */
  lemma {:induction false} KeyIndexMeaning(nodes: seq<NetNode>)
    ensures forall key :: key in KeyIndex(nodes) <==> exists k :: 0 <= k < |nodes| && KeyOf(nodes[k].pos) == key
    ensures forall k :: 0 <= k < |nodes| ==> KeyOf(nodes[k].pos) in KeyIndex(nodes)
    ensures forall k :: 0 <= k < |nodes| && (forall k' :: k < k' < |nodes| ==> KeyOf(nodes[k'].pos) != KeyOf(nodes[k].pos)) ==>
      KeyIndex(nodes)[KeyOf(nodes[k].pos)] == nodes[k].id
    decreases |nodes|
  {
    if |nodes| > 0 {
      var init := nodes[..|nodes| - 1];
      KeyIndexMeaning(init);
      assert forall k :: 0 <= k < |init| ==> init[k] == nodes[k];
    }
  }

  /** The coordinate index of the existing nodes; a later node with the same key wins. */
  method IndexByKey(nodes: seq<NetNode>) returns (index: map<GridKey, string>)
    ensures index == KeyIndex(nodes)
    ensures forall key :: key in index <==> exists k :: 0 <= k < |nodes| && KeyOf(nodes[k].pos) == key
    ensures forall k :: 0 <= k < |nodes| ==> KeyOf(nodes[k].pos) in index
    ensures forall k :: 0 <= k < |nodes| && (forall k' :: k < k' < |nodes| ==> KeyOf(nodes[k'].pos) != KeyOf(nodes[k].pos)) ==>
      index[KeyOf(nodes[k].pos)] == nodes[k].id
  {
    index := map[];
    for i := 0 to |nodes|
      invariant index == KeyIndex(nodes[..i])
    {
      assert nodes[..i + 1][..i] == nodes[..i];
      index := index[KeyOf(nodes[i].pos) := nodes[i].id];
    }
    assert nodes[..|nodes|] == nodes;
    KeyIndexMeaning(nodes);
  }

  /**
   * What integrate_nrwn_tracks promises of the edges it adds: no self-loop, none parallel to an
   * existing edge or to an earlier new edge in either orientation, and each with a track of the
   * same ends, at least two points and the track's length.
   */
  ghost predicate FreshEdges(existingEdges: seq<Link>, newEdges: seq<Link>, newTracks: seq<TrackGeometry>, hav: Metric) {
    && |newTracks| == |newEdges|
    && (forall k :: 0 <= k < |newEdges| ==> newEdges[k].source != newEdges[k].target)
    && (forall k, i :: 0 <= k < |newEdges| && 0 <= i < |existingEdges| ==>
          !Joins(existingEdges[i], newEdges[k].source, newEdges[k].target))
    && (forall k, k' :: 0 <= k' < k < |newEdges| ==> !Joins(newEdges[k'], newEdges[k].source, newEdges[k].target))
    && (forall k :: 0 <= k < |newEdges| ==>
          var t := newTracks[k];
          t.source == newEdges[k].source && t.target == newEdges[k].target && |t.coords| >= 2
          && t.lengthKm == newEdges[k].lengthKm == PolylineLength(t.coords, hav) / 1000.0
          && newEdges[k].lengthM == newEdges[k].lengthKm * 1000.0
          && t.builderName == newEdges[k].builderName == newEdges[k].builderCode
          && t.builtYear == t.abandonedYear == newEdges[k].builtYear == newEdges[k].abandonedYear == 0)
  }

  /** Appending an edge that passed the checks keeps the promises. */
  lemma {:induction false} AddFreshEdge(existingEdges: seq<Link>, newEdges: seq<Link>, newTracks: seq<TrackGeometry>, hav: Metric,
                     e: Link, t: TrackGeometry)
    requires FreshEdges(existingEdges, newEdges, newTracks, hav)
    requires e.source != e.target
    requires forall k :: 0 <= k < |existingEdges + newEdges| ==> !Joins((existingEdges + newEdges)[k], e.source, e.target)
    requires t.source == e.source && t.target == e.target && |t.coords| >= 2
    requires t.lengthKm == e.lengthKm == PolylineLength(t.coords, hav) / 1000.0 && e.lengthM == e.lengthKm * 1000.0
    requires t.builderName == e.builderName == e.builderCode
    requires t.builtYear == t.abandonedYear == e.builtYear == e.abandonedYear == 0
    ensures FreshEdges(existingEdges, newEdges + [e], newTracks + [t], hav)
  {
    forall i | 0 <= i < |existingEdges| ensures !Joins(existingEdges[i], e.source, e.target) {
      assert (existingEdges + newEdges)[i] == existingEdges[i];
    }
    forall k' | 0 <= k' < |newEdges| ensures !Joins(newEdges[k'], e.source, e.target) {
      assert (existingEdges + newEdges)[|existingEdges| + k'] == newEdges[k'];
    }
  }

  /** The first number for new nodes: max(largest existing number + 1, 500). */
  method FirstNewNumber(existing: seq<NetNode>) returns (start: nat)
    ensures start >= NewNodeStart
    ensures forall k :: 0 <= k < |existing| && NodeNumber(existing[k].id).Some? ==> NodeNumber(existing[k].id).value < start
    ensures start == NewNodeStart || exists k :: 0 <= k < |existing| && NodeNumber(existing[k].id) == Some(start - 1)
  {
    var maxNum := MaxNodeNumber(existing);
    start := if maxNum + 1 > NewNodeStart then maxNum + 1 else NewNodeStart;
  }

  /** Minted ids are above every existing number, so they never name an existing node. */
  lemma {:induction false} MintedIdsAreNew(existing: seq<NetNode>, start: nat, newNodes: seq<NetNode>)
    requires forall k :: 0 <= k < |existing| && NodeNumber(existing[k].id).Some? ==> NodeNumber(existing[k].id).value < start
    requires forall k :: 0 <= k < |newNodes| ==> newNodes[k].id == NodeName(start + k)
    ensures forall k, i :: 0 <= k < |newNodes| && 0 <= i < |existing| ==> newNodes[k].id != existing[i].id
  {
    forall k, i | 0 <= k < |newNodes| && 0 <= i < |existing|
      ensures newNodes[k].id != existing[i].id
    {
      NodeNumberOfName(start + k);
    }
  }

  /** The builder recorded for a new edge: 'LMR' for that operator, 'GWR' for every other. */
  function BuilderOf(operator: string): string {
    if operator == "LMR" then "LMR" else "GWR"
  }

  /** The state of integrate_nrwn_tracks' track loop: the node bookkeeping and the new edges and tracks. */
  datatype Integration = Integration(nodes: Nodes, newEdges: seq<Link>, newTracks: seq<TrackGeometry>)

  /**
   * The edge check of the track loop as a function: the edge between source and target and its
   * track are added unless the two are the same node or an existing or earlier new edge already
   * joins them.
   */
  function Connect(chain: Chain, existingEdges: seq<Link>, hav: Metric, source: string, target: string,
                   s: Integration): Integration {
    var edges := existingEdges + s.newEdges;
    if source == target || exists k :: 0 <= k < |edges| && Joins(edges[k], source, target) then s
    else
      var km := PolylineLength(chain.coords, hav) / 1000.0;
      var builder := BuilderOf(chain.operator);
      Integration(s.nodes,
                  s.newEdges + [Link(source, target, km * 1000.0, km, 0, 0, builder, builder)],
                  s.newTracks + [TrackGeometry(source, target, chain.coords, 0, 0, builder, km)])
  }

  /**
   * One iteration of the track loop as a function: a track with two or more points resolves its
   * start and then its end, and then Connect decides on the edge.
   */
  function IntegrateStep(chain: Chain, existing: seq<NetNode>, existingEdges: seq<Link>, hav: Metric,
                         s: Integration): Integration {
    if |chain.coords| < 2 then s
    else
      var source := Resolve(chain.coords[0], existing, hav, s.nodes);
      var target := Resolve(Last(chain.coords), existing, hav, source.nodes);
      Connect(chain, existingEdges, hav, source.id, target.id, Integration(target.nodes, s.newEdges, s.newTracks))
  }

  /**
   * What one track adds: a track with fewer than two points changes nothing; otherwise the node
   * bookkeeping is that after resolving its start and then its end, and exactly one edge, joining
   * the two resolved nodes, is added with the track's whole point list as its geometry when the
   * ends differ and no existing or earlier new edge joins them; otherwise no edge is added.
   */
  lemma {:induction false} IntegrateStepAdds(chain: Chain, existing: seq<NetNode>, existingEdges: seq<Link>, hav: Metric,
                                             s: Integration)
    ensures |chain.coords| < 2 ==> IntegrateStep(chain, existing, existingEdges, hav, s) == s
    ensures |chain.coords| >= 2 ==>
      var r := IntegrateStep(chain, existing, existingEdges, hav, s);
      var source := Resolve(chain.coords[0], existing, hav, s.nodes);
      var target := Resolve(Last(chain.coords), existing, hav, source.nodes);
      && r.nodes == target.nodes
      && (if source.id != target.id && forall k :: 0 <= k < |existingEdges + s.newEdges| ==>
                                          !Joins((existingEdges + s.newEdges)[k], source.id, target.id)
          then
            && |r.newEdges| == |s.newEdges| + 1 && r.newEdges[..|s.newEdges|] == s.newEdges
            && r.newEdges[|s.newEdges|].source == source.id && r.newEdges[|s.newEdges|].target == target.id
            && r.newTracks == s.newTracks + [TrackGeometry(source.id, target.id, chain.coords, 0, 0, BuilderOf(chain.operator),
                                                           PolylineLength(chain.coords, hav) / 1000.0)]
          else r.newEdges == s.newEdges && r.newTracks == s.newTracks)
  {
  }

  /** The track loop over the first i chains, from state s0. */
  function IntegrateTo(chains: seq<Chain>, existing: seq<NetNode>, existingEdges: seq<Link>, hav: Metric,
                       s0: Integration, i: nat): Integration
    requires i <= |chains|
  {
    if i == 0 then s0
    else IntegrateStep(chains[i - 1], existing, existingEdges, hav, IntegrateTo(chains, existing, existingEdges, hav, s0, i - 1))
  }

  /**
   * Over the first i chains the loop only appends new tracks, at most one per chain, and each
   * appended track is the whole point list of a chain with two or more points, later chains'
   * tracks coming later.
   */
  lemma {:induction false} IntegrateToTracks(chains: seq<Chain>, existing: seq<NetNode>, existingEdges: seq<Link>,
                                             hav: Metric, s0: Integration, i: nat)
    requires i <= |chains|
    ensures var r := IntegrateTo(chains, existing, existingEdges, hav, s0, i);
      && |s0.newTracks| <= |r.newTracks| <= |s0.newTracks| + i
      && r.newTracks[..|s0.newTracks|] == s0.newTracks
      && forall k :: |s0.newTracks| <= k < |r.newTracks| ==> FromChain(chains, i, r.newTracks[k].coords)
  {
    if i > 0 {
      IntegrateToTracks(chains, existing, existingEdges, hav, s0, i - 1);
      var p := IntegrateTo(chains, existing, existingEdges, hav, s0, i - 1);
      var r := IntegrateTo(chains, existing, existingEdges, hav, s0, i);
      IntegrateStepTracks(chains[i - 1], existing, existingEdges, hav, p);
      assert r.newTracks[..|p.newTracks|] == p.newTracks;
      assert r.newTracks[..|s0.newTracks|] == p.newTracks[..|s0.newTracks|];
      forall k | |s0.newTracks| <= k < |r.newTracks|
        ensures FromChain(chains, i, r.newTracks[k].coords)
      {
        var c;
        if k < |p.newTracks| {
          assert r.newTracks[k] == p.newTracks[k];
          assert FromChain(chains, i - 1, p.newTracks[k].coords);
          c :| 0 <= c < i - 1 && |chains[c].coords| >= 2 && p.newTracks[k].coords == chains[c].coords;
        } else {
          c := i - 1;
        }
        assert 0 <= c < i && |chains[c].coords| >= 2 && r.newTracks[k].coords == chains[c].coords;
      }
    }
  }

  /** coords is the point list of one of the first i chains, and that chain has two or more points. */
  ghost predicate FromChain(chains: seq<Chain>, i: nat, coords: seq<Point>) {
    exists c :: 0 <= c < i && c < |chains| && |chains[c].coords| >= 2 && coords == chains[c].coords
  }

  /** One track step either keeps the tracks or appends one track holding the chain's points. */
  lemma {:induction false} IntegrateStepTracks(chain: Chain, existing: seq<NetNode>, existingEdges: seq<Link>, hav: Metric,
                                               s: Integration)
    ensures var r := IntegrateStep(chain, existing, existingEdges, hav, s);
      || r.newTracks == s.newTracks
      || (&& |chain.coords| >= 2 && |r.newTracks| == |s.newTracks| + 1
          && r.newTracks[..|s.newTracks|] == s.newTracks && r.newTracks[|s.newTracks|].coords == chain.coords)
  {
    IntegrateStepAdds(chain, existing, existingEdges, hav, s);
  }

  /** Get or create the node of a track's start and then of its end. */
  method ResolveEnds(coords: seq<Point>, existing: seq<NetNode>, hav: Metric, ghost start: nat, next: nat,
                     newNodes: seq<NetNode>, coordToNode: map<GridKey, string>)
    returns (source: string, target: string, next': nat, newNodes': seq<NetNode>, coordToNode': map<GridKey, string>)
    requires |coords| >= 2 && Numbering(existing, start, next, newNodes, coordToNode)
    ensures Numbering(existing, start, next', newNodes', coordToNode')
    ensures var s := Resolve(coords[0], existing, hav, Nodes(next, newNodes, coordToNode));
      var t := Resolve(Last(coords), existing, hav, s.nodes);
      source == s.id && target == t.id && Nodes(next', newNodes', coordToNode') == t.nodes
  {
    source, next', newNodes', coordToNode' := NodeFor(coords[0], existing, hav, start, next, newNodes, coordToNode);
    target, next', newNodes', coordToNode' := NodeFor(Last(coords), existing, hav, start, next', newNodes', coordToNode');
  }

  /** The edge check and the append of the edge and its track, for resolved ends. */
  method ConnectEnds(chain: Chain, existingEdges: seq<Link>, hav: Metric, source: string, target: string,
                     ghost nodes: Nodes, newEdges: seq<Link>, newTracks: seq<TrackGeometry>)
    returns (newEdges': seq<Link>, newTracks': seq<TrackGeometry>)
    requires |chain.coords| >= 2 && FreshEdges(existingEdges, newEdges, newTracks, hav)
    ensures FreshEdges(existingEdges, newEdges', newTracks', hav)
    ensures Integration(nodes, newEdges', newTracks')
         == Connect(chain, existingEdges, hav, source, target, Integration(nodes, newEdges, newTracks))
  {
    newEdges', newTracks' := newEdges, newTracks;
    if source == target {
      return;
    }
    var present := EdgeExists(existingEdges + newEdges, source, target);
    if present {
      return;
    }
    var lengthKm := CalculateTrackLength(chain.coords, hav);
    var lengthM := lengthKm * 1000.0;
    var builder := if chain.operator == "LMR" then "LMR" else "GWR";
    assert builder == BuilderOf(chain.operator);
    var e := Link(source, target, lengthM, lengthKm, 0, 0, builder, builder);
    var t := TrackGeometry(source, target, chain.coords, 0, 0, builder, lengthKm);
    AddFreshEdge(existingEdges, newEdges, newTracks, hav, e, t);
    newEdges' := newEdges + [e];
    newTracks' := newTracks + [t];
  }

  /** One iteration of the track loop of integrate_nrwn_tracks. */
  method IntegrateOne(chain: Chain, existing: seq<NetNode>, existingEdges: seq<Link>, hav: Metric, ghost start: nat,
                      next: nat, newNodes: seq<NetNode>, coordToNode: map<GridKey, string>,
                      newEdges: seq<Link>, newTracks: seq<TrackGeometry>)
    returns (next': nat, newNodes': seq<NetNode>, coordToNode': map<GridKey, string>,
             newEdges': seq<Link>, newTracks': seq<TrackGeometry>)
    requires Numbering(existing, start, next, newNodes, coordToNode)
    requires FreshEdges(existingEdges, newEdges, newTracks, hav)
    ensures Numbering(existing, start, next', newNodes', coordToNode')
    ensures FreshEdges(existingEdges, newEdges', newTracks', hav)
    ensures Integration(Nodes(next', newNodes', coordToNode'), newEdges', newTracks')
         == IntegrateStep(chain, existing, existingEdges, hav, Integration(Nodes(next, newNodes, coordToNode), newEdges, newTracks))
  {
    next', newNodes', coordToNode', newEdges', newTracks' := next, newNodes, coordToNode, newEdges, newTracks;
    if |chain.coords| < 2 {
      return;
    }
    var source, target;
    source, target, next', newNodes', coordToNode' := ResolveEnds(chain.coords, existing, hav, start, next, newNodes, coordToNode);
    newEdges', newTracks' := ConnectEnds(chain, existingEdges, hav, source, target, Nodes(next', newNodes', coordToNode'),
                                         newEdges, newTracks);
  }

  /**
   * integrate_nrwn_tracks: new nodes are numbered n<start>, n<start+1>, ... with start =
   * max(largest existing number + 1, 500), never reuse an existing id and never share a rounded
   * key; the new edges satisfy FreshEdges.
   */
  method IntegrateNrwnTracks(chains: seq<Chain>, existing: seq<NetNode>, existingEdges: seq<Link>, hav: Metric)
    returns (newNodes: seq<NetNode>, newEdges: seq<Link>, newTracks: seq<TrackGeometry>, ghost start: nat)
    ensures start >= NewNodeStart
    ensures forall k :: 0 <= k < |existing| && NodeNumber(existing[k].id).Some? ==> NodeNumber(existing[k].id).value < start
    ensures start == NewNodeStart || exists k :: 0 <= k < |existing| && NodeNumber(existing[k].id) == Some(start - 1)
    ensures forall k :: 0 <= k < |newNodes| ==> newNodes[k].id == NodeName(start + k)
    ensures forall k, i :: 0 <= k < |newNodes| && 0 <= i < |existing| ==> newNodes[k].id != existing[i].id
    ensures forall k, k' :: 0 <= k < k' < |newNodes| ==> KeyOf(newNodes[k].pos) != KeyOf(newNodes[k'].pos)
    ensures FreshEdges(existingEdges, newEdges, newTracks, hav)
    ensures var r := IntegrateTo(chains, existing, existingEdges, hav, Integration(Nodes(start, [], KeyIndex(existing)), [], []), |chains|);
      newNodes == r.nodes.newNodes && newEdges == r.newEdges && newTracks == r.newTracks
  {
    var next := FirstNewNumber(existing);
    start := next;
    newNodes, newEdges, newTracks := [], [], [];
    var coordToNode := IndexByKey(existing);
    ghost var s0 := Integration(Nodes(start, [], coordToNode), [], []);
    for i := 0 to |chains|
      invariant Numbering(existing, start, next, newNodes, coordToNode)
      invariant FreshEdges(existingEdges, newEdges, newTracks, hav)
      invariant Integration(Nodes(next, newNodes, coordToNode), newEdges, newTracks)
             == IntegrateTo(chains, existing, existingEdges, hav, s0, i)
    {
      next, newNodes, coordToNode, newEdges, newTracks :=
        IntegrateOne(chains[i], existing, existingEdges, hav, start, next, newNodes, coordToNode, newEdges, newTracks);
    }
    MintedIdsAreNew(existing, start, newNodes);
  }
}
