/**
 * Building the railway graph from track polylines (scripts/build_railway_network.py): junction
 * detection on a 10 m grid, cutting each track at its interior junction points, and inserting
 * one edge per piece between nodes that are found or created within the snap tolerance.
 *
 * Coordinates are already projected to metres; dist is the Euclidean distance between two
 * projected points.
 */
module Builder {
  import opened Wrappers
  import opened Geometry
  import opened NodeIds

  const SnapTolerance: real := 500.0
  const GridPrecision: real := 10.0

  /** The 10 m grid cell key of a point. */
  function RoundPoint(p: Point): (k: Point)
    ensures Abs(k.x - p.x) <= GridPrecision / 2.0 && Abs(k.y - p.y) <= GridPrecision / 2.0
  {
    Point(RoundHalfEven(p.x / GridPrecision) as real * GridPrecision,
          RoundHalfEven(p.y / GridPrecision) as real * GridPrecision)
  }

  // ---------------------------------------------------------------------------------------------
  // Junction detection

  /** All points of all tracks, track after track. */
  function Flatten(tracks: seq<seq<Point>>): (pts: seq<Point>)
    ensures |tracks| > 0 ==> pts == Flatten(tracks[..|tracks| - 1]) + tracks[|tracks| - 1]
  {
    if |tracks| == 0 then [] else Flatten(tracks[..|tracks| - 1]) + tracks[|tracks| - 1]
  }

  /** How many of pts fall in grid cell k. */
  function CountKey(pts: seq<Point>, k: Point): nat {
    if |pts| == 0 then 0
    else CountKey(pts[..|pts| - 1], k) + (if RoundPoint(pts[|pts| - 1]) == k then 1 else 0)
  }

  /** No earlier point shares pts[i]'s grid cell. */
  predicate IsFirstOfKey(pts: seq<Point>, i: nat)
    requires i < |pts|
  {
    forall j :: 0 <= j < i ==> RoundPoint(pts[j]) != RoundPoint(pts[i])
  }

  /** The point_counts dictionary after visiting pts. */
  function GridCounts(pts: seq<Point>): map<Point, nat> {
    if |pts| == 0 then map[]
    else
      var m := GridCounts(pts[..|pts| - 1]);
      var k := RoundPoint(pts[|pts| - 1]);
      m[k := (if k in m then m[k] else 0) + 1]
  }

  /** The point_to_original dictionary after visiting pts: the first point seen per cell. */
  function GridFirsts(pts: seq<Point>): map<Point, Point> {
    if |pts| == 0 then map[]
    else
      var m := GridFirsts(pts[..|pts| - 1]);
      var k := RoundPoint(pts[|pts| - 1]);
      if k in m then m else m[k := pts[|pts| - 1]]
  }

  /** The junction set: the first original point of every cell visited more than once. */
  function JunctionsOf(pts: seq<Point>): set<Point> {
    var counts := GridCounts(pts);
    var firsts := GridFirsts(pts);
    set k | k in counts && counts[k] > 1 && k in firsts :: firsts[k]
  }

  lemma {:induction false} GridCountsCount(pts: seq<Point>, k: Point)
    ensures k in GridCounts(pts) <==> CountKey(pts, k) > 0
    ensures k in GridCounts(pts) ==> GridCounts(pts)[k] == CountKey(pts, k)
    ensures k in GridCounts(pts) <==> k in GridFirsts(pts)
  {
    if |pts| > 0 {
      GridCountsCount(pts[..|pts| - 1], k);
    }
  }

  lemma {:induction false} GridFirstsIsFirst(pts: seq<Point>, k: Point) returns (i: nat)
    requires k in GridFirsts(pts)
    ensures i < |pts| && pts[i] == GridFirsts(pts)[k] && RoundPoint(pts[i]) == k
    ensures IsFirstOfKey(pts, i)
  {
    var pre := pts[..|pts| - 1];
    if k in GridFirsts(pre) {
      i := GridFirstsIsFirst(pre, k);
    } else {
      i := |pts| - 1;
      forall j | 0 <= j < i
        ensures RoundPoint(pts[j]) != k
      {
        if RoundPoint(pre[j]) == k {
          GridCountsCount(pre, k);
          CountKeyPositive(pre, j);
        }
      }
    }
  }

  lemma {:induction false} CountKeyPositive(pts: seq<Point>, i: nat)
    requires i < |pts|
    ensures CountKey(pts, RoundPoint(pts[i])) > 0
  {
    if i < |pts| - 1 {
      CountKeyPositive(pts[..|pts| - 1], i);
    }
  }

  lemma {:induction false} GridFirstsOfFirst(pts: seq<Point>, i: nat)
    requires i < |pts| && IsFirstOfKey(pts, i)
    ensures RoundPoint(pts[i]) in GridFirsts(pts) && GridFirsts(pts)[RoundPoint(pts[i])] == pts[i]
  {
    var pre := pts[..|pts| - 1];
    var k := RoundPoint(pts[i]);
    if i < |pts| - 1 {
      GridFirstsOfFirst(pre, i);
    } else if k in GridFirsts(pre) {
      var j := GridFirstsIsFirst(pre, k);
    }
  }

  /**
   * A point is a junction exactly when it is the first point seen in its grid cell and that cell
   * holds more than one point.
   */
  lemma {:induction false} JunctionsOfCharacterized(pts: seq<Point>, q: Point)
    ensures q in JunctionsOf(pts) <==>
      exists i :: 0 <= i < |pts| && pts[i] == q && IsFirstOfKey(pts, i) && CountKey(pts, RoundPoint(q)) > 1
  {
    if q in JunctionsOf(pts) {
      var k :| k in GridCounts(pts) && GridCounts(pts)[k] > 1 && k in GridFirsts(pts) && GridFirsts(pts)[k] == q;
      var i := GridFirstsIsFirst(pts, k);
      GridCountsCount(pts, k);
    }
    if exists i :: 0 <= i < |pts| && pts[i] == q && IsFirstOfKey(pts, i) && CountKey(pts, RoundPoint(q)) > 1 {
      var i :| 0 <= i < |pts| && pts[i] == q && IsFirstOfKey(pts, i) && CountKey(pts, RoundPoint(q)) > 1;
      GridFirstsOfFirst(pts, i);
      GridCountsCount(pts, RoundPoint(q));
    }
  }

  lemma {:induction false} GridStep(pts: seq<Point>, pt: Point)
    ensures var k := RoundPoint(pt);
      var counts := GridCounts(pts);
      var firsts := GridFirsts(pts);
      && GridCounts(pts + [pt]) == counts[k := (if k in counts then counts[k] else 0) + 1]
      && GridFirsts(pts + [pt]) == if k in firsts then firsts else firsts[k := pt]
  {
    assert (pts + [pt])[..|pts|] == pts;
  }

  lemma {:induction false} GridStepAt(before: seq<Point>, track: seq<Point>, i: nat)
    requires i < |track|
    ensures var k := RoundPoint(track[i]);
      var counts := GridCounts(before + track[..i]);
      var firsts := GridFirsts(before + track[..i]);
      && GridCounts(before + track[..i + 1]) == counts[k := (if k in counts then counts[k] else 0) + 1]
      && GridFirsts(before + track[..i + 1]) == if k in firsts then firsts else firsts[k := track[i]]
  {
    assert before + track[..i] + [track[i]] == before + track[..i + 1];
    GridStep(before + track[..i], track[i]);
  }

  lemma {:induction false} FlattenStep(tracks: seq<seq<Point>>, t: nat)
    requires t < |tracks|
    ensures Flatten(tracks[..t + 1]) == Flatten(tracks[..t]) + tracks[t][..|tracks[t]|]
  {
    assert tracks[..t + 1][..t] == tracks[..t];
    assert tracks[t][..|tracks[t]|] == tracks[t];
  }

  /** The grid census of the first pass of find_junction_points: count and first point per cell. */
  method CountGridPoints(tracks: seq<seq<Point>>) returns (pointCounts: map<Point, nat>, pointToOriginal: map<Point, Point>)
    ensures pointCounts == GridCounts(Flatten(tracks))
    ensures pointToOriginal == GridFirsts(Flatten(tracks))
  {
    pointCounts := map[];
    pointToOriginal := map[];
    for t := 0 to |tracks|
      invariant pointCounts == GridCounts(Flatten(tracks[..t]))
      invariant pointToOriginal == GridFirsts(Flatten(tracks[..t]))
    {
      ghost var before := Flatten(tracks[..t]);
      assert before + tracks[t][..0] == before;
      for i := 0 to |tracks[t]|
        invariant pointCounts == GridCounts(before + tracks[t][..i])
        invariant pointToOriginal == GridFirsts(before + tracks[t][..i])
      {
        var pt := tracks[t][i];
        var rounded := RoundPoint(pt);
        GridStepAt(before, tracks[t], i);
        pointCounts := pointCounts[rounded := (if rounded in pointCounts then pointCounts[rounded] else 0) + 1];
        if rounded !in pointToOriginal {
          pointToOriginal := pointToOriginal[rounded := pt];
        }
      }
      FlattenStep(tracks, t);
    }
    assert tracks[..|tracks|] == tracks;
  }

  /** find_junction_points over the tracks that passed the bounding-box filter. */
  method FindJunctionPoints(tracks: seq<seq<Point>>) returns (junctions: set<Point>)
    ensures junctions == JunctionsOf(Flatten(tracks))
  {
    var pointCounts, pointToOriginal := CountGridPoints(tracks);
    GridKeysAgree(Flatten(tracks));
    junctions := {};
    var remaining := pointCounts.Keys;
    while remaining != {}
      invariant remaining <= pointCounts.Keys
      invariant junctions == set k | k in pointCounts && k !in remaining && pointCounts[k] > 1 && k in pointToOriginal :: pointToOriginal[k]
      decreases remaining
    {
      var k :| k in remaining;
      if pointCounts[k] > 1 {
        junctions := junctions + {pointToOriginal[k]};
      }
      remaining := remaining - {k};
    }
  }

  lemma {:induction false} GridKeysAgree(pts: seq<Point>)
    ensures forall k :: k in GridCounts(pts) <==> k in GridFirsts(pts)
  {
    forall k
      ensures k in GridCounts(pts) <==> k in GridFirsts(pts)
    {
      GridCountsCount(pts, k);
    }
  }

  // ---------------------------------------------------------------------------------------------
  // Splitting a track at junctions

  /**
   * is_junction_point: the first junction, in the junction set's iteration order, strictly
   * within tol of pt.
   */
  function IsJunctionPoint(pt: Point, junctions: seq<Point>, dist: Metric, tol: real): (r: Option<Point>)
    ensures r.Some? ==> r.value in junctions && dist(pt, r.value) < tol
    ensures r.None? <==> forall j :: j in junctions ==> dist(pt, j) >= tol
  {
    if |junctions| == 0 then None
    else if dist(pt, junctions[0]) < tol then Some(junctions[0])
    else IsJunctionPoint(pt, junctions[1..], dist, tol)
  }

  datatype Segment = Segment(points: seq<Point>, length: real)

  /**
   * Where the pieces start, looking at indices below i: index 0, then every interior index
   * (0 < c < |points| - 1) whose point is near a junction, in order.
   */
  function CutsBelow(points: seq<Point>, junctions: seq<Point>, dist: Metric, tol: real, i: nat): (cuts: seq<nat>)
    requires 0 < i <= |points|
    ensures |cuts| > 0 && cuts[0] == 0 && cuts[|cuts| - 1] < i
    ensures forall m :: 0 <= m < |cuts| ==> cuts[m] < i && (cuts[m] == 0 || cuts[m] < |points| - 1)
    ensures forall m, n :: 0 <= m < n < |cuts| ==> cuts[m] < cuts[n]
  {
    if i == 1 then [0]
    else
      var c := i - 1;
      CutsBelow(points, junctions, dist, tol, i - 1) +
        (if c < |points| - 1 && IsJunctionPoint(points[c], junctions, dist, tol).Some? then [c] else [])
  }

  /** Apart from 0, the cuts are exactly the interior indices below i whose point is near a junction. */
  lemma {:induction false} CutsBelowExactly(points: seq<Point>, junctions: seq<Point>, dist: Metric, tol: real, i: nat, c: nat)
    requires 0 < c && 0 < i <= |points|
    ensures c in CutsBelow(points, junctions, dist, tol, i) <==>
      c < i && c < |points| - 1 && IsJunctionPoint(points[c], junctions, dist, tol).Some?
  {
    if i > 1 {
      CutsBelowExactly(points, junctions, dist, tol, i - 1, c);
    }
  }

  /** The indices where the pieces of a track start and end: 0, every cut, the last index. */
  function Bounds(points: seq<Point>, junctions: seq<Point>, dist: Metric, tol: real): (b: seq<nat>)
    requires |points| >= 2
    ensures ValidBounds(points, b)
  {
    CutsBelow(points, junctions, dist, tol, |points|) + [|points| - 1]
  }

  /** points[from..to] inclusive, with its polyline length. */
  function Piece(points: seq<Point>, from: nat, to: nat, dist: Metric): (seg: Segment)
    requires from < to < |points|
    ensures |seg.points| == to - from + 1 >= 2
    ensures seg.points[0] == points[from] && seg.points[|seg.points| - 1] == points[to]
  {
    var pts := points[from..to + 1];
    Segment(pts, PolylineLength(pts, dist))
  }

  /** Strictly increasing indices into points. */
  ghost predicate ValidBounds(points: seq<Point>, b: seq<nat>) {
    && (forall k :: 0 <= k < |b| ==> b[k] < |points|)
    && (forall i, j :: 0 <= i < j < |b| ==> b[i] < b[j])
  }

  /** One piece per pair of consecutive bounds. */
  function PiecesOf(points: seq<Point>, b: seq<nat>, dist: Metric): (pieces: seq<Segment>)
    requires ValidBounds(points, b)
    ensures |pieces| == if |b| == 0 then 0 else |b| - 1
  {
    if |b| < 2 then []
    else PiecesOf(points, b[..|b| - 1], dist) + [Piece(points, b[|b| - 2], b[|b| - 1], dist)]
  }

  lemma {:induction false} PiecesOfIndex(points: seq<Point>, b: seq<nat>, dist: Metric, k: nat)
    requires ValidBounds(points, b) && k + 1 < |b|
    ensures PiecesOf(points, b, dist)[k] == Piece(points, b[k], b[k + 1], dist)
  {
    if k + 2 < |b| {
      PiecesOfIndex(points, b[..|b| - 1], dist, k);
    }
  }

  lemma {:induction false} PiecesOfAppend(points: seq<Point>, b: seq<nat>, c: nat, dist: Metric)
    requires ValidBounds(points, b) && |b| > 0 && b[|b| - 1] < c < |points|
    ensures ValidBounds(points, b + [c])
    ensures PiecesOf(points, b + [c], dist) == PiecesOf(points, b, dist) + [Piece(points, b[|b| - 1], c, dist)]
  {
    assert (b + [c])[..|b|] == b;
  }

  lemma {:induction false} SliceExtend(points: seq<Point>, from: nat, to: nat)
    requires from <= to < |points|
    ensures points[from..to] + [points[to]] == points[from..to + 1]
    ensures points[to..to + 1] == [points[to]]
  {
  }

  /** The state of split_track_at_junctions's loop before it looks at index i. */
  ghost predicate SplitLoopState(points: seq<Point>, junctions: seq<Point>, dist: Metric, tol: real,
                                 i: nat, b: seq<nat>, current: seq<Point>, segments: seq<Segment>)
  {
    && 0 < i <= |points|
    && b == CutsBelow(points, junctions, dist, tol, i)
    && b[|b| - 1] <= |points| - 2
    && current == points[b[|b| - 1]..i]
    && ValidBounds(points, b)
    && segments == PiecesOf(points, b, dist)
  }

  /** One turn of the loop: append points[i], then close the piece there if i is a cut. */
  lemma {:induction false} SplitLoopStep(points: seq<Point>, junctions: seq<Point>, dist: Metric, tol: real,
                      i: nat, b: seq<nat>, current: seq<Point>, segments: seq<Segment>)
    requires i < |points| && SplitLoopState(points, junctions, dist, tol, i, b, current, segments)
    ensures
      var isCut := i < |points| - 1 && IsJunctionPoint(points[i], junctions, dist, tol).Some?;
      var grown := current + [points[i]];
      if isCut then
        SplitLoopState(points, junctions, dist, tol, i + 1, b + [i], [points[i]],
                       segments + [Segment(grown, PolylineLength(grown, dist))])
      else
        SplitLoopState(points, junctions, dist, tol, i + 1, b, grown, segments)
  {
    if i < |points| - 1 && IsJunctionPoint(points[i], junctions, dist, tol).Some? {
      SplitCutStep(points, junctions, dist, tol, i, b, current, segments);
    } else {
      SplitKeepStep(points, junctions, dist, tol, i, b, current, segments);
    }
  }

  /** Closing a piece at cut i: the bounds gain i and the pieces gain the one ending there. */
  lemma {:induction false} SplitCutStep(points: seq<Point>, junctions: seq<Point>, dist: Metric, tol: real,
                      i: nat, b: seq<nat>, current: seq<Point>, segments: seq<Segment>)
    requires i < |points| - 1 && IsJunctionPoint(points[i], junctions, dist, tol).Some?
    requires SplitLoopState(points, junctions, dist, tol, i, b, current, segments)
    ensures SplitLoopState(points, junctions, dist, tol, i + 1, b + [i], [points[i]],
                           segments + [Segment(current + [points[i]], PolylineLength(current + [points[i]], dist))])
  {
    assert CutsBelow(points, junctions, dist, tol, i + 1) == b + [i];
    SliceExtend(points, b[|b| - 1], i);
    PiecesOfAppend(points, b, i, dist);
  }

  /** Any other point just extends the current piece. */
  lemma {:induction false} SplitKeepStep(points: seq<Point>, junctions: seq<Point>, dist: Metric, tol: real,
                      i: nat, b: seq<nat>, current: seq<Point>, segments: seq<Segment>)
    requires i < |points| && !(i < |points| - 1 && IsJunctionPoint(points[i], junctions, dist, tol).Some?)
    requires SplitLoopState(points, junctions, dist, tol, i, b, current, segments)
    ensures SplitLoopState(points, junctions, dist, tol, i + 1, b, current + [points[i]], segments)
  {
    assert CutsBelow(points, junctions, dist, tol, i + 1) == b;
    SliceExtend(points, b[|b| - 1], i);
  }

  /** split_track_at_junctions: one piece per stretch between consecutive bounds. */
  method SplitTrackAtJunctions(points: seq<Point>, junctions: seq<Point>, dist: Metric, tol: real)
    returns (segments: seq<Segment>)
    ensures |points| < 2 ==> segments == []
    ensures |points| >= 2 ==>
      && ValidBounds(points, Bounds(points, junctions, dist, tol))
      && segments == PiecesOf(points, Bounds(points, junctions, dist, tol), dist)
  {
    if |points| < 2 {
      return [];
    }
    segments := [];
    var current := [points[0]];
    ghost var b: seq<nat> := [0];
    for i := 1 to |points|
      invariant SplitLoopState(points, junctions, dist, tol, i, b, current, segments)
    {
      SplitLoopStep(points, junctions, dist, tol, i, b, current, segments);
      var pt := points[i];
      current := current + [pt];
      if i < |points| - 1 {
        var junctionPt := IsJunctionPoint(pt, junctions, dist, tol);
        if junctionPt.Some? {
          var segLength := PolylineLength(current, dist);
          segments := segments + [Segment(current, segLength)];
          current := [pt];
          b := b + [i];
        }
      }
    }
    if |current| >= 2 {
      var segLength := PolylineLength(current, dist);
      segments := segments + [Segment(current, segLength)];
    }
    PiecesOfAppend(points, b, |points| - 1, dist);
  }

  function DropFirst(pts: seq<Point>): seq<Point> {
    if |pts| == 0 then [] else pts[1..]
  }

  /** The pieces' points glued back together, dropping each later piece's first point. */
  function JoinPieces(pieces: seq<Segment>): seq<Point> {
    if |pieces| == 0 then []
    else if |pieces| == 1 then pieces[0].points
    else JoinPieces(pieces[..|pieces| - 1]) + DropFirst(pieces[|pieces| - 1].points)
  }

  function TotalLength(pieces: seq<Segment>): real {
    if |pieces| == 0 then 0.0 else TotalLength(pieces[..|pieces| - 1]) + pieces[|pieces| - 1].length
  }

  lemma {:induction false} PiecesOfLast(points: seq<Point>, b: seq<nat>, dist: Metric)
    requires ValidBounds(points, b) && |b| >= 3
    ensures ValidBounds(points, b[..|b| - 1])
    ensures var pieces := PiecesOf(points, b, dist);
      pieces[..|pieces| - 1] == PiecesOf(points, b[..|b| - 1], dist) &&
      pieces[|pieces| - 1] == Piece(points, b[|b| - 2], b[|b| - 1], dist)
  {
  }

  /** Gluing the pieces back together gives the stretch of track from the first bound to the last. */
  lemma {:induction false} PiecesJoinPoints(points: seq<Point>, b: seq<nat>, dist: Metric)
    requires ValidBounds(points, b) && |b| >= 2
    ensures JoinPieces(PiecesOf(points, b, dist)) == points[b[0]..b[|b| - 1] + 1]
  {
    var pieces := PiecesOf(points, b, dist);
    forall j | 0 <= j < |pieces| ensures pieces[j].points == points[b[j]..b[j + 1] + 1] {
      PiecePoints(points, b, dist, j);
    }
    GluedPrefix(pieces, points, b, |pieces|);
    assert pieces[..|pieces|] == pieces;
  }

  /** The first k pieces glued together are the stretch from the first bound to the k-th. */
  lemma {:induction false} GluedPrefix(pieces: seq<Segment>, points: seq<Point>, b: seq<nat>, k: nat)
    requires ValidBounds(points, b) && |b| == |pieces| + 1 && 1 <= k <= |pieces|
    requires forall j :: 0 <= j < |pieces| ==> pieces[j].points == points[b[j]..b[j + 1] + 1]
    ensures JoinPieces(pieces[..k]) == points[b[0]..b[k] + 1]
  {
    if k == 1 {
      JoinPiecesPrefix(pieces, 1);
    } else {
      GluedPrefix(pieces, points, b, k - 1);
      assert b[0] < b[k - 1] < b[k] < |points|;
      GlueStep(pieces, k, points, b[0], b[k - 1], b[k]);
    }
  }

  /** The k-th piece holds the points from bound k to bound k + 1. */
  lemma {:induction false} PiecePoints(points: seq<Point>, b: seq<nat>, dist: Metric, k: nat)
    requires ValidBounds(points, b) && k + 1 < |b|
    ensures PiecesOf(points, b, dist)[k].points == points[b[k]..b[k + 1] + 1]
  {
    PiecesOfIndex(points, b, dist, k);
  }

  /** A glued prefix ending at mid, and a next piece from mid to end, glue to the stretch up to end. */
  lemma {:induction false} GlueStep(pieces: seq<Segment>, k: nat, points: seq<Point>, first: nat, mid: nat, end: nat)
    requires 2 <= k <= |pieces| && first < mid < end < |points|
    requires JoinPieces(pieces[..k - 1]) == points[first..mid + 1]
    requires pieces[k - 1].points == points[mid..end + 1]
    ensures JoinPieces(pieces[..k]) == points[first..end + 1]
  {
    JoinPiecesPrefix(pieces, k);
    SliceJoin(points, first, mid, end);
  }

  /** One more piece adds its points but the first to a glued prefix. */
  lemma {:induction false} JoinPiecesPrefix(pieces: seq<Segment>, k: nat)
    requires 1 <= k <= |pieces|
    ensures k > 1 ==> JoinPieces(pieces[..k]) == JoinPieces(pieces[..k - 1]) + DropFirst(pieces[k - 1].points)
    ensures JoinPieces(pieces[..1]) == pieces[0].points
  {
    assert pieces[..k][..k - 1] == pieces[..k - 1];
  }

  lemma {:induction false} SliceJoin(points: seq<Point>, first: nat, mid: nat, end: nat)
    requires first < mid < end < |points|
    ensures points[first..mid + 1] + DropFirst(points[mid..end + 1]) == points[first..end + 1]
  {
    assert DropFirst(points[mid..end + 1]) == points[mid + 1..end + 1];
  }

  /** The pieces' lengths add up to the length of the stretch from the first bound to the last. */
  lemma {:induction false} PiecesTotalLength(points: seq<Point>, b: seq<nat>, dist: Metric)
    requires ValidBounds(points, b) && |b| >= 2
    ensures TotalLength(PiecesOf(points, b, dist)) == PolylineLength(points[b[0]..b[|b| - 1] + 1], dist)
  {
    var pieces := PiecesOf(points, b, dist);
    PiecesPrefixLength(points, b, dist, |b| - 1);
    assert pieces[..|b| - 1] == pieces;
  }

  /** The first k pieces cover the stretch from the first bound to the k-th. */
  lemma {:induction false} PiecesPrefixLength(points: seq<Point>, b: seq<nat>, dist: Metric, k: nat)
    requires ValidBounds(points, b) && 1 <= k < |b|
    ensures TotalLength(PiecesOf(points, b, dist)[..k]) == PolylineLength(points[b[0]..b[k] + 1], dist)
  {
    var pieces := PiecesOf(points, b, dist);
    PiecesOfIndex(points, b, dist, k - 1);
    TotalLengthPrefix(pieces, k);
    if k > 1 {
      PiecesPrefixLength(points, b, dist, k - 1);
      PolylineSplit(points, b[0], b[k - 1], b[k], dist);
    }
  }

  /** One more piece adds its length to the total of a prefix. */
  lemma {:induction false} TotalLengthPrefix(pieces: seq<Segment>, k: nat)
    requires 1 <= k <= |pieces|
    ensures TotalLength(pieces[..k]) == TotalLength(pieces[..k - 1]) + pieces[k - 1].length
    ensures TotalLength(pieces[..1]) == pieces[0].length
  {
    assert pieces[..k][..k - 1] == pieces[..k - 1];
    assert pieces[..1][..0] == [];
  }

  /** The stretch from first to end is as long as the stretches first to mid and mid to end. */
  lemma {:induction false} PolylineSplit(points: seq<Point>, first: nat, mid: nat, end: nat, dist: Metric)
    requires first < mid < end < |points|
    ensures PolylineLength(points[first..end + 1], dist)
      == PolylineLength(points[first..mid + 1], dist) + PolylineLength(points[mid..end + 1], dist)
  {
    var head := points[first..mid + 1];
    var last := points[mid..end + 1];
    assert head + last[1..] == points[first..end + 1];
    PolylineLengthJoin(head, last, dist);
  }

  /** Consecutive pieces share their joint point; every piece has at least two points. */
  lemma {:induction false} PiecesChain(points: seq<Point>, b: seq<nat>, dist: Metric)
    requires ValidBounds(points, b) && |b| >= 2
    ensures var pieces := PiecesOf(points, b, dist);
      && (forall k :: 0 <= k < |pieces| ==> |pieces[k].points| >= 2)
      && pieces[0].points[0] == points[b[0]]
      && Last(pieces[|pieces| - 1].points) == points[b[|b| - 1]]
      && (forall k :: 0 <= k < |pieces| - 1 ==> pieces[k + 1].points[0] == Last(pieces[k].points))
  {
    var pieces := PiecesOf(points, b, dist);
    forall k | 0 <= k < |pieces|
      ensures |pieces[k].points| >= 2
      ensures pieces[k].points[0] == points[b[k]] && Last(pieces[k].points) == points[b[k + 1]]
    {
      PiecesOfIndex(points, b, dist, k);
      var pk := Piece(points, b[k], b[k + 1], dist);
    }
  }

  /**
   * The pieces of a split track chain end to end: the first starts at the track's first point,
   * the last ends at its last point, and each piece starts where the previous one ended.
   */
  lemma {:induction false} SplitPiecesChain(points: seq<Point>, junctions: seq<Point>, dist: Metric, tol: real)
    requires |points| >= 2 && ValidBounds(points, Bounds(points, junctions, dist, tol))
    ensures var pieces := PiecesOf(points, Bounds(points, junctions, dist, tol), dist);
      && |pieces| > 0
      && (forall k :: 0 <= k < |pieces| ==> |pieces[k].points| >= 2)
      && pieces[0].points[0] == points[0]
      && Last(pieces[|pieces| - 1].points) == Last(points)
      && (forall k :: 0 <= k < |pieces| - 1 ==> pieces[k + 1].points[0] == Last(pieces[k].points))
  {
    var b := Bounds(points, junctions, dist, tol);
    PiecesChain(points, b, dist);
  }

  /** Every point where one piece ends and the next begins is near a junction. */
  lemma {:induction false} SplitPiecesCutAtJunctions(points: seq<Point>, junctions: seq<Point>, dist: Metric, tol: real)
    requires |points| >= 2 && ValidBounds(points, Bounds(points, junctions, dist, tol))
    ensures var pieces := PiecesOf(points, Bounds(points, junctions, dist, tol), dist);
      forall k :: 0 <= k < |pieces| - 1 ==>
        |pieces[k].points| > 0 && IsJunctionPoint(Last(pieces[k].points), junctions, dist, tol).Some?
  {
    var b := Bounds(points, junctions, dist, tol);
    var pieces := PiecesOf(points, b, dist);
    forall k | 0 <= k < |pieces| - 1
      ensures |pieces[k].points| > 0 && IsJunctionPoint(Last(pieces[k].points), junctions, dist, tol).Some?
    {
      InnerBoundIsJunction(points, junctions, dist, tol, k + 1);
      PieceEnd(points, b, dist, k);
    }
  }

  /** Piece k ends at bound k + 1. */
  lemma {:induction false} PieceEnd(points: seq<Point>, b: seq<nat>, dist: Metric, k: nat)
    requires ValidBounds(points, b) && k + 1 < |b|
    ensures |PiecesOf(points, b, dist)[k].points| > 0 && Last(PiecesOf(points, b, dist)[k].points) == points[b[k + 1]]
  {
    PiecesOfIndex(points, b, dist, k);
  }

  /** Every bound but the first and the last is a point near a junction. */
  lemma {:induction false} InnerBoundIsJunction(points: seq<Point>, junctions: seq<Point>, dist: Metric, tol: real, m: nat)
    requires |points| >= 2 && 0 < m < |Bounds(points, junctions, dist, tol)| - 1
    ensures var b := Bounds(points, junctions, dist, tol);
      b[m] < |points| && IsJunctionPoint(points[b[m]], junctions, dist, tol).Some?
  {
    var cuts := CutsBelow(points, junctions, dist, tol, |points|);
    assert Bounds(points, junctions, dist, tol)[m] == cuts[m] && cuts[m] in cuts;
    assert cuts[0] < cuts[m];
    CutsBelowExactly(points, junctions, dist, tol, |points|, cuts[m]);
  }

  /**
   * Cutting loses nothing: the pieces glue back to the whole track and their lengths add up to
   * the track's length.
   */
  lemma {:induction false} SplitPiecesRebuild(points: seq<Point>, junctions: seq<Point>, dist: Metric, tol: real)
    requires |points| >= 2 && ValidBounds(points, Bounds(points, junctions, dist, tol))
    ensures JoinPieces(PiecesOf(points, Bounds(points, junctions, dist, tol), dist)) == points
    ensures TotalLength(PiecesOf(points, Bounds(points, junctions, dist, tol), dist)) == PolylineLength(points, dist)
  {
    var b := Bounds(points, junctions, dist, tol);
    PiecesJoinPoints(points, b, dist);
    PiecesTotalLength(points, b, dist);
    assert points[b[0]..b[|b| - 1] + 1] == points;
  }

  // ---------------------------------------------------------------------------------------------
  // The graph

  datatype Node = Node(id: string, pos: Point)

  datatype EdgeData = EdgeData(
    lengthM: real, builtYear: int, abandonedYear: int,
    builderCode: string, builderName: string, points: seq<Point>)

  datatype Edge = Edge(u: string, v: string, data: EdgeData)

  /** The attributes of one shapefile record, already read and stripped. */
  datatype Track = Track(points: seq<Point>, builtYear: int, abandonedYear: int, builderCode: string)

  predicate Joins(e: Edge, a: string, b: string) {
    (e.u == a && e.v == b) || (e.u == b && e.v == a)
  }

  function Ids(nodes: seq<Node>): (ids: seq<string>)
    ensures |ids| == |nodes| && forall k :: 0 <= k < |nodes| ==> ids[k] == nodes[k].id
  {
    if |nodes| == 0 then [] else Ids(nodes[..|nodes| - 1]) + [nodes[|nodes| - 1].id]
  }

  /** The first node (in insertion order) strictly within tol of p. */
  function FindNear(nodes: seq<Node>, p: Point, dist: Metric, tol: real): (r: Option<nat>)
    ensures r.Some? ==> r.value < |nodes| && dist(nodes[r.value].pos, p) < tol
    ensures r.Some? ==> forall k :: 0 <= k < r.value ==> dist(nodes[k].pos, p) >= tol
    ensures r.None? ==> forall k :: 0 <= k < |nodes| ==> dist(nodes[k].pos, p) >= tol
  {
    if |nodes| == 0 then None
    else
      match FindNear(nodes[..|nodes| - 1], p, dist, tol)
      case Some(k) => Some(k)
      case None => if dist(nodes[|nodes| - 1].pos, p) < tol then Some(|nodes| - 1) else None
  }

  /** The position of the node called id, if any. */
  function FindId(nodes: seq<Node>, id: string): (r: Option<nat>)
    ensures r.Some? ==> r.value < |nodes| && nodes[r.value].id == id
    ensures r.None? ==> forall k :: 0 <= k < |nodes| ==> nodes[k].id != id
  {
    if |nodes| == 0 then None
    else if nodes[|nodes| - 1].id == id then Some(|nodes| - 1)
    else FindId(nodes[..|nodes| - 1], id)
  }

  /** networkx add_node: an existing node gets the new position, otherwise the node is appended. */
  function SetNode(nodes: seq<Node>, n: Node): seq<Node> {
    match FindId(nodes, n.id)
    case Some(k) => nodes[k := n]
    case None => nodes + [n]
  }

  datatype Resolved = Resolved(id: string, next: nat, nodes: seq<Node>)

  /** What find_or_create_node returns and leaves behind. */
  function ResolveNode(nodes: seq<Node>, p: Point, index: nat, dist: Metric, tol: real): Resolved {
    match FindNear(nodes, p, dist, tol)
    case Some(k) => Resolved(nodes[k].id, index, nodes)
    case None => Resolved(NodeName(index), index + 1, SetNode(nodes, Node(NodeName(index), p)))
  }

  /** Nodes are n0, n1, ... in insertion order. */
  ghost predicate NumberedNodes(nodes: seq<Node>) {
    forall k :: 0 <= k < |nodes| ==> nodes[k].id == NodeName(k)
  }

  /**
   * With nodes numbered n0.. and the counter at the node count, a resolved point is either an
   * existing node strictly within tol, nothing added, or a new node n{index} at the point,
   * appended; the numbering is kept either way.
   */
  lemma {:induction false} ResolveNodeFresh(nodes: seq<Node>, p: Point, index: nat, dist: Metric, tol: real)
    requires NumberedNodes(nodes) && index == |nodes|
    ensures var r := ResolveNode(nodes, p, index, dist, tol);
      && NumberedNodes(r.nodes) && r.next == |r.nodes|
      && r.id in Ids(r.nodes)
      && |nodes| <= |r.nodes| && r.nodes[..|nodes|] == nodes
      && (r.next == index ==> r.nodes == nodes && exists k :: 0 <= k < |nodes| && nodes[k].id == r.id && dist(nodes[k].pos, p) < tol)
      && (r.next == index + 1 ==> r.nodes == nodes + [Node(NodeName(index), p)] && r.id == NodeName(index))
  {
    var r := ResolveNode(nodes, p, index, dist, tol);
    match FindNear(nodes, p, dist, tol)
    case Some(k) =>
      assert Ids(nodes)[k] == r.id;
    case None =>
      match FindId(nodes, NodeName(index))
      case Some(k) =>
        NodeNameInjective(k, index);
        assert false;
      case None =>
        assert Ids(r.nodes)[index] == r.id;
  }

  /** The first edge joining a and b in either orientation. */
  function FindEdge(edges: seq<Edge>, a: string, b: string): (r: Option<nat>)
    ensures r.Some? ==> r.value < |edges| && Joins(edges[r.value], a, b)
    ensures r.None? ==> forall k :: 0 <= k < |edges| ==> !Joins(edges[k], a, b)
  {
    if |edges| == 0 then None
    else
      match FindEdge(edges[..|edges| - 1], a, b)
      case Some(k) => Some(k)
      case None => if Joins(edges[|edges| - 1], a, b) then Some(|edges| - 1) else None
  }

  /**
   * The edge step of the build loop: no self-loop; an existing edge between the two nodes, in
   * either orientation, takes the new data only when the new piece is strictly shorter; otherwise
   * a new edge is added.
   */
  function InsertEdge(edges: seq<Edge>, a: string, b: string, data: EdgeData): seq<Edge> {
    if a == b then edges
    else
      match FindEdge(edges, a, b)
      case Some(k) => if data.lengthM < edges[k].data.lengthM then edges[k := edges[k].(data := data)] else edges
      case None => edges + [Edge(a, b, data)]
  }

  /** No self-loops, no two edges between the same two nodes, every endpoint a node. */
  ghost predicate SimpleGraph(ids: seq<string>, edges: seq<Edge>) {
    && (forall k :: 0 <= k < |edges| ==> edges[k].u != edges[k].v && edges[k].u in ids && edges[k].v in ids)
    && (forall i, j :: 0 <= i < j < |edges| ==> !Joins(edges[j], edges[i].u, edges[i].v))
  }

  lemma {:induction false} SimpleGraphMoreNodes(ids: seq<string>, ids': seq<string>, edges: seq<Edge>)
    requires SimpleGraph(ids, edges) && forall x :: x in ids ==> x in ids'
    ensures SimpleGraph(ids', edges)
  {
  }

  lemma {:induction false} IdsPrefix(small: seq<Node>, big: seq<Node>)
    requires |small| <= |big| && big[..|small|] == small
    ensures forall x :: x in Ids(small) ==> x in Ids(big)
  {
    forall x | x in Ids(small) ensures x in Ids(big) {
      var k :| 0 <= k < |small| && Ids(small)[k] == x;
      assert Ids(big)[k] == x;
    }
  }

  /** Inserting an edge between two nodes keeps the graph simple. */
  lemma {:induction false} InsertEdgeKeepsSimple(ids: seq<string>, edges: seq<Edge>, a: string, b: string, data: EdgeData)
    requires SimpleGraph(ids, edges) && a in ids && b in ids
    ensures SimpleGraph(ids, InsertEdge(edges, a, b, data))
  {
    var r := InsertEdge(edges, a, b, data);
    if a != b {
      match FindEdge(edges, a, b)
      case Some(k) =>
        assert |r| == |edges| && forall j :: 0 <= j < |r| ==> r[j].u == edges[j].u && r[j].v == edges[j].v;
      case None =>
        assert r == edges + [Edge(a, b, data)];
        forall i, j | 0 <= i < j < |r|
          ensures !Joins(r[j], r[i].u, r[i].v)
        {
          if j == |edges| {
            assert !Joins(edges[i], a, b);
          }
        }
    }
  }

  /**
   * After inserting a piece between two different nodes there is exactly one edge between them
   * and it carries the shorter of the old and the new data (the old one on a tie); every other
   * edge is untouched. A piece from a node to itself changes nothing.
   */
  lemma {:induction false} InsertEdgeKeepsShorter(ids: seq<string>, edges: seq<Edge>, a: string, b: string, data: EdgeData)
    requires SimpleGraph(ids, edges) && a in ids && b in ids
    ensures a == b ==> InsertEdge(edges, a, b, data) == edges
    ensures a != b ==>
      var r := InsertEdge(edges, a, b, data);
      && FindEdge(r, a, b).Some?
      && var k := FindEdge(r, a, b).value;
      && (forall j :: 0 <= j < |r| && Joins(r[j], a, b) ==> j == k)
      && (forall j :: 0 <= j < |r| && j != k ==> j < |edges| && r[j] == edges[j])
      && match FindEdge(edges, a, b)
         case None => |r| == |edges| + 1 && r[k].data == data
         case Some(k0) =>
           && k == k0 && |r| == |edges|
           && r[k].data == (if data.lengthM < edges[k0].data.lengthM then data else edges[k0].data)
  {
    var r := InsertEdge(edges, a, b, data);
    if a != b {
      match FindEdge(edges, a, b)
      case Some(k) =>
        assert Joins(r[k], a, b);
        forall j | 0 <= j < |r| && Joins(r[j], a, b) ensures j == k {
        }
      case None =>
        assert Joins(r[|edges|], a, b);
    }
  }

  /** Every edge's length is the polyline length of the piece it stores. */
  ghost predicate LengthsMatch(edges: seq<Edge>, dist: Metric) {
    forall k :: 0 <= k < |edges| ==>
      |edges[k].data.points| >= 2 && edges[k].data.lengthM == PolylineLength(edges[k].data.points, dist)
  }

  lemma {:induction false} InsertEdgeKeepsLengths(edges: seq<Edge>, a: string, b: string, data: EdgeData, dist: Metric)
    requires LengthsMatch(edges, dist)
    requires |data.points| >= 2 && data.lengthM == PolylineLength(data.points, dist)
    ensures LengthsMatch(InsertEdge(edges, a, b, data), dist)
  {
  }

  /** Edge data for one piece of a track; unknown builder codes name themselves. */
  function PieceData(seg: Segment, track: Track, builderNames: map<string, string>): EdgeData {
    EdgeData(seg.length, track.builtYear, track.abandonedYear, track.builderCode,
             if track.builderCode in builderNames then builderNames[track.builderCode] else track.builderCode,
             seg.points)
  }

  /** The networkx graph built by load_railway_tracks: nodes in insertion order and edges. */
  class RailGraph {
    var nodes: seq<Node>
    var edges: seq<Edge>

    ghost predicate Valid()
      reads this
    {
      NumberedNodes(nodes) && SimpleGraph(Ids(nodes), edges)
    }

    constructor ()
      ensures Valid() && nodes == [] && edges == []
    {
      nodes := [];
      edges := [];
    }

    /** find_or_create_node. */
    method FindOrCreateNode(p: Point, index: nat, dist: Metric, tol: real) returns (id: string, next: nat)
      modifies this
      ensures Resolved(id, next, nodes) == ResolveNode(old(nodes), p, index, dist, tol)
      ensures edges == old(edges)
    {
      for k := 0 to |nodes|
        invariant forall k' :: 0 <= k' < k ==> dist(nodes[k'].pos, p) >= tol
      {
        var dk := dist(nodes[k].pos, p);
        if dk < tol {
          ghost var r := FindNear(nodes, p, dist, tol);
          assert r == Some(k) by {
            if r.None? || r.value < k {
            } else if r.value > k {
            }
          }
          return nodes[k].id, index;
        }
      }
      id := NodeName(index);
      nodes := SetNode(nodes, Node(id, p));
      next := index + 1;
    }

    /** graph.has_edge in either orientation, with the position of that edge. */
    method FindEdgeIndex(a: string, b: string) returns (r: Option<nat>)
      ensures r == FindEdge(edges, a, b)
    {
      r := None;
      for k := 0 to |edges|
        invariant r == FindEdge(edges[..k], a, b)
      {
        assert edges[..k + 1][..k] == edges[..k];
        if r.None? && Joins(edges[k], a, b) {
          r := Some(k);
        }
      }
      assert edges[..|edges|] == edges;
    }

    /** The self-loop check and the has_edge / update / add_edge step (lines 295-311). */
    method InsertEdgeInPlace(a: string, b: string, data: EdgeData)
      requires Valid() && a in Ids(nodes) && b in Ids(nodes)
      modifies this
      ensures Valid() && nodes == old(nodes)
      ensures edges == InsertEdge(old(edges), a, b, data)
    {
      InsertEdgeKeepsSimple(Ids(nodes), edges, a, b, data);
      if a == b {
        return;
      }
      var found := FindEdgeIndex(a, b);
      if found.Some? {
        var k := found.value;
        if data.lengthM < edges[k].data.lengthM {
          edges := edges[k := edges[k].(data := data)];
        }
      } else {
        edges := edges + [Edge(a, b, data)];
      }
    }

    /** One pass of the inner loop over the pieces of a track (lines 280-312). */
    method AddPiece(seg: Segment, data: EdgeData, index: nat, dist: Metric) returns (next: nat)
      requires Valid() && index == |nodes| && |seg.points| >= 2
      requires LengthsMatch(edges, dist) && |data.points| >= 2 && data.lengthM == PolylineLength(data.points, dist)
      modifies this
      ensures Valid() && next == |nodes| && LengthsMatch(edges, dist)
      ensures
        var s := ResolveNode(old(nodes), seg.points[0], index, dist, SnapTolerance);
        var e := ResolveNode(s.nodes, Last(seg.points), s.next, dist, SnapTolerance);
        nodes == e.nodes && next == e.next && edges == InsertEdge(old(edges), s.id, e.id, data)
      ensures Built(nodes, edges, next) == AddPieceTo(Built(old(nodes), old(edges), index), seg, data, dist)
    {
      var tol := SnapTolerance;
      ghost var nodes0 := nodes;
      ResolveNodeFresh(nodes, seg.points[0], index, dist, tol);
      var startNode, i1 := FindOrCreateNode(seg.points[0], index, dist, tol);
      ghost var nodes1 := nodes;
      ResolveNodeFresh(nodes, Last(seg.points), i1, dist, tol);
      var endNode, i2 := FindOrCreateNode(Last(seg.points), i1, dist, tol);
      IdsPrefix(nodes0, nodes1);
      IdsPrefix(nodes1, nodes);
      SimpleGraphMoreNodes(Ids(nodes0), Ids(nodes), edges);
      InsertEdgeKeepsLengths(edges, startNode, endNode, data, dist);
      InsertEdgeInPlace(startNode, endNode, data);
      next := i2;
    }
  }

  /** Each piece carries at least two points and its own polyline length. */
  ghost predicate WellFormedPieces(pieces: seq<Segment>, dist: Metric) {
    forall k :: 0 <= k < |pieces| ==> |pieces[k].points| >= 2 && pieces[k].length == PolylineLength(pieces[k].points, dist)
  }

  lemma {:induction false} PiecesOfWellFormed(points: seq<Point>, b: seq<nat>, dist: Metric)
    requires ValidBounds(points, b)
    ensures WellFormedPieces(PiecesOf(points, b, dist), dist)
  {
    var pieces := PiecesOf(points, b, dist);
    forall k | 0 <= k < |pieces|
      ensures |pieces[k].points| >= 2 && pieces[k].length == PolylineLength(pieces[k].points, dist)
    {
      PiecesOfIndex(points, b, dist, k);
    }
  }

  /** The state load_railway_tracks threads through its loops: nodes, edges, the node counter. */
  datatype Built = Built(nodes: seq<Node>, edges: seq<Edge>, next: nat)

  /** Nodes numbered n0, n1, ... with the counter at their count, a simple graph, consistent lengths. */
  ghost predicate GoodBuilt(b: Built, dist: Metric) {
    NumberedNodes(b.nodes) && b.next == |b.nodes| && SimpleGraph(Ids(b.nodes), b.edges) && LengthsMatch(b.edges, dist)
  }

  /** The node and edge step for one piece: its first point, then its last point, then the edge. */
  function AddPieceTo(b: Built, seg: Segment, data: EdgeData, dist: Metric): Built
    requires |seg.points| >= 2
  {
    var s := ResolveNode(b.nodes, seg.points[0], b.next, dist, SnapTolerance);
    var e := ResolveNode(s.nodes, Last(seg.points), s.next, dist, SnapTolerance);
    Built(e.nodes, InsertEdge(b.edges, s.id, e.id, data), e.next)
  }

  /** The step for one piece keeps the numbering, the simple graph and the edge lengths. */
  lemma {:induction false} AddPieceToKeeps(b: Built, seg: Segment, data: EdgeData, dist: Metric)
    requires GoodBuilt(b, dist) && |seg.points| >= 2
    requires |data.points| >= 2 && data.lengthM == PolylineLength(data.points, dist)
    ensures GoodBuilt(AddPieceTo(b, seg, data, dist), dist)
  {
    var s := ResolveNode(b.nodes, seg.points[0], b.next, dist, SnapTolerance);
    ResolveNodeFresh(b.nodes, seg.points[0], b.next, dist, SnapTolerance);
    var e := ResolveNode(s.nodes, Last(seg.points), s.next, dist, SnapTolerance);
    ResolveNodeFresh(s.nodes, Last(seg.points), s.next, dist, SnapTolerance);
    IdsPrefix(b.nodes, s.nodes);
    IdsPrefix(s.nodes, e.nodes);
    SimpleGraphMoreNodes(Ids(b.nodes), Ids(e.nodes), b.edges);
    InsertEdgeKeepsSimple(Ids(e.nodes), b.edges, s.id, e.id, data);
    InsertEdgeKeepsLengths(b.edges, s.id, e.id, data, dist);
  }

  /** The inner loop over the pieces of one track, piece by piece in order (lines 280-312). */
  function AddPiecesTo(b: Built, pieces: seq<Segment>, track: Track, builderNames: map<string, string>, dist: Metric): Built
    requires forall k :: 0 <= k < |pieces| ==> |pieces[k].points| >= 2
  {
    if |pieces| == 0 then b
    else
      var last := pieces[|pieces| - 1];
      AddPieceTo(AddPiecesTo(b, pieces[..|pieces| - 1], track, builderNames, dist), last, PieceData(last, track, builderNames), dist)
  }

  lemma {:induction false} AddPiecesToKeeps(b: Built, pieces: seq<Segment>, track: Track, builderNames: map<string, string>, dist: Metric)
    requires GoodBuilt(b, dist) && WellFormedPieces(pieces, dist)
    ensures GoodBuilt(AddPiecesTo(b, pieces, track, builderNames, dist), dist)
  {
    if |pieces| > 0 {
      var last := pieces[|pieces| - 1];
      AddPiecesToKeeps(b, pieces[..|pieces| - 1], track, builderNames, dist);
      AddPieceToKeeps(AddPiecesTo(b, pieces[..|pieces| - 1], track, builderNames, dist), last, PieceData(last, track, builderNames), dist);
    }
  }

  lemma {:induction false} AddPiecesToStep(b: Built, pieces: seq<Segment>, track: Track, builderNames: map<string, string>, dist: Metric, s: nat)
    requires s < |pieces| && forall k :: 0 <= k < |pieces| ==> |pieces[k].points| >= 2
    ensures AddPiecesTo(b, pieces[..s + 1], track, builderNames, dist)
         == AddPieceTo(AddPiecesTo(b, pieces[..s], track, builderNames, dist), pieces[s], PieceData(pieces[s], track, builderNames), dist)
  {
    assert pieces[..s + 1][..s] == pieces[..s];
  }

  /** The pieces load_railway_tracks makes of one track: none when it has fewer than two points. */
  function TrackPieces(track: Track, junctions: seq<Point>, dist: Metric): (pieces: seq<Segment>)
    ensures WellFormedPieces(pieces, dist)
  {
    if |track.points| < 2 then []
    else
      PiecesOfWellFormed(track.points, Bounds(track.points, junctions, dist, SnapTolerance), dist);
      PiecesOf(track.points, Bounds(track.points, junctions, dist, SnapTolerance), dist)
  }

  lemma {:induction false} BuildFromStep(tracks: seq<Track>, junctions: seq<Point>, builderNames: map<string, string>, dist: Metric, t: nat)
    requires t < |tracks|
    ensures BuildFrom(tracks[..t + 1], junctions, builderNames, dist)
         == AddPiecesTo(BuildFrom(tracks[..t], junctions, builderNames, dist), TrackPieces(tracks[t], junctions, dist), tracks[t], builderNames, dist)
  {
    assert tracks[..t + 1][..t] == tracks[..t];
  }

  /** The graph load_railway_tracks builds, track by track, from an empty graph. */
  function BuildFrom(tracks: seq<Track>, junctions: seq<Point>, builderNames: map<string, string>, dist: Metric): Built {
    if |tracks| == 0 then Built([], [], 0)
    else
      var t := tracks[|tracks| - 1];
      AddPiecesTo(BuildFrom(tracks[..|tracks| - 1], junctions, builderNames, dist), TrackPieces(t, junctions, dist), t, builderNames, dist)
  }

  /**
   * Whatever the tracks, the built graph has its nodes numbered n0, n1, ... in creation order,
   * no self-loop, at most one edge per pair of nodes, and every edge's length is the polyline
   * length of the points it stores.
   */
  lemma {:induction false} BuildFromGood(tracks: seq<Track>, junctions: seq<Point>, builderNames: map<string, string>, dist: Metric)
    ensures GoodBuilt(BuildFrom(tracks, junctions, builderNames, dist), dist)
  {
    if |tracks| > 0 {
      var t := tracks[|tracks| - 1];
      BuildFromGood(tracks[..|tracks| - 1], junctions, builderNames, dist);
      AddPiecesToKeeps(BuildFrom(tracks[..|tracks| - 1], junctions, builderNames, dist), TrackPieces(t, junctions, dist), t, builderNames, dist);
    }
  }

  /** The point lists of the tracks, in order. */
  function TrackPoints(tracks: seq<Track>): (pts: seq<seq<Point>>)
    ensures |pts| == |tracks| && forall i :: 0 <= i < |tracks| ==> pts[i] == tracks[i].points
  {
    if |tracks| == 0 then [] else TrackPoints(tracks[..|tracks| - 1]) + [tracks[|tracks| - 1].points]
  }

  /** The junction points of all the tracks' points, listed in some order. */
  ghost predicate ListsJunctions(junctions: seq<Point>, tracks: seq<Track>) {
    forall p :: p in junctions <==> p in JunctionsOf(Flatten(TrackPoints(tracks)))
  }

  /** The inner loop of load_railway_tracks: every piece of one track becomes an edge. */
  method AddPieces(g: RailGraph, segments: seq<Segment>, track: Track, builderNames: map<string, string>,
                   index: nat, dist: Metric) returns (next: nat)
    requires g.Valid() && index == |g.nodes| && LengthsMatch(g.edges, dist)
    requires WellFormedPieces(segments, dist)
    modifies g
    ensures g.Valid() && next == |g.nodes| && LengthsMatch(g.edges, dist)
    ensures Built(g.nodes, g.edges, next) == AddPiecesTo(Built(old(g.nodes), old(g.edges), index), segments, track, builderNames, dist)
  {
    next := index;
    ghost var start := Built(g.nodes, g.edges, index);
    for s := 0 to |segments|
      invariant g.Valid() && next == |g.nodes| && LengthsMatch(g.edges, dist)
      invariant Built(g.nodes, g.edges, next) == AddPiecesTo(start, segments[..s], track, builderNames, dist)
    {
      var seg := segments[s];
      var data := PieceData(seg, track, builderNames);
      AddPiecesToStep(start, segments, track, builderNames, dist, s);
      next := g.AddPiece(seg, data, next, dist);
    }
    assert segments[..|segments|] == segments;
  }

  /**
   * The track loop of load_railway_tracks over the records that passed the bounding-box filter,
   * given the junction points of all those records in the set's iteration order: the graph is
   * the one BuildFrom describes, so (BuildFromGood) it is simple, numbered n0, n1, ... and every
   * edge keeps the length of the piece it stores.
   */
  method BuildNetwork(tracks: seq<Track>, junctions: seq<Point>, builderNames: map<string, string>, dist: Metric)
    returns (g: RailGraph)
    requires ListsJunctions(junctions, tracks)
    ensures fresh(g) && g.Valid() && LengthsMatch(g.edges, dist)
    ensures Built(g.nodes, g.edges, |g.nodes|) == BuildFrom(tracks, junctions, builderNames, dist)
  {
    g := new RailGraph();
    var nodeIndex := 0;
    for t := 0 to |tracks|
      invariant g.Valid() && nodeIndex == |g.nodes| && LengthsMatch(g.edges, dist)
      invariant Built(g.nodes, g.edges, nodeIndex) == BuildFrom(tracks[..t], junctions, builderNames, dist)
    {
      var track := tracks[t];
      BuildFromStep(tracks, junctions, builderNames, dist, t);
      if |track.points| < 2 {
        continue;
      }
      var segments := SplitTrackAtJunctions(track.points, junctions, dist, SnapTolerance);
      PiecesOfWellFormed(track.points, Bounds(track.points, junctions, dist, SnapTolerance), dist);
      nodeIndex := AddPieces(g, segments, track, builderNames, nodeIndex, dist);
    }
    assert tracks[..|tracks|] == tracks;
  }
}
