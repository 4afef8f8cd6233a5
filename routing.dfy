/**
 * The routing part of scripts/verify_railway_routes.py: the adjacency lists and track lookup
 * built from the network files, and the hand-written lazy Dijkstra search find_path with its
 * path reconstruction.
 */
module Routing {
  import opened Wrappers
  import opened Geometry
  import opened Ordering
  import opened Snapper

  // ---------------------------------------------------------------------------------------------
  // Adjacency lists

  datatype Nbr = Nbr(node: string, weight: real)

  type Adj = map<string, seq<Nbr>>

  /** adj.get(u, []). */
  function Neighbors(adj: Adj, u: string): seq<Nbr> {
    if u in adj then adj[u] else []
  }

  function Append(adj: Adj, u: string, n: Nbr): (r: Adj)
    ensures Neighbors(r, u) == Neighbors(adj, u) + [n]
    ensures forall v :: v != u ==> Neighbors(r, v) == Neighbors(adj, v)
    ensures r.Keys == adj.Keys + {u}
  {
    adj[u := Neighbors(adj, u) + [n]]
  }

  /** build_adjacency: every edge listed under its source and then under its target. */
  function AdjacencyOf(edges: seq<NetEdge>): Adj {
    if |edges| == 0 then map[]
    else
      var e := edges[|edges| - 1];
      var adj := AdjacencyOf(edges[..|edges| - 1]);
      Append(Append(adj, e.source, Nbr(e.target, e.lengthM)), e.target, Nbr(e.source, e.lengthM))
  }

  predicate EdgeOffers(e: NetEdge, u: string, n: Nbr) {
    n.weight == e.lengthM && ((e.source == u && e.target == n.node) || (e.target == u && e.source == n.node))
  }

  /** Some edge joins u and n.node with weight n.weight, in either direction. */
  ghost predicate Offered(edges: seq<NetEdge>, u: string, n: Nbr) {
    exists i :: 0 <= i < |edges| && EdgeOffers(edges[i], u, n)
  }

  /** u lists n exactly when some edge joins u and n.node with weight n.weight, in either direction. */
  lemma {:induction false} AdjacencyOfEdges(edges: seq<NetEdge>, u: string, n: Nbr)
    ensures n in Neighbors(AdjacencyOf(edges), u) <==> Offered(edges, u, n)
    decreases |edges|
  {
    if |edges| > 0 {
      AdjacencyOfEdges(edges[..|edges| - 1], u, n);
      AdjacencyStep(edges, u, n);
      OffersStep(edges, u, n);
    }
  }

  /** The last edge adds n to u's list exactly when it offers n. */
  lemma {:induction false} AdjacencyStep(edges: seq<NetEdge>, u: string, n: Nbr)
    requires |edges| > 0
    ensures n in Neighbors(AdjacencyOf(edges), u)
      <==> n in Neighbors(AdjacencyOf(edges[..|edges| - 1]), u) || EdgeOffers(edges[|edges| - 1], u, n)
  {
    var e := edges[|edges| - 1];
    var adj0 := AdjacencyOf(edges[..|edges| - 1]);
    var a1 := Append(adj0, e.source, Nbr(e.target, e.lengthM));
    var a2 := Append(a1, e.target, Nbr(e.source, e.lengthM));
    assert AdjacencyOf(edges) == a2;
    AppendMember(adj0, e.source, Nbr(e.target, e.lengthM), u, n);
    AppendMember(a1, e.target, Nbr(e.source, e.lengthM), u, n);
  }

  /** n is listed under u after appending m under v when it was before, or when u is v and n is m. */
  lemma {:induction false} AppendMember(adj: Adj, v: string, m: Nbr, u: string, n: Nbr)
    ensures n in Neighbors(Append(adj, v, m), u) <==> n in Neighbors(adj, u) || (u == v && n == m)
  {
  }

  lemma {:induction false} OffersStep(edges: seq<NetEdge>, u: string, n: Nbr)
    requires |edges| > 0
    ensures Offered(edges, u, n) <==> Offered(edges[..|edges| - 1], u, n) || EdgeOffers(edges[|edges| - 1], u, n)
  {
    var front := edges[..|edges| - 1];
    if Offered(edges, u, n) {
      var i :| 0 <= i < |edges| && EdgeOffers(edges[i], u, n);
      if i < |front| {
        assert EdgeOffers(front[i], u, n);
      }
    }
    if Offered(front, u, n) {
      var i :| 0 <= i < |front| && EdgeOffers(front[i], u, n);
      assert edges[i] == front[i];
    }
  }

  /** Every edge is recorded in both directions with the same weight. */
  lemma {:induction false} AdjacencySymmetric(edges: seq<NetEdge>, u: string, v: string, w: real)
    ensures Nbr(v, w) in Neighbors(AdjacencyOf(edges), u) <==> Nbr(u, w) in Neighbors(AdjacencyOf(edges), v)
  {
    AdjacencyOfEdges(edges, u, Nbr(v, w));
    AdjacencyOfEdges(edges, v, Nbr(u, w));
    if exists i :: 0 <= i < |edges| && EdgeOffers(edges[i], u, Nbr(v, w)) {
      var i :| 0 <= i < |edges| && EdgeOffers(edges[i], u, Nbr(v, w));
      assert EdgeOffers(edges[i], v, Nbr(u, w));
    }
    if exists i :: 0 <= i < |edges| && EdgeOffers(edges[i], v, Nbr(u, w)) {
      var i :| 0 <= i < |edges| && EdgeOffers(edges[i], v, Nbr(u, w));
      assert EdgeOffers(edges[i], u, Nbr(v, w));
    }
  }

  method BuildAdjacency(edges: seq<NetEdge>) returns (adj: Adj)
    ensures adj == AdjacencyOf(edges)
  {
    adj := map[];
    for i := 0 to |edges|
      invariant adj == AdjacencyOf(edges[..i])
    {
      var e := edges[i];
      assert edges[..i + 1][..i] == edges[..i];
      adj := adj[e.source := Neighbors(adj, e.source) + [Nbr(e.target, e.lengthM)]];
      adj := adj[e.target := Neighbors(adj, e.target) + [Nbr(e.source, e.lengthM)]];
    }
    assert edges[..|edges|] == edges;
  }

  // ---------------------------------------------------------------------------------------------
  // Track lookup

  /**
   * A track record of the tracks file: the two node ids and the coordinates as [lon, lat] pairs
   * (x = longitude, y = latitude).
   */
  datatype TrackRec = TrackRec(source: string, target: string, coordinates: seq<Point>)

  /** The lookup key "a|b", as an ordered pair (node ids never contain '|'). */
  datatype Key = Key(a: string, b: string)

  predicate TrackJoins(t: TrackRec, a: string, b: string) {
    (t.source == a && t.target == b) || (t.source == b && t.target == a)
  }

  /** build_track_lookup: each track stored under "source|target" and under "target|source". */
  function TrackLookupOf(tracks: seq<TrackRec>): map<Key, TrackRec> {
    if |tracks| == 0 then map[]
    else
      var t := tracks[|tracks| - 1];
      TrackLookupOf(tracks[..|tracks| - 1])[Key(t.source, t.target) := t][Key(t.target, t.source) := t]
  }

  /**
   * "a|b" is present exactly when some track joins a and b, in either orientation; it then holds
   * the last such track, and "b|a" holds the same one.
   */
  lemma {:induction false} TrackLookupLast(tracks: seq<TrackRec>, a: string, b: string)
    ensures Key(a, b) in TrackLookupOf(tracks) <==> exists i :: 0 <= i < |tracks| && TrackJoins(tracks[i], a, b)
    ensures Key(a, b) in TrackLookupOf(tracks) ==>
      exists i :: 0 <= i < |tracks| && TrackJoins(tracks[i], a, b) && TrackLookupOf(tracks)[Key(a, b)] == tracks[i]
        && forall j :: i < j < |tracks| ==> !TrackJoins(tracks[j], a, b)
    decreases |tracks|
  {
    if |tracks| > 0 {
      var front := tracks[..|tracks| - 1];
      var n := |tracks| - 1;
      TrackLookupLast(front, a, b);
      if TrackJoins(tracks[n], a, b) {
        assert TrackLookupOf(tracks)[Key(a, b)] == tracks[n];
      } else {
        assert Key(a, b) != Key(tracks[n].source, tracks[n].target);
        assert Key(a, b) != Key(tracks[n].target, tracks[n].source);
        assert Key(a, b) in TrackLookupOf(tracks) <==> Key(a, b) in TrackLookupOf(front);
        if Key(a, b) in TrackLookupOf(front) {
          assert TrackLookupOf(tracks)[Key(a, b)] == TrackLookupOf(front)[Key(a, b)];
          var i :| 0 <= i < |front| && TrackJoins(front[i], a, b) && TrackLookupOf(front)[Key(a, b)] == front[i]
            && forall j :: i < j < |front| ==> !TrackJoins(front[j], a, b);
          assert tracks[i] == front[i];
          assert forall j :: i < j < |tracks| ==> !TrackJoins(tracks[j], a, b) by {
            forall j | i < j < |tracks|
              ensures !TrackJoins(tracks[j], a, b)
            {
              if j < n { assert tracks[j] == front[j]; }
            }
          }
        }
        if exists i :: 0 <= i < |tracks| && TrackJoins(tracks[i], a, b) {
          var i :| 0 <= i < |tracks| && TrackJoins(tracks[i], a, b);
          assert TrackJoins(front[i], a, b);
        }
      }
    }
  }

  /** The lookup gives the same track for both orientations of a node pair. */
  lemma {:induction false} TrackLookupSymmetric(tracks: seq<TrackRec>, a: string, b: string)
    ensures Key(a, b) in TrackLookupOf(tracks) <==> Key(b, a) in TrackLookupOf(tracks)
    ensures Key(a, b) in TrackLookupOf(tracks) ==> TrackLookupOf(tracks)[Key(a, b)] == TrackLookupOf(tracks)[Key(b, a)]
  {
    TrackLookupLast(tracks, a, b);
    TrackLookupLast(tracks, b, a);
    if Key(a, b) in TrackLookupOf(tracks) {
      var i :| 0 <= i < |tracks| && TrackJoins(tracks[i], a, b) && TrackLookupOf(tracks)[Key(a, b)] == tracks[i]
        && forall j :: i < j < |tracks| ==> !TrackJoins(tracks[j], a, b);
      var i' :| 0 <= i' < |tracks| && TrackJoins(tracks[i'], b, a) && TrackLookupOf(tracks)[Key(b, a)] == tracks[i']
        && forall j :: i' < j < |tracks| ==> !TrackJoins(tracks[j], b, a);
      assert TrackJoins(tracks[i], b, a);
      assert TrackJoins(tracks[i'], a, b);
    }
  }

  method BuildTrackLookup(tracks: seq<TrackRec>) returns (lookup: map<Key, TrackRec>)
    ensures lookup == TrackLookupOf(tracks)
  {
    lookup := map[];
    for i := 0 to |tracks|
      invariant lookup == TrackLookupOf(tracks[..i])
    {
      var t := tracks[i];
      assert tracks[..i + 1][..i] == tracks[..i];
      lookup := lookup[Key(t.source, t.target) := t];
      lookup := lookup[Key(t.target, t.source) := t];
    }
    assert tracks[..|tracks|] == tracks;
  }
}
