/**
 * scripts/calculate_railway_distances.py: the railway distance of each connected settlement pair,
 * taken along their common edge, as zero at a common snap node, or along a routed path, and
 * written back into every connection of the pair in both directions.
 */
module Distances {
  import opened Wrappers
  import opened Geometry
  import opened Ordering
  import opened Snapper
  import opened Routing
  import opened EdgeGeometry

  // ---------------------------------------------------------------------------------------------
  // Same edge and edge offsets

  function NodeSet(nodes: seq<string>): set<string> {
    set n | n in nodes
  }

  lemma {:induction false} NodeSetEqual(a: seq<string>, b: seq<string>)
    ensures NodeSet(a) == NodeSet(b) <==> forall n :: n in a <==> n in b
  {
    if forall n :: n in a <==> n in b {
      assert forall n :: n in NodeSet(a) <==> n in NodeSet(b);
    }
    if NodeSet(a) == NodeSet(b) {
      forall n ensures n in a <==> n in b {
        assert n in a <==> n in NodeSet(a);
        assert n in b <==> n in NodeSet(b);
      }
    }
  }

  /** are_on_same_edge: both snapped to an edge, naming the same set of nodes. */
  function AreOnSameEdge(m1: Mapping, m2: Mapping): (r: bool)
    ensures r <==> m1.snapType == EdgeType && m2.snapType == EdgeType
                   && forall n :: n in m1.snapNodes <==> n in m2.snapNodes
  {
    NodeSetEqual(m1.snapNodes, m2.snapNodes);
    m1.snapType == EdgeType && m2.snapType == EdgeType && NodeSet(m1.snapNodes) == NodeSet(m2.snapNodes)
  }

  /**
   * For edge snaps with two snap nodes the set comparison here agrees with the two-node list
   * comparison of the route verifier.
   */
  lemma {:induction false} SameEdgeAgrees(m1: Mapping, m2: Mapping)
    requires m1.snapType == EdgeType && m2.snapType == EdgeType
    requires |m1.snapNodes| == 2 && |m2.snapNodes| == 2
    ensures AreOnSameEdge(m1, m2) <==> IsSameEdge(m1.snapNodes, m2.snapNodes)
  {
    var a, b, c, d := m1.snapNodes[0], m1.snapNodes[1], m2.snapNodes[0], m2.snapNodes[1];
    assert m1.snapNodes == [a, b] && m2.snapNodes == [c, d];
    if AreOnSameEdge(m1, m2) {
      assert a in m2.snapNodes && b in m2.snapNodes && c in m1.snapNodes && d in m1.snapNodes;
      SameEdgeMultiset(m1.snapNodes, m2.snapNodes);
    } else if IsSameEdge(m1.snapNodes, m2.snapNodes) {
      SameEdgeMultiset(m1.snapNodes, m2.snapNodes);
      assert forall n :: n in m1.snapNodes <==> n in m2.snapNodes;
    }
  }

  /** calculate_same_edge_distance: |t2 - t1| times the first mapping's edge length. */
  function SameEdgeDistance(m1: Mapping, m2: Mapping): (r: Option<real>)
    ensures r.None? <==> m1.edgeT.None? || m2.edgeT.None? || m1.edgeLengthKm.None?
  {
    if m1.edgeT.None? || m2.edgeT.None? || m1.edgeLengthKm.None? then None
    else Some(Gap(m1.edgeT.value, m2.edgeT.value, m1.edgeLengthKm.value))
  }

  predicate OnEdge(m: Mapping) {
    m.edgeT.Some? && 0.0 <= m.edgeT.value <= 1.0 && m.edgeLengthKm.Some? && m.edgeLengthKm.value >= 0.0
  }

  lemma {:induction false} ScaleAtMost(a: real, len: real)
    requires 0.0 <= a <= 1.0 && len >= 0.0
    ensures 0.0 <= a * len <= len
  {
    assert len - a * len == (1.0 - a) * len;
  }

  /** The length of the stretch of an edge of the given length between fractions t1 and t2. */
  function Gap(t1: real, t2: real, lengthKm: real): real {
    Abs(t2 - t1) * lengthKm
  }

  lemma {:induction false} GapBounds(t1: real, t2: real, lengthKm: real)
    requires 0.0 <= t1 <= 1.0 && 0.0 <= t2 <= 1.0 && lengthKm >= 0.0
    ensures 0.0 <= Gap(t1, t2, lengthKm) <= lengthKm
    ensures Gap(t1, t2, lengthKm) == Gap(t2, t1, lengthKm)
  {
    var a := Abs(t2 - t1);
    assert a == Abs(t1 - t2);
    ScaleAtMost(a, lengthKm);
    assert Gap(t1, t2, lengthKm) == a * lengthKm;
  }

  /**
   * For two positions on one edge the distance lies between zero and the edge length, and it
   * does not depend on which settlement comes first when both carry the edge's length.
   */
  lemma {:induction false} SameEdgeDistanceBounds(m1: Mapping, m2: Mapping)
    requires OnEdge(m1) && OnEdge(m2)
    ensures SameEdgeDistance(m1, m2).Some?
    ensures 0.0 <= SameEdgeDistance(m1, m2).value <= m1.edgeLengthKm.value
    ensures m1.edgeLengthKm == m2.edgeLengthKm ==> SameEdgeDistance(m1, m2) == SameEdgeDistance(m2, m1)
  {
    GapBounds(m1.edgeT.value, m2.edgeT.value, m1.edgeLengthKm.value);
  }

  /** Which node an edge offset is measured from. */
  datatype OffsetFrom = FromNode | FromStart

  /**
   * get_edge_offset: zero for a node snap or a missing t; otherwise t times the edge length,
   * measured from the first snap node. An edge snap with t and no length stops the script.
   */
  function EdgeOffset(m: Mapping): (r: (real, OffsetFrom))
    requires m.snapType == EdgeType && m.edgeT.Some? ==> m.edgeLengthKm.Some?
    ensures r.1 == FromNode <==> m.snapType != EdgeType || m.edgeT.None?
    ensures r.1 == FromNode ==> r.0 == 0.0
  {
    if m.snapType != EdgeType || m.edgeT.None? then (0.0, FromNode)
    else (m.edgeT.value * m.edgeLengthKm.value, FromStart)
  }

  /**
   * Offsets lie on the edge, and for two edge snaps on the same edge in the same orientation
   * the same-edge distance is the gap between their offsets.
   */
  lemma {:induction false} OffsetsGiveSameEdgeDistance(m1: Mapping, m2: Mapping)
    requires m1.snapType == EdgeType && m2.snapType == EdgeType && OnEdge(m1) && OnEdge(m2)
    requires m1.edgeLengthKm == m2.edgeLengthKm
    ensures 0.0 <= EdgeOffset(m1).0 <= m1.edgeLengthKm.value
    ensures SameEdgeDistance(m1, m2) == Some(Abs(EdgeOffset(m2).0 - EdgeOffset(m1).0))
  {
    var t1, t2, len := m1.edgeT.value, m2.edgeT.value, m1.edgeLengthKm.value;
    assert EdgeOffset(m1).0 == t1 * len && EdgeOffset(m2).0 == t2 * len;
    assert SameEdgeDistance(m1, m2).value == Gap(t1, t2, len) == Abs(t2 - t1) * len;
    ScaleAtMost(t1, len);
    assert t2 * len - t1 * len == (t2 - t1) * len;
    if t2 - t1 < 0.0 {
      assert (t1 - t2) * len == -((t2 - t1) * len);
    }
    assert Abs(t2 * len - t1 * len) == Abs(t2 - t1) * len;
  }

  // ---------------------------------------------------------------------------------------------
  // The routing graph and route lengths

  /**
   * load_network_graph: an undirected simple graph weighted by length_m; a later edge between
   * the same two nodes replaces an earlier one.
   */
  function GraphOf(edges: seq<NetEdge>): map<Key, real> {
    if |edges| == 0 then map[]
    else
      var e := edges[|edges| - 1];
      GraphOf(edges[..|edges| - 1])[Key(e.source, e.target) := e.lengthM][Key(e.target, e.source) := e.lengthM]
  }

  /** The graph is undirected: both orientations of a node pair carry the same weight. */
  lemma {:induction false} GraphSymmetric(edges: seq<NetEdge>, a: string, b: string)
    ensures Key(a, b) in GraphOf(edges) <==> Key(b, a) in GraphOf(edges)
    ensures Key(a, b) in GraphOf(edges) ==> GraphOf(edges)[Key(a, b)] == GraphOf(edges)[Key(b, a)]
    decreases |edges|
  {
    if |edges| > 0 {
      GraphSymmetric(edges[..|edges| - 1], a, b);
    }
  }

  predicate Hops(g: map<Key, real>, path: seq<string>) {
    forall i :: 0 <= i < |path| - 1 ==> Key(path[i], path[i + 1]) in g
  }

  /** A route from a to b in the graph. */
  predicate RouteIn(g: map<Key, real>, path: seq<string>, a: string, b: string) {
    |path| > 0 && path[0] == a && Last(path) == b && Hops(g, path)
  }

  /** The summed weight (metres) of the edges along a path. */
  function RouteLengthM(g: map<Key, real>, path: seq<string>): real
    requires Hops(g, path)
    decreases |path|
  {
    if |path| < 2 then 0.0
    else
      assert Hops(g, path[..|path| - 1]);
      RouteLengthM(g, path[..|path| - 1]) + g[Key(path[|path| - 2], path[|path| - 1])]
  }

  /** Route lengths add up along a path split at any of its nodes. */
  lemma {:induction false} RouteLengthSplit(g: map<Key, real>, path: seq<string>, k: nat)
    requires Hops(g, path) && k < |path|
    ensures Hops(g, path[..k + 1]) && Hops(g, path[k..])
    ensures RouteLengthM(g, path) == RouteLengthM(g, path[..k + 1]) + RouteLengthM(g, path[k..])
    decreases |path|
  {
    assert Hops(g, path[..k + 1]);
    assert Hops(g, path[k..]) by {
      forall i | 0 <= i < |path[k..]| - 1
        ensures Key(path[k..][i], path[k..][i + 1]) in g
      {
        assert path[k..][i] == path[k + i] && path[k..][i + 1] == path[k + i + 1];
      }
    }
    if k < |path| - 1 {
      var front := path[..|path| - 1];
      assert Hops(g, front);
      RouteLengthSplit(g, front, k);
      assert front[..k + 1] == path[..k + 1];
      assert front[k..] == path[k..][..|path[k..]| - 1];
    } else {
      assert path[..k + 1] == path;
    }
  }

  /** With non-negative weights a route's length is non-negative. */
  lemma {:induction false} RouteLengthNonNegative(g: map<Key, real>, path: seq<string>)
    requires Hops(g, path) && forall k :: k in g ==> g[k] >= 0.0
    ensures RouteLengthM(g, path) >= 0.0
    decreases |path|
  {
    if |path| >= 2 {
      assert Hops(g, path[..|path| - 1]);
      RouteLengthNonNegative(g, path[..|path| - 1]);
    }
  }

  /** The routing oracle (networkx's Dijkstra) gives a route in the graph or nothing. */
  ghost predicate Sound(g: map<Key, real>, route: (string, string) -> Option<seq<string>>) {
    forall a, b :: route(a, b).Some? ==> RouteIn(g, route(a, b).value, a, b)
  }

  /**
   * calculate_railway_distance: the route's summed weight in kilometres together with the route,
   * or nothing when there is no path.
   */
  method CalculateRailwayDistance(g: map<Key, real>, node1: string, node2: string,
                                  route: (string, string) -> Option<seq<string>>)
    returns (km: Option<real>, path: Option<seq<string>>)
    requires Sound(g, route)
    ensures path == route(node1, node2)
    ensures km.None? <==> path.None?
    ensures path.Some? ==> RouteIn(g, path.value, node1, node2) && km.value == RouteLengthM(g, path.value) / 1000.0
  {
    path := route(node1, node2);
    if path.None? {
      return None, None;
    }
    var p := path.value;
    var totalM := 0.0;
    for i := 0 to |p| - 1
      invariant Hops(g, p[..i + 1]) && totalM == RouteLengthM(g, p[..i + 1])
    {
      assert p[..i + 2][..i + 1] == p[..i + 1];
      assert Hops(g, p[..i + 2]);
      totalM := totalM + g[Key(p[i], p[i + 1])];
    }
    assert p[..|p|] == p;
    km := Some(totalM / 1000.0);
  }

  // ---------------------------------------------------------------------------------------------
  // Pair processing

  /** The pair key tuple(sorted([a, b])). */
  datatype Pair = Pair(first: string, second: string)

  function PairKey(a: string, b: string): (k: Pair)
    ensures (k == Pair(a, b) || k == Pair(b, a)) && StrLe(k.first, k.second)
  {
    StrLeTotal(a, b);
    if StrLe(a, b) then Pair(a, b) else Pair(b, a)
  }

  /** Both orientations of a connection have the same key. */
  lemma {:induction false} PairKeySymmetric(a: string, b: string)
    ensures PairKey(a, b) == PairKey(b, a)
  {
    if StrLe(a, b) && StrLe(b, a) {
      StrLeAntisymmetric(a, b);
    }
  }

  /** The railway_distance_km field of a connection: absent, or written (a number or null). */
  datatype RailwayField = Absent | Written(km: Option<real>)

  datatype Conn = Conn(to: string, distanceKm: real, railwayKm: RailwayField)

  /** One settlement's connection list in the connections file. */
  datatype Entry = Entry(settlement: string, conns: seq<Conn>)

  datatype Stats = Stats(totalPairs: nat, calculated: nat, sameEdge: nat, noPath: nat, noMapping: nat, sameNode: nat)

  datatype PairState = PairState(processed: set<Pair>, distances: map<Pair, Option<real>>, stats: Stats)

  const Start: PairState := PairState({}, map[], Stats(0, 0, 0, 0, 0, 0))

  /** What main decides for a new pair, in its order of checks. */
  datatype Decision = NoMappingFor | SameEdgeKm(km: real) | SameNodeZero | Routed(km: real) | Unrouted

  function Decide(m1: Mapping, other: string, mappings: map<string, Mapping>, g: map<Key, real>,
                  route: (string, string) -> Option<seq<string>>): (d: Decision)
    requires Sound(g, route)
    ensures d.NoMappingFor? <==> other !in mappings
    ensures d.SameEdgeKm? ==> AreOnSameEdge(m1, mappings[other]) && SameEdgeDistance(m1, mappings[other]) == Some(d.km)
    ensures d.SameNodeZero? ==> m1.snapNode == mappings[other].snapNode
    ensures (d.Routed? || d.Unrouted?) ==> m1.snapNode != mappings[other].snapNode
    ensures d.Unrouted? ==> route(m1.snapNode, mappings[other].snapNode).None?
    ensures other in mappings ==>
      var m2 := mappings[other];
      var sameEdge := AreOnSameEdge(m1, m2) && SameEdgeDistance(m1, m2).Some?;
      && (sameEdge ==> d.SameEdgeKm?)
      && (!sameEdge && m1.snapNode == m2.snapNode ==> d.SameNodeZero?)
      && (!sameEdge && m1.snapNode != m2.snapNode ==>
            match route(m1.snapNode, m2.snapNode)
            case None => d.Unrouted?
            case Some(p) => d.Routed? && RouteIn(g, p, m1.snapNode, m2.snapNode) && d.km * 1000.0 == RouteLengthM(g, p))
  {
    if other !in mappings then NoMappingFor
    else
      var m2 := mappings[other];
      var same := SameEdgeDistance(m1, m2);
      if AreOnSameEdge(m1, m2) && same.Some? then SameEdgeKm(same.value)
      else if m1.snapNode == m2.snapNode then SameNodeZero
      else
        match route(m1.snapNode, m2.snapNode)
        case None => Unrouted
        case Some(p) => Routed(RouteLengthM(g, p) / 1000.0)
  }

  /** The value stored in pair_distances for a decision. */
  function DecisionKm(d: Decision): Option<real> {
    match d
    case NoMappingFor => None
    case SameEdgeKm(km) => Some(km)
    case SameNodeZero => Some(0.0)
    case Routed(km) => Some(km)
    case Unrouted => None
  }

  /** The counters a decision increments; a same-edge distance also counts as calculated. */
  function Count(s: Stats, d: Decision): Stats {
    match d
    case NoMappingFor => s.(noMapping := s.noMapping + 1)
    case SameEdgeKm(_) => s.(sameEdge := s.sameEdge + 1, calculated := s.calculated + 1)
    case SameNodeZero => s.(sameNode := s.sameNode + 1)
    case Routed(_) => s.(calculated := s.calculated + 1)
    case Unrouted => s.(noPath := s.noPath + 1)
  }

  /** One connection of a mapped settlement: counted, and decided unless its pair was seen. */
  function Step(s: PairState, name: string, m1: Mapping, c: Conn, mappings: map<string, Mapping>, g: map<Key, real>,
                route: (string, string) -> Option<seq<string>>): PairState
    requires Sound(g, route)
  {
    var counted := s.stats.(totalPairs := s.stats.totalPairs + 1);
    var key := PairKey(name, c.to);
    if key in s.processed then s.(stats := counted)
    else
      var d := Decide(m1, c.to, mappings, g, route);
      PairState(s.processed + {key}, s.distances[key := DecisionKm(d)], Count(counted, d))
  }

  function RunConns(s: PairState, name: string, m1: Mapping, conns: seq<Conn>, mappings: map<string, Mapping>,
                    g: map<Key, real>, route: (string, string) -> Option<seq<string>>): PairState
    requires Sound(g, route)
    decreases |conns|
  {
    if |conns| == 0 then s
    else Step(RunConns(s, name, m1, conns[..|conns| - 1], mappings, g, route), name, m1, conns[|conns| - 1], mappings, g, route)
  }

  /** The outer loop of main: settlements without a mapping are skipped whole. */
  function RunEntries(s: PairState, entries: seq<Entry>, mappings: map<string, Mapping>, g: map<Key, real>,
                      route: (string, string) -> Option<seq<string>>): PairState
    requires Sound(g, route)
    decreases |entries|
  {
    if |entries| == 0 then s
    else
      var before := RunEntries(s, entries[..|entries| - 1], mappings, g, route);
      var e := entries[|entries| - 1];
      if e.settlement in mappings then RunConns(before, e.settlement, mappings[e.settlement], e.conns, mappings, g, route)
      else before
  }

  /**
   * The bookkeeping main keeps: one stored distance per processed pair; every processed pair in
   * exactly one of calculated, no_path, no_mapping and same_node; same_edge within calculated.
   */
  predicate Consistent(s: PairState) {
    && s.distances.Keys == s.processed
    && s.stats.sameEdge <= s.stats.calculated
    && s.stats.calculated + s.stats.noPath + s.stats.noMapping + s.stats.sameNode == |s.processed|
    && |s.processed| <= s.stats.totalPairs
  }

  /** A stored pair distance is never changed afterwards. */
  predicate Keeps(s: PairState, t: PairState) {
    forall k :: k in s.distances ==> k in t.distances && t.distances[k] == s.distances[k]
  }

  lemma {:induction false} StepConsistent(s: PairState, name: string, m1: Mapping, c: Conn, mappings: map<string, Mapping>,
                       g: map<Key, real>, route: (string, string) -> Option<seq<string>>)
    requires Sound(g, route) && Consistent(s)
    ensures var t := Step(s, name, m1, c, mappings, g, route);
      Consistent(t) && Keeps(s, t) && PairKey(name, c.to) in t.processed
  {
    var key := PairKey(name, c.to);
    if key !in s.processed {
      assert |s.processed + {key}| == |s.processed| + 1;
    }
  }

  lemma {:induction false} RunConnsConsistent(s: PairState, name: string, m1: Mapping, conns: seq<Conn>,
                                             mappings: map<string, Mapping>, g: map<Key, real>,
                                             route: (string, string) -> Option<seq<string>>)
    requires Sound(g, route) && Consistent(s)
    ensures var t := RunConns(s, name, m1, conns, mappings, g, route);
      Consistent(t) && Keeps(s, t) && forall c :: c in conns ==> PairKey(name, c.to) in t.processed
    decreases |conns|
  {
    if |conns| > 0 {
      var front := conns[..|conns| - 1];
      RunConnsConsistent(s, name, m1, front, mappings, g, route);
      var mid := RunConns(s, name, m1, front, mappings, g, route);
      StepConsistent(mid, name, m1, conns[|conns| - 1], mappings, g, route);
      assert forall c :: c in conns ==> c in front || c == conns[|conns| - 1];
    }
  }

  /**
   * After the pass every connection of a mapped settlement has its pair processed, the
   * bookkeeping is consistent, and no distance stored before the pass is changed.
   */
  lemma {:induction false} RunEntriesConsistent(s: PairState, entries: seq<Entry>, mappings: map<string, Mapping>,
                                               g: map<Key, real>, route: (string, string) -> Option<seq<string>>)
    requires Sound(g, route) && Consistent(s)
    ensures var t := RunEntries(s, entries, mappings, g, route);
      && Consistent(t) && Keeps(s, t)
      && forall i, c :: 0 <= i < |entries| && entries[i].settlement in mappings && c in entries[i].conns ==>
           PairKey(entries[i].settlement, c.to) in t.processed
    decreases |entries|
  {
    if |entries| > 0 {
      var front := entries[..|entries| - 1];
      var e := entries[|entries| - 1];
      RunEntriesConsistent(s, front, mappings, g, route);
      var mid := RunEntries(s, front, mappings, g, route);
      var t := RunEntries(s, entries, mappings, g, route);
      if e.settlement in mappings {
        RunConnsConsistent(mid, e.settlement, mappings[e.settlement], e.conns, mappings, g, route);
      }
      forall i, c | 0 <= i < |entries| && entries[i].settlement in mappings && c in entries[i].conns
        ensures PairKey(entries[i].settlement, c.to) in t.processed
      {
        if i < |front| {
          assert entries[i] == front[i];
        }
      }
    }
  }

  /** One iteration of the inner loop of main, as written there. */
  method ProcessConnection(s: PairState, name: string, m1: Mapping, c: Conn, mappings: map<string, Mapping>,
                           g: map<Key, real>, route: (string, string) -> Option<seq<string>>)
    returns (t: PairState)
    requires Sound(g, route)
    ensures t == Step(s, name, m1, c, mappings, g, route)
  {
    var stats := s.stats.(totalPairs := s.stats.totalPairs + 1);
    var key := PairKey(name, c.to);
    if key in s.processed {
      return s.(stats := stats);
    }
    var processed := s.processed + {key};
    if c.to !in mappings {
      return PairState(processed, s.distances[key := None], stats.(noMapping := stats.noMapping + 1));
    }
    var m2 := mappings[c.to];
    if AreOnSameEdge(m1, m2) {
      var railDist := SameEdgeDistance(m1, m2);
      if railDist.Some? {
        stats := stats.(sameEdge := stats.sameEdge + 1, calculated := stats.calculated + 1);
        return PairState(processed, s.distances[key := railDist], stats);
      }
    }
    if m1.snapNode == m2.snapNode {
      return PairState(processed, s.distances[key := Some(0.0)], stats.(sameNode := stats.sameNode + 1));
    }
    var railDist, _ := CalculateRailwayDistance(g, m1.snapNode, m2.snapNode, route);
    if railDist.Some? {
      return PairState(processed, s.distances[key := railDist], stats.(calculated := stats.calculated + 1));
    }
    return PairState(processed, s.distances[key := None], stats.(noPath := stats.noPath + 1));
  }

  /** The pair loop of main. */
  method ProcessPairs(entries: seq<Entry>, mappings: map<string, Mapping>, g: map<Key, real>,
                      route: (string, string) -> Option<seq<string>>) returns (s: PairState)
    requires Sound(g, route)
    ensures s == RunEntries(Start, entries, mappings, g, route)
  {
    s := Start;
    for i := 0 to |entries|
      invariant s == RunEntries(Start, entries[..i], mappings, g, route)
    {
      assert entries[..i + 1][..i] == entries[..i];
      var e := entries[i];
      if e.settlement in mappings {
        var m1 := mappings[e.settlement];
        ghost var before := s;
        for j := 0 to |e.conns|
          invariant s == RunConns(before, e.settlement, m1, e.conns[..j], mappings, g, route)
        {
          assert e.conns[..j + 1][..j] == e.conns[..j];
          s := ProcessConnection(s, e.settlement, m1, e.conns[j], mappings, g, route);
        }
        assert e.conns[..|e.conns|] == e.conns;
      }
    }
    assert entries[..|entries|] == entries;
  }

  // ---------------------------------------------------------------------------------------------
  // Write-back

  /** A connection receives its pair's distance when the pair was processed, and is untouched otherwise. */
  function Applied(name: string, c: Conn, distances: map<Pair, Option<real>>): (r: Conn)
    ensures r.to == c.to && r.distanceKm == c.distanceKm
  {
    var key := PairKey(name, c.to);
    if key in distances then c.(railwayKm := Written(distances[key])) else c
  }

  function AppliedConns(name: string, conns: seq<Conn>, distances: map<Pair, Option<real>>): (r: seq<Conn>)
    ensures |r| == |conns| && forall k :: 0 <= k < |conns| ==> r[k] == Applied(name, conns[k], distances)
  {
    seq(|conns|, k requires 0 <= k < |conns| => Applied(name, conns[k], distances))
  }

  /**
   * Both directions of a connection end with the same value: when A lists B and B lists A and
   * their pair was processed, both carry the pair's distance; when it was not, both are left as
   * they were.
   */
  lemma {:induction false} WriteBackSymmetric(a: string, ab: Conn, b: string, ba: Conn, distances: map<Pair, Option<real>>)
    requires ab.to == b && ba.to == a
    ensures PairKey(a, b) in distances ==>
      Applied(a, ab, distances).railwayKm == Applied(b, ba, distances).railwayKm == Written(distances[PairKey(a, b)])
    ensures PairKey(a, b) !in distances ==> Applied(a, ab, distances) == ab && Applied(b, ba, distances) == ba
  {
    PairKeySymmetric(a, b);
  }

  /** The write-back loop of main, rewriting each connection in place. */
  method ApplyDistances(entries: seq<Entry>, distances: map<Pair, Option<real>>) returns (r: seq<Entry>)
    ensures |r| == |entries|
    ensures forall i :: 0 <= i < |entries| ==>
      r[i] == Entry(entries[i].settlement, AppliedConns(entries[i].settlement, entries[i].conns, distances))
  {
    r := entries;
    for i := 0 to |entries|
      invariant |r| == |entries|
      invariant forall i' :: 0 <= i' < i ==>
        r[i'] == Entry(entries[i'].settlement, AppliedConns(entries[i'].settlement, entries[i'].conns, distances))
      invariant forall i' :: i <= i' < |entries| ==> r[i'] == entries[i']
    {
      var conns := ApplyToConns(entries[i].settlement, entries[i].conns, distances);
      r := r[i := Entry(entries[i].settlement, conns)];
    }
  }

  method ApplyToConns(name: string, conns: seq<Conn>, distances: map<Pair, Option<real>>) returns (r: seq<Conn>)
    ensures r == AppliedConns(name, conns, distances)
  {
    r := conns;
    for k := 0 to |conns|
      invariant |r| == |conns|
      invariant forall k' :: 0 <= k' < k ==> r[k'] == Applied(name, conns[k'], distances)
      invariant forall k' :: k <= k' < |conns| ==> r[k'] == conns[k']
    {
      var key := PairKey(name, conns[k].to);
      if key in distances {
        r := r[k := conns[k].(railwayKm := Written(distances[key]))];
      }
    }
  }
}
