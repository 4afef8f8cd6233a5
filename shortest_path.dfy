/**
 * find_path of scripts/verify_railway_routes.py: a lazy Dijkstra search over the adjacency lists
 * with a binary heap of (distance, node) pairs, a visited set, and the dist/prev dictionaries,
 * followed by walking prev back from the end node.
 *
 * The heap is a multiset of entries; heappop removes the least (distance, node) pair in Python's
 * tuple order, which is what PopLeast does (which copy of two equal pairs is removed does not
 * matter).
 */
module ShortestPath {
  import opened Wrappers
  import opened Geometry
  import opened Ordering
  import opened Routing

  // ---------------------------------------------------------------------------------------------
  // Walks and their weights

  /** Some entry of u's adjacency list leads to v. */
  predicate Adjacent(adj: Adj, u: string, v: string) {
    exists n :: n in Neighbors(adj, u) && n.node == v
  }

  /** A sequence of nodes in which each one is adjacent to the next. */
  predicate IsWalk(adj: Adj, q: seq<string>) {
    forall i :: 0 <= i < |q| - 1 ==> Adjacent(adj, q[i], q[i + 1])
  }

  predicate NonNegativeWeights(adj: Adj) {
    forall u, n :: u in adj && n in adj[u] ==> n.weight >= 0.0
  }

  /** The least weight among the entries of ns that lead to v; None when there is none. */
  function MinHop(ns: seq<Nbr>, v: string): Option<real>
    decreases |ns|
  {
    if |ns| == 0 then None
    else
      var rest := MinHop(ns[1..], v);
      if ns[0].node != v then rest
      else if rest.Some? && rest.value < ns[0].weight then rest
      else Some(ns[0].weight)
  }

  lemma {:induction false} MinHopIsLeast(ns: seq<Nbr>, v: string)
    ensures var r := MinHop(ns, v);
      && (r.Some? <==> exists n :: n in ns && n.node == v)
      && (r.Some? ==> Nbr(v, r.value) in ns)
      && (forall n :: n in ns && n.node == v ==> r.Some? && r.value <= n.weight)
    decreases |ns|
  {
    if |ns| > 0 {
      assert ns == [ns[0]] + ns[1..];
      MinHopIsLeast(ns[1..], v);
    }
  }

  /** The weight of the cheapest edge from u to v (0 when they are not adjacent). */
  function Hop(adj: Adj, u: string, v: string): real {
    match MinHop(Neighbors(adj, u), v)
    case Some(w) => w
    case None => 0.0
  }

  /** The weight of a walk, each step taken along its cheapest edge. */
  function PathWeight(adj: Adj, q: seq<string>): real
    decreases |q|
  {
    if |q| < 2 then 0.0 else Hop(adj, q[0], q[1]) + PathWeight(adj, q[1..])
  }

  lemma {:induction false} HopLeast(adj: Adj, u: string, n: Nbr)
    requires n in Neighbors(adj, u)
    ensures Adjacent(adj, u, n.node) && Hop(adj, u, n.node) <= n.weight
  {
    MinHopIsLeast(Neighbors(adj, u), n.node);
  }

  lemma {:induction false} HopAttained(adj: Adj, u: string, v: string)
    requires Adjacent(adj, u, v)
    ensures Nbr(v, Hop(adj, u, v)) in Neighbors(adj, u)
  {
    MinHopIsLeast(Neighbors(adj, u), v);
  }

  lemma {:induction false} HopNonNegative(adj: Adj, u: string, v: string)
    requires NonNegativeWeights(adj)
    ensures Hop(adj, u, v) >= 0.0
  {
    var r := MinHop(Neighbors(adj, u), v);
    MinHopIsLeast(Neighbors(adj, u), v);
    if r.Some? {
      assert Nbr(v, r.value) in adj[u];
    }
  }

  lemma {:induction false} PathWeightNonNegative(adj: Adj, q: seq<string>)
    requires NonNegativeWeights(adj)
    ensures PathWeight(adj, q) >= 0.0
    decreases |q|
  {
    if |q| >= 2 {
      HopNonNegative(adj, q[0], q[1]);
      PathWeightNonNegative(adj, q[1..]);
    }
  }

  /** A walk's weight is the weight of its part up to q[k] plus the weight of its part from q[k]. */
  lemma {:induction false} PathWeightSplit(adj: Adj, q: seq<string>, k: nat)
    requires k < |q|
    ensures PathWeight(adj, q) == PathWeight(adj, q[..k + 1]) + PathWeight(adj, q[k..])
    decreases k
  {
    if k > 0 {
      PathWeightSplit(adj, q[1..], k - 1);
      assert q[1..][..k] == q[..k + 1][1..];
      assert q[1..][k - 1..] == q[k..];
    } else {
      assert q[0..] == q;
    }
  }

  /** A walk from inside S to outside S has a step that leaves S. */
  lemma {:induction false} FirstExit(q: seq<string>, S: set<string>) returns (k: nat)
    requires |q| > 0 && q[0] in S && Last(q) !in S
    ensures k + 1 < |q| && q[k] in S && q[k + 1] !in S
    decreases |q|
  {
    if q[1] !in S {
      k := 0;
    } else {
      var k' := FirstExit(q[1..], S);
      k := k' + 1;
    }
  }

  /** Under non-negative weights a walk weighs at least its first hop from position k on. */
  lemma {:induction false} ExitCost(adj: Adj, q: seq<string>, k: nat)
    requires NonNegativeWeights(adj) && k + 1 < |q|
    ensures PathWeight(adj, q) >= PathWeight(adj, q[..k + 1]) + Hop(adj, q[k], q[k + 1])
  {
    PathWeightSplit(adj, q, k);
    assert q[k..][1..] == q[k + 1..];
    PathWeightNonNegative(adj, q[k + 1..]);
  }

  lemma {:induction false} WalkPrefix(adj: Adj, q: seq<string>, k: nat)
    requires IsWalk(adj, q) && k < |q|
    ensures IsWalk(adj, q[..k + 1]) && Last(q[..k + 1]) == q[k]
  {
    var p := q[..k + 1];
    forall i | 0 <= i < |p| - 1
      ensures Adjacent(adj, p[i], p[i + 1])
    {
      assert p[i] == q[i] && p[i + 1] == q[i + 1];
    }
  }

  // ---------------------------------------------------------------------------------------------
  // The heap

  datatype Entry = Entry(d: real, node: string)

  /** Python's order on (distance, node) tuples. */
  predicate EntryLe(a: Entry, b: Entry) {
    a.d < b.d || (a.d == b.d && StrLe(a.node, b.node))
  }

  lemma {:induction false} EntryLeTotal(a: Entry, b: Entry)
    ensures EntryLe(a, b) || EntryLe(b, a)
  {
    StrLeTotal(a.node, b.node);
  }

  lemma {:induction false} EntryLeTransitive(a: Entry, b: Entry, c: Entry)
    requires EntryLe(a, b) && EntryLe(b, c)
    ensures EntryLe(a, c)
  {
    if a.d == b.d && b.d == c.d {
      StrLeTransitive(a.node, b.node, c.node);
    }
  }

  predicate IsLeast(heap: multiset<Entry>, e: Entry) {
    e in heap && forall x :: x in heap ==> EntryLe(e, x)
  }

  lemma {:induction false} LeastExists(heap: multiset<Entry>)
    requires |heap| > 0
    ensures exists e :: IsLeast(heap, e)
    decreases |heap|
  {
    var x :| x in heap;
    var rest := heap - multiset{x};
    if |rest| == 0 {
      assert heap == rest + multiset{x};
      StrLeTotal(x.node, x.node);
      assert IsLeast(heap, x);
    } else {
      LeastExists(rest);
      var m :| IsLeast(rest, m);
      EntryLeTotal(x, m);
      if EntryLe(x, m) {
        forall y | y in heap
          ensures EntryLe(x, y)
        {
          if y != x {
            assert y in rest;
            EntryLeTransitive(x, m, y);
          } else {
            StrLeTotal(x.node, x.node);
          }
        }
        assert IsLeast(heap, x);
      } else {
        assert IsLeast(heap, m);
      }
    }
  }

  /** The least entry is unique: heappop's choice is determined by the heap's contents. */
  lemma {:induction false} LeastUnique(heap: multiset<Entry>, e: Entry, e': Entry)
    requires IsLeast(heap, e) && IsLeast(heap, e')
    ensures e == e'
  {
    assert EntryLe(e, e') && EntryLe(e', e);
    StrLeAntisymmetric(e.node, e'.node);
  }

  /** heapq.heappop. */
  method PopLeast(heap: multiset<Entry>) returns (e: Entry, rest: multiset<Entry>)
    requires |heap| > 0
    ensures IsLeast(heap, e) && rest == heap - multiset{e}
  {
    LeastExists(heap);
    e :| IsLeast(heap, e);
    rest := heap - multiset{e};
  }

  // ---------------------------------------------------------------------------------------------
  // The search state

  /** Every node the search can ever name: start and every node of an adjacency list. */
  function Universe(adj: Adj, start: string): set<string> {
    {start} + adj.Keys + set u, n | u in adj && n in adj[u] :: n.node
  }

  lemma {:induction false} NeighborInUniverse(adj: Adj, start: string, u: string, n: Nbr)
    requires n in Neighbors(adj, u)
    ensures n.node in Universe(adj, start)
  {
    assert u in adj;
  }

  /**
   * What holds between the loop's variables at every step. Besides the source's dist, prev,
   * visited and heap it mentions two ghost maps: via, the weight of the list entry through which
   * each node got its current distance, and rank, the step at which each visited node was visited.
   */
  ghost predicate Core(adj: Adj, start: string, universe: set<string>, dist: map<string, real>, prev: map<string, string>,
                       via: map<string, real>, visited: set<string>, rank: map<string, nat>, heap: multiset<Entry>)
  {
    && Rooted(start, universe, dist, prev, visited, rank)
    && PrevTree(adj, start, dist, prev, via, visited)
    && VisitOrder(prev, rank)
    && Frontier(universe, dist, visited, heap)
  }

  /** start is at distance 0 with no prev and is visited first; rank numbers the visited nodes. */
  ghost predicate Rooted(start: string, universe: set<string>, dist: map<string, real>, prev: map<string, string>,
                         visited: set<string>, rank: map<string, nat>)
  {
    && start in dist && dist[start] == 0.0 && start !in prev
    && visited <= dist.Keys && visited <= universe
    && (visited != {} ==> start in visited)
    && rank.Keys == visited
    && (forall v :: v in rank ==> rank[v] < |rank|)
  }

  /**
   * Every other node with a distance has a prev: a visited node whose list leads to it with the
   * weight via[v], and whose distance plus that weight is at most the node's.
   */
  ghost predicate PrevTree(adj: Adj, start: string, dist: map<string, real>, prev: map<string, string>,
                           via: map<string, real>, visited: set<string>)
  {
    && (forall v :: v in dist ==> v == start || v in prev)
    && (forall v {:trigger prev[v]} :: v in prev ==>
          && v in dist && v in via && prev[v] in visited && prev[v] in dist
          && Nbr(v, via[v]) in Neighbors(adj, prev[v]) && dist[prev[v]] + via[v] <= dist[v])
  }

  /** A visited node's prev was visited before it. */
  ghost predicate VisitOrder(prev: map<string, string>, rank: map<string, nat>) {
    forall v {:trigger prev[v]} :: v in prev && v in rank && prev[v] in rank ==> rank[prev[v]] < rank[v]
  }

  /** Every unvisited node with a distance is queued at that distance; no entry undercuts its node. */
  ghost predicate Frontier(universe: set<string>, dist: map<string, real>, visited: set<string>, heap: multiset<Entry>) {
    && (forall v :: v in dist && v !in visited ==> Entry(dist[v], v) in heap)
    && (forall e :: e in heap ==> e.node in dist && dist[e.node] <= e.d && e.node in universe)
  }

  /** The unvisited neighbours among the first k entries of x's list have been relaxed through x. */
  ghost predicate RelaxedUpTo(adj: Adj, dist: map<string, real>, visited: set<string>, x: string, k: nat) {
    x in dist &&
    forall i :: 0 <= i < k && i < |Neighbors(adj, x)| && Neighbors(adj, x)[i].node !in visited ==>
      Neighbors(adj, x)[i].node in dist && dist[Neighbors(adj, x)[i].node] <= dist[x] + Neighbors(adj, x)[i].weight
  }

  /** Every visited node except pending has relaxed its whole list. */
  ghost predicate Settled(adj: Adj, dist: map<string, real>, visited: set<string>, pending: Option<string>) {
    forall x :: x in visited && pending != Some(x) ==> RelaxedUpTo(adj, dist, visited, x, |Neighbors(adj, x)|)
  }

  /** With non-negative weights, a visited node's distance is at most the weight of any walk to it. */
  ghost predicate Optimal(adj: Adj, start: string, dist: map<string, real>, visited: set<string>) {
    NonNegativeWeights(adj) ==>
      forall q :: IsWalk(adj, q) && |q| > 0 && q[0] == start && Last(q) in visited && Last(q) in dist ==>
        dist[Last(q)] <= PathWeight(adj, q)
  }

  lemma {:induction false} SettledExit(adj: Adj, dist: map<string, real>, visited: set<string>, x: string, y: string)
    requires Settled(adj, dist, visited, None) && x in visited && y !in visited && Adjacent(adj, x, y)
    ensures y in dist && dist[y] <= dist[x] + Hop(adj, x, y)
  {
    HopAttained(adj, x, y);
    var i :| 0 <= i < |Neighbors(adj, x)| && Neighbors(adj, x)[i] == Nbr(y, Hop(adj, x, y));
    assert RelaxedUpTo(adj, dist, visited, x, |Neighbors(adj, x)|);
  }

  /**
   * The Dijkstra step: the node of the least heap entry, once visited, has a distance that no walk
   * from start undercuts.
   */
  lemma {:induction false} VisitOptimal(adj: Adj, start: string, universe: set<string>, dist: map<string, real>, visited: set<string>,
                     heap: multiset<Entry>, e: Entry)
    requires start in dist && dist[start] == 0.0 && visited <= dist.Keys && Frontier(universe, dist, visited, heap)
    requires Settled(adj, dist, visited, None) && Optimal(adj, start, dist, visited)
    requires IsLeast(heap, e) && e.node !in visited
    ensures e.node in dist && dist[e.node] == e.d
    ensures Optimal(adj, start, dist, visited + {e.node})
  {
    var u := e.node;
    assert Entry(dist[u], u) in heap;
    assert EntryLe(e, Entry(dist[u], u));
    if NonNegativeWeights(adj) {
      forall q | IsWalk(adj, q) && |q| > 0 && q[0] == start && Last(q) == u
        ensures dist[u] <= PathWeight(adj, q)
      {
        LeastUndercutsWalk(adj, start, universe, dist, visited, heap, e, q);
      }
    }
  }

  /** No walk from start to the node of the least entry weighs less than that entry. */
  lemma {:induction false} LeastUndercutsWalk(adj: Adj, start: string, universe: set<string>, dist: map<string, real>,
                           visited: set<string>, heap: multiset<Entry>, e: Entry, q: seq<string>)
    requires start in dist && dist[start] == 0.0 && visited <= dist.Keys && Frontier(universe, dist, visited, heap)
    requires Settled(adj, dist, visited, None) && Optimal(adj, start, dist, visited) && NonNegativeWeights(adj)
    requires IsLeast(heap, e) && e.node !in visited
    requires IsWalk(adj, q) && |q| > 0 && q[0] == start && Last(q) == e.node
    ensures e.d <= PathWeight(adj, q)
  {
    var y;
    if start in visited {
      y := ExitBound(adj, start, dist, visited, q);
    } else {
      y := start;
      PathWeightNonNegative(adj, q);
    }
    assert Entry(dist[y], y) in heap;
    EntryLeDistance(e, Entry(dist[y], y));
  }

  lemma {:induction false} EntryLeDistance(a: Entry, b: Entry)
    requires EntryLe(a, b)
    ensures a.d <= b.d
  {
  }

  /**
   * A walk from a visited start to an unvisited node leaves the visited set at some node y that
   * already has a distance no larger than the walk's weight.
   */
  lemma {:induction false} ExitBound(adj: Adj, start: string, dist: map<string, real>, visited: set<string>, q: seq<string>)
    returns (y: string)
    requires visited <= dist.Keys && Settled(adj, dist, visited, None) && Optimal(adj, start, dist, visited)
    requires NonNegativeWeights(adj) && start in visited
    requires IsWalk(adj, q) && |q| > 0 && q[0] == start && Last(q) !in visited
    ensures y in dist && y !in visited && dist[y] <= PathWeight(adj, q)
  {
    var k := FirstExit(q, visited);
    var x := q[k];
    y := q[k + 1];
    SettledExit(adj, dist, visited, x, y);
    WalkPrefix(adj, q, k);
    ExitCost(adj, q, k);
    assert dist[x] <= PathWeight(adj, q[..k + 1]);
  }

  /** Once the heap is empty and every visited node is settled, every walk from start stays visited. */
  lemma {:induction false} ClosedUnderWalks(adj: Adj, start: string, universe: set<string>, dist: map<string, real>, visited: set<string>,
                         q: seq<string>)
    requires start in dist && Frontier(universe, dist, visited, multiset{})
    requires Settled(adj, dist, visited, None)
    requires IsWalk(adj, q) && |q| > 0 && q[0] == start
    ensures Last(q) in visited
  {
    if start in visited && Last(q) !in visited {
      var k := FirstExit(q, visited);
      SettledExit(adj, dist, visited, q[k], q[k + 1]);
    }
  }

  // ---------------------------------------------------------------------------------------------
  // The search

  /** Visiting u leaves every other visited node settled. */
  lemma {:induction false} SettledGrow(adj: Adj, dist: map<string, real>, visited: set<string>, u: string)
    requires Settled(adj, dist, visited, None)
    ensures Settled(adj, dist, visited + {u}, Some(u))
  {
    forall x | x in visited + {u} && Some(u) != Some(x)
      ensures RelaxedUpTo(adj, dist, visited + {u}, x, |Neighbors(adj, x)|)
    {
      assert RelaxedUpTo(adj, dist, visited, x, |Neighbors(adj, x)|);
    }
  }

  lemma {:induction false} FewerUnvisited(universe: set<string>, visited: set<string>, u: string)
    requires u in universe && u !in visited
    ensures |universe - (visited + {u})| < |universe - visited|
  {
    assert universe - visited == (universe - (visited + {u})) + {u};
  }

  /** Popping an entry of an already visited node (the `continue` of the loop) keeps the state. */
  lemma {:induction false} DiscardKeeps(universe: set<string>, dist: map<string, real>, visited: set<string>, heap: multiset<Entry>, e: Entry)
    requires Frontier(universe, dist, visited, heap) && e in heap && e.node in visited
    ensures Frontier(universe, dist, visited, heap - multiset{e})
  {
    var rest := heap - multiset{e};
    forall v | v in dist && v !in visited
      ensures Entry(dist[v], v) in rest
    {
      assert Entry(dist[v], v) != e;
    }
  }

  /** Visiting the node of a popped entry keeps the state, with the node ranked last. */
  lemma {:induction false} VisitKeeps(adj: Adj, start: string, universe: set<string>, dist: map<string, real>, prev: map<string, string>,
                   via: map<string, real>, visited: set<string>, rank: map<string, nat>, heap: multiset<Entry>, e: Entry)
    requires Core(adj, start, universe, dist, prev, via, visited, rank, heap)
    requires e in heap && e.node !in visited
    ensures Core(adj, start, universe, dist, prev, via, visited + {e.node}, rank[e.node := |rank|], heap - multiset{e})
  {
    var u := e.node;
    VisitKeepsRooted(start, universe, dist, prev, visited, rank, u);
    VisitKeepsOrder(prev, visited, rank, u);
    VisitKeepsFrontier(universe, dist, visited, heap, e);
  }

  lemma {:induction false} VisitKeepsRooted(start: string, universe: set<string>, dist: map<string, real>, prev: map<string, string>,
                         visited: set<string>, rank: map<string, nat>, u: string)
    requires Rooted(start, universe, dist, prev, visited, rank)
    requires forall v {:trigger prev[v]} :: v in prev ==> prev[v] in visited
    requires u in dist && (u == start || u in prev) && u in universe && u !in visited
    ensures Rooted(start, universe, dist, prev, visited + {u}, rank[u := |rank|])
  {
    var rank' := rank[u := |rank|];
    assert |rank'| == |rank| + 1;
  }

  lemma {:induction false} VisitKeepsOrder(prev: map<string, string>, visited: set<string>, rank: map<string, nat>, u: string)
    requires VisitOrder(prev, rank) && rank.Keys == visited && u !in visited
    requires forall v :: v in rank ==> rank[v] < |rank|
    requires forall v {:trigger prev[v]} :: v in prev ==> prev[v] in visited
    ensures VisitOrder(prev, rank[u := |rank|])
  {
    var rank' := rank[u := |rank|];
    forall v | v in prev && v in rank' && prev[v] in rank'
      ensures rank'[prev[v]] < rank'[v]
    {
      assert prev[v] in visited;
    }
  }

  lemma {:induction false} VisitKeepsFrontier(universe: set<string>, dist: map<string, real>, visited: set<string>, heap: multiset<Entry>, e: Entry)
    requires Frontier(universe, dist, visited, heap) && e in heap
    ensures Frontier(universe, dist, visited + {e.node}, heap - multiset{e})
  {
    var rest := heap - multiset{e};
    forall v | v in dist && v !in visited + {e.node}
      ensures Entry(dist[v], v) in rest
    {
      assert Entry(dist[v], v) != e;
    }
  }

  /** Improving the distance of an unvisited neighbour of a visited node keeps the state. */
  lemma {:induction false} RelaxKeepsRooted(start: string, universe: set<string>, y: string, nd: real, dist: map<string, real>,
                         prev: map<string, string>, u: string, visited: set<string>, rank: map<string, nat>)
    requires Rooted(start, universe, dist, prev, visited, rank) && y !in visited
    requires visited != {} && y != start
    ensures Rooted(start, universe, dist[y := nd], prev[y := u], visited, rank)
  {
  }

  lemma {:induction false} RelaxKeepsOrder(prev: map<string, string>, y: string, u: string, rank: map<string, nat>)
    requires VisitOrder(prev, rank) && y !in rank
    ensures VisitOrder(prev[y := u], rank)
  {
  }

  lemma {:induction false} RelaxKeepsPrevTree(adj: Adj, start: string, u: string, n: Nbr, dist: map<string, real>,
                           prev: map<string, string>, via: map<string, real>, visited: set<string>)
    requires PrevTree(adj, start, dist, prev, via, visited) && u in visited && u in dist
    requires n in Neighbors(adj, u) && n.node !in visited
    requires n.node !in dist || dist[u] + n.weight < dist[n.node]
    ensures PrevTree(adj, start, dist[n.node := dist[u] + n.weight], prev[n.node := u], via[n.node := n.weight], visited)
  {
    var y, nd := n.node, dist[u] + n.weight;
    var dist', prev', via' := dist[y := nd], prev[y := u], via[y := n.weight];
    forall v | v in prev'
      ensures v in dist' && v in via' && prev'[v] in visited && prev'[v] in dist'
      ensures Nbr(v, via'[v]) in Neighbors(adj, prev'[v]) && dist'[prev'[v]] + via'[v] <= dist'[v]
    {
      if v != y {
        assert prev'[v] == prev[v] && prev[v] != y;
      }
    }
  }

  lemma {:induction false} RelaxKeepsFrontier(universe: set<string>, y: string, nd: real, dist: map<string, real>, visited: set<string>,
                           heap: multiset<Entry>)
    requires Frontier(universe, dist, visited, heap) && y in universe
    requires y !in dist || nd < dist[y]
    ensures Frontier(universe, dist[y := nd], visited, heap + multiset{Entry(nd, y)})
  {
    var dist', heap' := dist[y := nd], heap + multiset{Entry(nd, y)};
    forall v | v in dist' && v !in visited
      ensures Entry(dist'[v], v) in heap'
    {
      if v != y {
        assert Entry(dist[v], v) in heap;
      }
    }
    forall e | e in heap'
      ensures e.node in dist' && dist'[e.node] <= e.d && e.node in universe
    {
      if e != Entry(nd, y) {
        assert e in heap;
      }
    }
  }

  /**
   * Distances that only went down, with visited ones unchanged and entry j of u's list relaxed,
   * keep the other visited nodes settled and extend u's relaxed prefix by one.
   */
  lemma {:induction false} RelaxKeepsSettled(adj: Adj, u: string, j: nat, dist: map<string, real>, dist': map<string, real>,
                          visited: set<string>)
    requires Settled(adj, dist, visited, Some(u)) && RelaxedUpTo(adj, dist, visited, u, j)
    requires u in visited && j < |Neighbors(adj, u)|
    requires forall v :: v in dist ==> v in dist' && dist'[v] <= dist[v]
    requires forall v :: v in visited ==> dist'[v] == dist[v]
    requires var n := Neighbors(adj, u)[j]; n.node !in visited ==> n.node in dist' && dist'[n.node] <= dist[u] + n.weight
    ensures Settled(adj, dist', visited, Some(u)) && RelaxedUpTo(adj, dist', visited, u, j + 1)
  {
    forall x | x in visited && Some(u) != Some(x)
      ensures RelaxedUpTo(adj, dist', visited, x, |Neighbors(adj, x)|)
    {
      assert RelaxedUpTo(adj, dist, visited, x, |Neighbors(adj, x)|);
    }
  }

  /**
   * One pass of the inner for loop of find_path: the entry n of u's list lowers the distance of an
   * unvisited neighbour when it improves on it, records u as its prev and queues the new distance.
   */
  method RelaxEntry(adj: Adj, start: string, ghost universe: set<string>, u: string, n: Nbr,
                    dist0: map<string, real>, prev0: map<string, string>, ghost via0: map<string, real>,
                    visited: set<string>, ghost rank: map<string, nat>, heap0: multiset<Entry>)
    returns (dist: map<string, real>, prev: map<string, string>, ghost via: map<string, real>, heap: multiset<Entry>)
    requires Core(adj, start, universe, dist0, prev0, via0, visited, rank, heap0)
    requires u in visited && n in Neighbors(adj, u) && universe == Universe(adj, start)
    ensures Core(adj, start, universe, dist, prev, via, visited, rank, heap)
    ensures forall v :: v in dist0 ==> v in dist && dist[v] <= dist0[v]
    ensures forall v :: v in visited ==> dist[v] == dist0[v]
    ensures n.node !in visited ==> n.node in dist && dist[n.node] <= dist0[u] + n.weight
  {
    dist, prev, via, heap := dist0, prev0, via0, heap0;
    var neighbor, weight := n.node, n.weight;
    if neighbor !in visited {
      var newDist := dist[u] + weight;
      if neighbor !in dist || newDist < dist[neighbor] {
        NeighborInUniverse(adj, start, u, n);
        RelaxKeepsRooted(start, universe, neighbor, newDist, dist, prev, u, visited, rank);
        RelaxKeepsPrevTree(adj, start, u, n, dist, prev, via, visited);
        RelaxKeepsOrder(prev, neighbor, u, rank);
        RelaxKeepsFrontier(universe, neighbor, newDist, dist, visited, heap);
        dist := dist[neighbor := newDist];
        prev := prev[neighbor := u];
        via := via[neighbor := weight];
        heap := heap + multiset{Entry(newDist, neighbor)};
      }
    }
  }

  /** The inner for loop of find_path: relax every unvisited neighbour of the visited node u. */
  method Relax(adj: Adj, start: string, ghost universe: set<string>, u: string, dist0: map<string, real>,
               prev0: map<string, string>, ghost via0: map<string, real>, visited: set<string>,
               ghost rank: map<string, nat>, heap0: multiset<Entry>)
    returns (dist: map<string, real>, prev: map<string, string>, ghost via: map<string, real>, heap: multiset<Entry>)
    requires Core(adj, start, universe, dist0, prev0, via0, visited, rank, heap0)
    requires Settled(adj, dist0, visited, Some(u)) && u in visited && universe == Universe(adj, start)
    ensures Core(adj, start, universe, dist, prev, via, visited, rank, heap)
    ensures Settled(adj, dist, visited, None)
    ensures forall v :: v in visited ==> dist[v] == dist0[v]
  {
    dist, prev, via, heap := dist0, prev0, via0, heap0;
    var ns := Neighbors(adj, u);
    for j := 0 to |ns|
      invariant Core(adj, start, universe, dist, prev, via, visited, rank, heap)
      invariant Settled(adj, dist, visited, Some(u))
      invariant RelaxedUpTo(adj, dist, visited, u, j)
      invariant forall v :: v in visited ==> dist[v] == dist0[v]
    {
      ghost var before := dist;
      dist, prev, via, heap := RelaxEntry(adj, start, universe, u, ns[j], dist, prev, via, visited, rank, heap);
      RelaxKeepsSettled(adj, u, j, before, dist, visited);
    }
  }

  /** Before the loop only start is known, at distance 0, and queued. */
  lemma {:induction false} StartState(adj: Adj, start: string)
    ensures Core(adj, start, Universe(adj, start), map[start := 0.0], map[], map[], {}, map[], multiset{Entry(0.0, start)})
    ensures Settled(adj, map[start := 0.0], {}, None) && Optimal(adj, start, map[start := 0.0], {})
  {
  }

  /**
   * One pass of the while loop of find_path: pop the least entry; skip it when its node is already
   * visited; otherwise visit the node and stop there when it is end, or relax its list.
   */
  method Step(adj: Adj, start: string, end: string, ghost universe: set<string>, dist0: map<string, real>,
              prev0: map<string, string>, ghost via0: map<string, real>, visited0: set<string>,
              ghost rank0: map<string, nat>, heap0: multiset<Entry>)
    returns (dist: map<string, real>, prev: map<string, string>, ghost via: map<string, real>, visited: set<string>,
             ghost rank: map<string, nat>, heap: multiset<Entry>, reached: bool)
    requires Core(adj, start, universe, dist0, prev0, via0, visited0, rank0, heap0) && universe == Universe(adj, start)
    requires Settled(adj, dist0, visited0, None) && Optimal(adj, start, dist0, visited0) && |heap0| > 0
    ensures Core(adj, start, universe, dist, prev, via, visited, rank, heap)
    ensures Settled(adj, dist, visited, if reached then Some(end) else None)
    ensures Optimal(adj, start, dist, visited)
    ensures reached ==> end in visited
    ensures |universe - visited| < |universe - visited0| || (visited == visited0 && |heap| < |heap0|)
  {
    dist, prev, via, visited, rank, heap, reached := dist0, prev0, via0, visited0, rank0, heap0, false;
    var e, rest := PopLeast(heap);
    var current := e.node;
    if current in visited {
      DiscardKeeps(universe, dist, visited, heap, e);
      heap := rest;
    } else {
      VisitOptimal(adj, start, universe, dist, visited, heap, e);
      VisitKeeps(adj, start, universe, dist, prev, via, visited, rank, heap, e);
      SettledGrow(adj, dist, visited, current);
      FewerUnvisited(universe, visited, current);
      heap := rest;
      visited := visited + {current};
      rank := rank[current := |rank|];
      if current == end {
        reached := true;
      } else {
        dist, prev, via, heap := Relax(adj, start, universe, current, dist, prev, via, visited, rank, heap);
      }
    }
  }

  /**
   * The while loop of find_path. It stops with reached when end is visited (before its own list
   * is relaxed), and otherwise runs until the heap is empty.
   */
  method Search(start: string, end: string, adj: Adj)
    returns (dist: map<string, real>, prev: map<string, string>, ghost via: map<string, real>, visited: set<string>,
             ghost rank: map<string, nat>, heap: multiset<Entry>, reached: bool)
    ensures Core(adj, start, Universe(adj, start), dist, prev, via, visited, rank, heap)
    ensures Settled(adj, dist, visited, if reached then Some(end) else None)
    ensures Optimal(adj, start, dist, visited)
    ensures reached ==> end in visited
    ensures !reached ==> heap == multiset{}
  {
    ghost var universe := Universe(adj, start);
    dist, prev, via, visited, rank := map[start := 0.0], map[], map[], {}, map[];
    heap := multiset{Entry(0.0, start)};
    reached := false;
    StartState(adj, start);
    while |heap| > 0 && !reached
      invariant Core(adj, start, universe, dist, prev, via, visited, rank, heap)
      invariant Settled(adj, dist, visited, if reached then Some(end) else None)
      invariant Optimal(adj, start, dist, visited)
      invariant reached ==> end in visited
      decreases |universe - visited|, |heap|
    {
      dist, prev, via, visited, rank, heap, reached := Step(adj, start, end, universe, dist, prev, via, visited, rank, heap);
    }
  }

  lemma {:induction false} ReverseSnoc(s: seq<string>, x: string)
    ensures Reverse(s + [x]) == [x] + Reverse(s)
    decreases |s|
  {
    if |s| == 0 {
      assert Reverse([x]) == Reverse([x][1..]) + [x];
    } else {
      assert (s + [x])[1..] == s[1..] + [x];
      ReverseSnoc(s[1..], x);
    }
  }

  /** Putting an adjacent node in front of a walk gives a walk one hop heavier. */
  lemma {:induction false} WalkCons(adj: Adj, p: string, r: seq<string>)
    requires |r| > 0 && IsWalk(adj, r) && Adjacent(adj, p, r[0])
    ensures IsWalk(adj, [p] + r) && PathWeight(adj, [p] + r) == Hop(adj, p, r[0]) + PathWeight(adj, r)
  {
    var w := [p] + r;
    assert w[1..] == r;
    forall i | 0 <= i < |w| - 1
      ensures Adjacent(adj, w[i], w[i + 1])
    {
      if i > 0 {
        assert w[i] == r[i - 1] && w[i + 1] == r[i];
      }
    }
  }

  /** The tail of find_path: follow prev from end back to start, then reverse. */
  method Reconstruct(adj: Adj, start: string, ghost universe: set<string>, end: string, dist: map<string, real>,
                     prev: map<string, string>, ghost via: map<string, real>, visited: set<string>,
                     ghost rank: map<string, nat>, heap: multiset<Entry>)
    returns (path: seq<string>)
    requires Core(adj, start, universe, dist, prev, via, visited, rank, heap) && end in dist
    ensures |path| > 0 && path[0] == start && Last(path) == end && IsWalk(adj, path)
    ensures PathWeight(adj, path) <= dist[end]
  {
    var back := [end];
    var current := end;
    while current in prev
      invariant current in dist && |back| > 0 && back[0] == end && Last(back) == current
      invariant IsWalk(adj, Reverse(back)) && PathWeight(adj, Reverse(back)) + dist[current] <= dist[end]
      decreases if current in rank then rank[current] else |rank|
    {
      var p := prev[current];
      HopLeast(adj, p, Nbr(current, via[current]));
      ReverseSnoc(back, p);
      WalkCons(adj, p, Reverse(back));
      back := back + [p];
      current := p;
    }
    path := Reverse(back);
  }

  /**
   * find_path: [start] when start == end; None when end was never reached; otherwise a walk from
   * start to end, of least weight among all walks between them when no edge weight is negative.
   */
  method FindPath(start: string, end: string, adj: Adj) returns (path: Option<seq<string>>)
    ensures start == end ==> path == Some([start])
    ensures path.Some? ==> var p := path.value;
      |p| > 0 && p[0] == start && Last(p) == end && IsWalk(adj, p)
    ensures path.None? ==> forall q :: IsWalk(adj, q) && |q| > 0 && q[0] == start ==> Last(q) != end
    ensures path.Some? && NonNegativeWeights(adj) ==>
      forall q :: IsWalk(adj, q) && |q| > 0 && q[0] == start && Last(q) == end ==> PathWeight(adj, path.value) <= PathWeight(adj, q)
  {
    if start == end {
      forall q | NonNegativeWeights(adj)
        ensures PathWeight(adj, q) >= 0.0
      {
        PathWeightNonNegative(adj, q);
      }
      return Some([start]);
    }
    var dist, prev, via, visited, rank, heap, reached := Search(start, end, adj);
    if end !in prev {
      forall q | IsWalk(adj, q) && |q| > 0 && q[0] == start
        ensures Last(q) != end
      {
        ClosedUnderWalks(adj, start, Universe(adj, start), dist, visited, q);
      }
      return None;
    }
    var p := Reconstruct(adj, start, Universe(adj, start), end, dist, prev, via, visited, rank, heap);
    assert end in visited by {
      if !reached {
        assert Entry(dist[end], end) !in heap;
      }
    }
    return Some(p);
  }
}
