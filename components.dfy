/**
 * scripts/merge_nrwn_data.py, find_connected_components and connect_floating_subgraphs: the
 * components of the merged network by union-find, and one virtual edge joining each floating
 * component to the main one at its closest pair of nodes.
 */
module Components {
  import opened Wrappers
  import opened Geometry
  import opened Merge

  // ---------------------------------------------------------------------------------------------
  // Union-find

  /**
   * The parent dictionary is held as its keys in insertion order (names) and, for the key at each
   * position, the position of its parent (up); pos finds a key's position.
   */
  ghost predicate Indexed(names: seq<string>, pos: map<string, nat>) {
    && (forall x :: x in pos ==> pos[x] < |names| && names[pos[x]] == x)
    && (forall i :: 0 <= i < |names| ==> names[i] in pos && pos[names[i]] == i)
  }

  /**
   * up is a forest. The ghost root of each position is the root of its tree and the ghost depth
   * strictly decreases from a position to its parent, with the roots at depth zero.
   */
  ghost predicate Forest(up: seq<nat>, root: seq<nat>, depth: seq<nat>) {
    && |root| == |up| && |depth| == |up|
    && (forall i {:trigger up[i]} :: 0 <= i < |up| ==> up[i] < |up|)
    && (forall i {:trigger root[i]} :: 0 <= i < |up| ==> root[i] < |up| && up[root[i]] == root[i])
    && (forall i {:trigger up[i]} :: 0 <= i < |up| ==> root[up[i]] == root[i])
    && (forall i {:trigger up[i]} :: 0 <= i < |up| ==> (up[i] == i <==> depth[i] == 0))
    && (forall i {:trigger up[i]} :: 0 <= i < |up| && up[i] != i ==> depth[up[i]] < depth[i])
    && (forall i {:trigger up[i]} :: 0 <= i < |up| && up[i] == i ==> root[i] == i)
  }

  /** find on a known key: its root, with every position on the way pointed straight at it. */
  method FindAt(up: seq<nat>, ghost root: seq<nat>, ghost depth: seq<nat>, i: nat) returns (up': seq<nat>, r: nat)
    requires Forest(up, root, depth) && i < |up|
    ensures Forest(up', root, depth) && |up'| == |up| && r == root[i]
    decreases depth[i]
  {
    if up[i] == i {
      return up, i;
    }
    up', r := FindAt(up, root, depth, up[i]);
    PointAtRoot(up', root, depth, i);
    up' := up'[i := r];
  }

  /** Pointing a position straight at its root keeps the forest. */
  lemma {:induction false} PointAtRoot(up: seq<nat>, root: seq<nat>, depth: seq<nat>, i: nat)
    requires Forest(up, root, depth) && i < |up|
    ensures Forest(up[i := root[i]], root, depth)
  {
    var u := up[i := root[i]];
    forall j | 0 <= j < |u|
      ensures u[j] < |u| && root[u[j]] == root[j]
      ensures (u[j] == j <==> depth[j] == 0) && (u[j] != j ==> depth[u[j]] < depth[j])
      ensures u[j] == j ==> root[j] == j
    {
      if j == i {
        assert up[root[i]] == root[i];
        if up[i] == i {
          assert root[i] == i;
        } else {
          assert depth[root[i]] == 0;
        }
      } else {
        assert u[j] == up[j];
      }
    }
    forall j | 0 <= j < |u| ensures root[j] < |u| && u[root[j]] == root[j] {
      if root[j] == i {
        assert up[i] == i && root[i] == i;
      }
    }
  }

  /** The union-find state: the parent dictionary and its ghost forest bookkeeping. */
  ghost predicate UnionFind(names: seq<string>, pos: map<string, nat>, up: seq<nat>, root: seq<nat>, depth: seq<nat>) {
    Indexed(names, pos) && |up| == |names| && Forest(up, root, depth)
  }

  /** find: a key not seen before becomes its own root; otherwise as FindAt. */
  method Find(names: seq<string>, pos: map<string, nat>, up: seq<nat>, ghost root: seq<nat>, ghost depth: seq<nat>, x: string)
    returns (names': seq<string>, pos': map<string, nat>, up': seq<nat>, ghost root': seq<nat>, ghost depth': seq<nat>, r: nat)
    requires UnionFind(names, pos, up, root, depth)
    ensures UnionFind(names', pos', up', root', depth')
    ensures x in pos' && r == root'[pos'[x]]
    ensures x in pos ==> names' == names && pos' == pos && root' == root
    ensures forall a :: a in pos ==> a in pos' && pos'[a] == pos[a]
    ensures x !in pos ==> names' == names + [x] && pos' == pos[x := |names|] && root' == root + [|names|] && r == |names|
  {
    if x !in pos {
      var n := |names|;
      return names + [x], pos[x := n], up + [n], root + [n], depth + [0], n;
    }
    names', pos', root', depth' := names, pos, root, depth;
    up', r := FindAt(up, root, depth, pos[x]);
  }

  /** The roots after hanging root px under root py. */
  ghost function Rerooted(root: seq<nat>, px: nat, py: nat): (root': seq<nat>)
    ensures |root'| == |root|
    ensures forall z :: 0 <= z < |root| ==> root'[z] == if root[z] == px then py else root[z]
  {
    seq(|root|, z requires 0 <= z < |root| => if root[z] == px then py else root[z])
  }

  /** The depths after hanging root px under root py. */
  ghost function Deepened(root: seq<nat>, depth: seq<nat>, px: nat): (depth': seq<nat>)
    requires |depth| == |root|
    ensures |depth'| == |depth|
    ensures forall z :: 0 <= z < |depth| ==> depth'[z] == if root[z] == px then depth[z] + 1 else depth[z]
  {
    seq(|depth|, z requires 0 <= z < |depth| => if root[z] == px then depth[z] + 1 else depth[z])
  }

  /** Hanging root px under another root py merges their trees and keeps the forest. */
  lemma {:induction false} HangUnder(up: seq<nat>, root: seq<nat>, depth: seq<nat>, px: nat, py: nat)
    requires Forest(up, root, depth) && px < |up| && py < |up| && up[px] == px && up[py] == py && px != py
    ensures Forest(up[px := py], Rerooted(root, px, py), Deepened(root, depth, px))
  {
  }

  /**
   * What union(x, y) does to the state: x and y become keys with the same root; the keys already
   * present keep their positions; the tree whose root is px now hangs under py; and a labelling
   * that was uniform on the trees and gives x and y the same label stays uniform.
   */
  ghost predicate Unioned(names: seq<string>, pos: map<string, nat>, root: seq<nat>,
                          names': seq<string>, pos': map<string, nat>, root': seq<nat>, x: string, y: string, px: nat, py: nat)
  {
    && x in pos' && y in pos' && pos'[x] < |root'| && pos'[y] < |root'| && root'[pos'[x]] == root'[pos'[y]]
    && |names| <= |names'| && names'[..|names|] == names
    && (forall a :: a in pos' <==> a in pos || a == x || a == y)
    && (forall a :: a in pos ==> pos'[a] == pos[a])
    && |root| <= |root'|
    && (forall a :: 0 <= a < |root| ==> root'[a] == if root[a] == px then py else root[a])
    && (forall tag: string -> int {:trigger Uniform(tag, names', root')} ::
          Uniform(tag, names, root) && tag(x) == tag(y) ==> Uniform(tag, names', root'))
  }

  /** union: the root of x is hung under the root of y when they differ. */
  method Union(names: seq<string>, pos: map<string, nat>, up: seq<nat>, ghost root: seq<nat>, ghost depth: seq<nat>,
               x: string, y: string)
    returns (names': seq<string>, pos': map<string, nat>, up': seq<nat>, ghost root': seq<nat>, ghost depth': seq<nat>,
             ghost px: nat, ghost py: nat)
    requires UnionFind(names, pos, up, root, depth)
    ensures UnionFind(names', pos', up', root', depth')
    ensures Unioned(names, pos, root, names', pos', root', x, y, px, py)
  {
    var rx, ry;
    names', pos', up', root', depth', rx := Find(names, pos, up, root, depth, x);
    ghost var n1, r1 := names', root';
    names', pos', up', root', depth', ry := Find(names', pos', up', root', depth', y);
    forall tag: string -> int | Uniform(tag, names, root)
      ensures Uniform(tag, names', root')
    {
      if x !in pos { UniformAddRoot(tag, names, root, x); }
      if y !in pos && y != x { UniformAddRoot(tag, n1, r1, y); }
    }
    px, py := rx, ry;
    if rx != ry {
      HangUnder(up', root', depth', px, py);
      forall tag: string -> int | Uniform(tag, names, root) && tag(x) == tag(y)
        ensures Uniform(tag, names', Rerooted(root', px, py))
      {
        UniformRerooted(tag, names', root', px, py, pos'[x], pos'[y]);
      }
      up', root', depth' := up'[rx := ry], Rerooted(root', px, py), Deepened(root', depth', px);
    }
  }

  // ---------------------------------------------------------------------------------------------
  // Connected components

  /** Every key of the parent dictionary: the ends of the edges. */
  function Endpoints(edges: seq<Link>): set<string> {
    if edges == [] then {} else Endpoints(edges[..|edges| - 1]) + {edges[|edges| - 1].source, edges[|edges| - 1].target}
  }

  /** A node is an endpoint exactly when some edge has it at one of its ends. */
  lemma {:induction false} EndpointsMeaning(edges: seq<Link>, x: string)
    ensures x in Endpoints(edges) <==> exists k :: 0 <= k < |edges| && (edges[k].source == x || edges[k].target == x)
    decreases |edges|
  {
    if edges != [] {
      var init := edges[..|edges| - 1];
      EndpointsMeaning(init, x);
      if x in Endpoints(init) {
        var k :| 0 <= k < |init| && (init[k].source == x || init[k].target == x);
        assert edges[k] == init[k];
      }
      if exists k :: 0 <= k < |edges| && (edges[k].source == x || edges[k].target == x) {
        var k :| 0 <= k < |edges| && (edges[k].source == x || edges[k].target == x);
        if k < |init| {
          assert init[k] == edges[k];
        }
      }
    }
  }

  /** A labelling of the nodes that gives both ends of every edge the same tag. */
  ghost predicate Respects(tag: string -> int, edges: seq<Link>) {
    forall k :: 0 <= k < |edges| ==> tag(edges[k].source) == tag(edges[k].target)
  }

  /** Every key has the label of its root, so keys with the same root have the same label. */
  ghost predicate Uniform(tag: string -> int, names: seq<string>, root: seq<nat>) {
    forall a :: 0 <= a < |names| && a < |root| && root[a] < |names| ==> tag(names[a]) == tag(names[root[a]])
  }

  /** A new key that is its own root keeps the labelling uniform. */
  lemma {:induction false} UniformAddRoot(tag: string -> int, names: seq<string>, root: seq<nat>, x: string)
    requires Uniform(tag, names, root) && |root| == |names| && forall a :: 0 <= a < |root| ==> root[a] < |root|
    ensures Uniform(tag, names + [x], root + [|names|])
  {
  }

  /** Joining two trees whose members carry the same tag keeps the labelling uniform. */
  lemma {:induction false} UniformRerooted(tag: string -> int, names: seq<string>, root: seq<nat>, px: nat, py: nat, ix: nat, iy: nat)
    requires Uniform(tag, names, root) && |root| == |names| && ix < |root| && iy < |root| && px < |root| && py < |root|
    requires root[ix] == px && root[iy] == py && root[px] == px && root[py] == py && tag(names[ix]) == tag(names[iy])
    ensures Uniform(tag, names, Rerooted(root, px, py))
  {
  }

  /** After the first k edges: each joined, and only what they join. */
  ghost predicate Joined(edges: seq<Link>, k: nat, names: seq<string>, pos: map<string, nat>, up: seq<nat>,
                         root: seq<nat>, depth: seq<nat>)
    requires k <= |edges|
  {
    && UnionFind(names, pos, up, root, depth)
    && pos.Keys == Endpoints(edges[..k])
    && (forall j :: 0 <= j < k ==>
          edges[j].source in pos && edges[j].target in pos && root[pos[edges[j].source]] == root[pos[edges[j].target]])
    && (forall tag :: Respects(tag, edges[..k]) ==> Uniform(tag, names, root))
  }

  lemma {:induction false} EndpointsStep(edges: seq<Link>, k: nat)
    requires k < |edges|
    ensures Endpoints(edges[..k + 1]) == Endpoints(edges[..k]) + {edges[k].source, edges[k].target}
  {
    assert edges[..k + 1][..k] == edges[..k];
  }

  lemma {:induction false} EndpointsHas(edges: seq<Link>, k: nat, j: nat)
    requires j < k <= |edges|
    ensures edges[j].source in Endpoints(edges[..k]) && edges[j].target in Endpoints(edges[..k])
  {
    assert edges[..k][j] == edges[j];
    EndpointsMeaning(edges[..k], edges[j].source);
    EndpointsMeaning(edges[..k], edges[j].target);
  }

  lemma {:induction false} RespectsPrefix(tag: string -> int, edges: seq<Link>, k: nat)
    requires k < |edges| && Respects(tag, edges[..k + 1])
    ensures Respects(tag, edges[..k]) && tag(edges[k].source) == tag(edges[k].target)
  {
    assert edges[..k + 1][k] == edges[k];
    forall j | 0 <= j < k ensures tag(edges[..k][j].source) == tag(edges[..k][j].target) {
      assert edges[..k][j] == edges[..k + 1][j];
    }
  }

  /** Edges already joined stay joined when one tree is hung under another. */
  lemma {:induction false} KeptJoins(edges: seq<Link>, k: nat, names: seq<string>, pos: map<string, nat>, up: seq<nat>,
                  root: seq<nat>, depth: seq<nat>, names': seq<string>, pos': map<string, nat>, root': seq<nat>,
                  px: nat, py: nat)
    requires k < |edges| && Joined(edges, k, names, pos, up, root, depth)
    requires Unioned(names, pos, root, names', pos', root', edges[k].source, edges[k].target, px, py)
    ensures forall j :: 0 <= j < k + 1 ==>
      edges[j].source in pos' && edges[j].target in pos' && root'[pos'[edges[j].source]] == root'[pos'[edges[j].target]]
  {
    forall j | 0 <= j < k
      ensures edges[j].source in pos' && edges[j].target in pos' && root'[pos'[edges[j].source]] == root'[pos'[edges[j].target]]
    {
      var s, t := pos[edges[j].source], pos[edges[j].target];
      assert root[s] == root[t];
    }
  }

  /** A labelling that respects the first k + 1 edges is uniform on the trees after the union. */
  lemma {:induction false} KeptUniform(edges: seq<Link>, k: nat, names: seq<string>, pos: map<string, nat>, up: seq<nat>,
                    root: seq<nat>, depth: seq<nat>, names': seq<string>, pos': map<string, nat>, root': seq<nat>,
                    px: nat, py: nat)
    requires k < |edges| && Joined(edges, k, names, pos, up, root, depth)
    requires Unioned(names, pos, root, names', pos', root', edges[k].source, edges[k].target, px, py)
    ensures forall tag :: Respects(tag, edges[..k + 1]) ==> Uniform(tag, names', root')
  {
    forall tag | Respects(tag, edges[..k + 1]) ensures Uniform(tag, names', root') {
      RespectsPrefix(tag, edges, k);
    }
  }

  /** One pass of the union loop: union(edge['source'], edge['target']). */
  method UnionEdge(edges: seq<Link>, k: nat, names: seq<string>, pos: map<string, nat>, up: seq<nat>,
                   ghost root: seq<nat>, ghost depth: seq<nat>)
    returns (names': seq<string>, pos': map<string, nat>, up': seq<nat>, ghost root': seq<nat>, ghost depth': seq<nat>)
    requires k < |edges| && Joined(edges, k, names, pos, up, root, depth)
    ensures Joined(edges, k + 1, names', pos', up', root', depth')
  {
    ghost var px, py;
    names', pos', up', root', depth', px, py := Union(names, pos, up, root, depth, edges[k].source, edges[k].target);
    EndpointsStep(edges, k);
    KeptJoins(edges, k, names, pos, up, root, depth, names', pos', root', px, py);
    KeptUniform(edges, k, names, pos, up, root, depth, names', pos', root', px, py);
  }

  /** The union loop: every edge joined, and only what the edges join. */
  method UnionAll(edges: seq<Link>)
    returns (names: seq<string>, pos: map<string, nat>, up: seq<nat>, ghost root: seq<nat>, ghost depth: seq<nat>)
    ensures UnionFind(names, pos, up, root, depth)
    ensures pos.Keys == Endpoints(edges)
    ensures forall j :: 0 <= j < |edges| ==>
      edges[j].source in pos && edges[j].target in pos && root[pos[edges[j].source]] == root[pos[edges[j].target]]
    ensures forall tag :: Respects(tag, edges) ==> Uniform(tag, names, root)
  {
    names, pos, up, root, depth := [], map[], [], [], [];
    for k := 0 to |edges|
      invariant Joined(edges, k, names, pos, up, root, depth)
    {
      names, pos, up, root, depth := UnionEdge(edges, k, names, pos, up, root, depth);
    }
    JoinedAll(edges, names, pos, up, root, depth);
  }

  /** After the last edge, the loop state speaks of the whole edge list. */
  lemma {:induction false} JoinedAll(edges: seq<Link>, names: seq<string>, pos: map<string, nat>, up: seq<nat>, root: seq<nat>, depth: seq<nat>)
    requires Joined(edges, |edges|, names, pos, up, root, depth)
    ensures pos.Keys == Endpoints(edges)
    ensures forall tag :: Respects(tag, edges) ==> Uniform(tag, names, root)
  {
    assert edges[..|edges|] == edges;
  }

  /** Grouping state: comps[i] holds the keys met so far whose root is rootOf[i]; slot inverts rootOf. */
  ghost predicate Grouping(names: seq<string>, pos: map<string, nat>, root: seq<nat>, j: nat, comps: seq<set<string>>,
                           rootOf: seq<nat>, slot: map<nat, nat>, compOf: map<string, nat>)
    requires j <= |names| == |root|
  {
    && |rootOf| == |comps|
    && (forall r :: r in slot ==> slot[r] < |comps| && rootOf[slot[r]] == r)
    && (forall i :: 0 <= i < |comps| ==> rootOf[i] in slot && slot[rootOf[i]] == i && comps[i] != {})
    && (forall a :: 0 <= a < j ==>
          root[a] in slot && names[a] in comps[slot[root[a]]] && names[a] in compOf && compOf[names[a]] == slot[root[a]])
    && (forall x :: x in compOf ==> x in pos && pos[x] < j)
    && (forall i, x :: 0 <= i < |comps| && x in comps[i] ==> x in compOf && compOf[x] == i)
  }

  /** components[root].add(node) for the key at position j, whose root is r. */
  method PlaceKey(names: seq<string>, pos: map<string, nat>, ghost root: seq<nat>, j: nat, r: nat,
                  comps: seq<set<string>>, ghost rootOf: seq<nat>, slot: map<nat, nat>, ghost compOf: map<string, nat>)
    returns (comps': seq<set<string>>, ghost rootOf': seq<nat>, slot': map<nat, nat>, ghost compOf': map<string, nat>)
    requires Indexed(names, pos) && |root| == |names| && j < |names| && r == root[j]
    requires Grouping(names, pos, root, j, comps, rootOf, slot, compOf)
    ensures Grouping(names, pos, root, j + 1, comps', rootOf', slot', compOf')
  {
    var x := names[j];
    assert x !in compOf;
    if r in slot {
      var i := slot[r];
      comps', rootOf', slot' := comps[i := comps[i] + {x}], rootOf, slot;
      compOf' := compOf[x := i];
      forall k, y | 0 <= k < |comps'| && y in comps'[k] ensures y in compOf' && compOf'[y] == k {
        if y != x { assert y in comps[k]; }
      }
    } else {
      var i := |comps|;
      comps', rootOf', slot' := comps + [{x}], rootOf + [r], slot[r := i];
      compOf' := compOf[x := i];
      forall k, y | 0 <= k < |comps'| && y in comps'[k] ensures y in compOf' && compOf'[y] == k {
        if k < i { assert y in comps[k]; }
      }
      forall k | 0 <= k < |comps'| ensures rootOf'[k] in slot' && slot'[rootOf'[k]] == k {
        if k < i { assert rootOf[k] in slot; }
      }
    }
    forall a | 0 <= a < j + 1
      ensures root[a] in slot' && names[a] in comps'[slot'[root[a]]] && names[a] in compOf' && compOf'[names[a]] == slot'[root[a]]
    {
      if a < j { assert names[a] != x by { assert pos[names[a]] == a; } }
    }
  }

  /**
   * The grouping loop: for node in parent, components[find(node)].add(node). compOf gives each key
   * the index of its root's component; slot gives each root that index, and no two roots share one.
   */
  method GroupAll(names: seq<string>, pos: map<string, nat>, up: seq<nat>, ghost root: seq<nat>, ghost depth: seq<nat>)
    returns (comps: seq<set<string>>, ghost slot: map<nat, nat>, ghost compOf: map<string, nat>)
    requires UnionFind(names, pos, up, root, depth)
    ensures forall x :: x in compOf <==> x in pos
    ensures forall x :: x in pos ==> pos[x] < |root| && root[pos[x]] in slot && compOf[x] == slot[root[pos[x]]]
    ensures forall r1, r2 :: r1 in slot && r2 in slot && slot[r1] == slot[r2] ==> r1 == r2
    ensures forall x :: x in compOf ==> compOf[x] < |comps| && x in comps[compOf[x]]
    ensures forall i, x :: 0 <= i < |comps| && x in comps[i] ==> x in compOf && compOf[x] == i
    ensures forall i :: 0 <= i < |comps| ==> comps[i] != {}
  {
    var up' := up;
    var slots: map<nat, nat> := map[];
    ghost var rootOf: seq<nat> := [];
    comps, compOf := [], map[];
    for j := 0 to |names|
      invariant UnionFind(names, pos, up', root, depth)
      invariant Grouping(names, pos, root, j, comps, rootOf, slots, compOf)
    {
      var r;
      up', r := FindAt(up', root, depth, j);
      comps, rootOf, slots, compOf := PlaceKey(names, pos, root, j, r, comps, rootOf, slots, compOf);
    }
    slot := slots;
    GroupingKeys(names, pos, root, comps, rootOf, slot, compOf);
    GroupingPartitions(names, pos, root, comps, rootOf, slot, compOf);
  }

  /** Once every key is placed, compOf is defined on the keys and follows their roots. */
  lemma {:induction false} GroupingKeys(names: seq<string>, pos: map<string, nat>, root: seq<nat>, comps: seq<set<string>>,
                     rootOf: seq<nat>, slot: map<nat, nat>, compOf: map<string, nat>)
    requires Indexed(names, pos) && |root| == |names|
    requires Grouping(names, pos, root, |names|, comps, rootOf, slot, compOf)
    ensures forall x :: x in compOf <==> x in pos
    ensures forall x :: x in pos ==> pos[x] < |root| && root[pos[x]] in slot && compOf[x] == slot[root[pos[x]]]
    ensures forall r1, r2 :: r1 in slot && r2 in slot && slot[r1] == slot[r2] ==> r1 == r2
  {
    forall x | x in pos ensures x in compOf && root[pos[x]] in slot && compOf[x] == slot[root[pos[x]]] {
      assert names[pos[x]] == x;
    }
    forall r1, r2 | r1 in slot && r2 in slot && slot[r1] == slot[r2] ensures r1 == r2 {
      assert rootOf[slot[r1]] == r1 && rootOf[slot[r2]] == r2;
    }
  }

  /** Once every key is placed, each key is in the component compOf names, and in no other. */
  lemma {:induction false} GroupingPartitions(names: seq<string>, pos: map<string, nat>, root: seq<nat>, comps: seq<set<string>>,
                           rootOf: seq<nat>, slot: map<nat, nat>, compOf: map<string, nat>)
    requires Indexed(names, pos) && |root| == |names|
    requires Grouping(names, pos, root, |names|, comps, rootOf, slot, compOf)
    ensures forall x :: x in compOf ==> compOf[x] < |comps| && x in comps[compOf[x]]
    ensures forall i, x :: 0 <= i < |comps| && x in comps[i] ==> x in compOf && compOf[x] == i
    ensures forall i :: 0 <= i < |comps| ==> comps[i] != {}
  {
    forall x | x in compOf ensures compOf[x] < |comps| && x in comps[compOf[x]] {
      assert names[pos[x]] == x;
    }
  }

  /** Keys in the same component have the same root, so a labelling that respects the edges agrees on them. */
  lemma {:induction false} SameComponentSameLabel(edges: seq<Link>, names: seq<string>, pos: map<string, nat>, root: seq<nat>,
                               slot: map<nat, nat>, compOf: map<string, nat>)
    requires Indexed(names, pos) && |root| == |names| && forall a :: 0 <= a < |root| ==> root[a] < |root|
    requires forall tag :: Respects(tag, edges) ==> Uniform(tag, names, root)
    requires forall x :: x in compOf <==> x in pos
    requires forall x :: x in pos ==> pos[x] < |root| && root[pos[x]] in slot && compOf[x] == slot[root[pos[x]]]
    requires forall r1, r2 :: r1 in slot && r2 in slot && slot[r1] == slot[r2] ==> r1 == r2
    ensures forall tag, x, y :: Respects(tag, edges) && x in pos && y in pos && compOf[x] == compOf[y] ==>
      tag(x) == tag(y)
  {
    forall tag, x, y | Respects(tag, edges) && x in pos && y in pos && compOf[x] == compOf[y]
      ensures tag(x) == tag(y)
    {
      var a, b := pos[x], pos[y];
      assert names[a] == x && names[b] == y;
      assert root[a] == root[b];
      assert Uniform(tag, names, root);
      assert tag(names[a]) == tag(names[root[a]]) && tag(names[b]) == tag(names[root[b]]);
    }
  }

  /**
   * find_connected_components: the components of the graph of the edges. compOf gives each node
   * its component.
   */
  method FindConnectedComponents(edges: seq<Link>) returns (components: seq<set<string>>, ghost compOf: map<string, nat>)
    ensures compOf.Keys == Endpoints(edges)
    ensures forall x :: x in compOf ==> compOf[x] < |components| && x in components[compOf[x]]
    ensures forall i, x :: 0 <= i < |components| && x in components[i] ==> x in compOf && compOf[x] == i
    ensures forall i :: 0 <= i < |components| ==> components[i] != {}
    ensures forall k :: 0 <= k < |edges| ==>
      edges[k].source in compOf && edges[k].target in compOf && compOf[edges[k].source] == compOf[edges[k].target]
    ensures forall tag, x, y :: Respects(tag, edges) && x in compOf && y in compOf && compOf[x] == compOf[y] ==>
      tag(x) == tag(y)
  {
    var names, pos, up;
    ghost var root, depth, slot;
    names, pos, up, root, depth := UnionAll(edges);
    components, slot, compOf := GroupAll(names, pos, up, root, depth);
    SameComponentSameLabel(edges, names, pos, root, slot, compOf);
  }

  // ---------------------------------------------------------------------------------------------
  // Floating subgraphs

  /** The node lookup by id: a later record with the same id replaces an earlier one. */
  function NodeTable(nodes: seq<NetNode>): (table: map<string, Point>)
    ensures forall n :: n in nodes ==> n.id in table
    ensures forall id :: id in table ==> exists n :: n in nodes && n.id == id
    ensures |nodes| > 0 ==> table[nodes[|nodes| - 1].id] == nodes[|nodes| - 1].pos
  {
    if nodes == [] then map[]
    else
      var init := nodes[..|nodes| - 1];
      assert nodes == init + [nodes[|nodes| - 1]];
      NodeTable(init)[nodes[|nodes| - 1].id := nodes[|nodes| - 1].pos]
  }

  /** A record that no later record overrides is the one the lookup holds. */
  lemma {:induction false} NodeTableLatest(nodes: seq<NetNode>, k: nat)
    requires k < |nodes| && forall j :: k < j < |nodes| ==> nodes[j].id != nodes[k].id
    ensures NodeTable(nodes)[nodes[k].id] == nodes[k].pos
  {
    if k < |nodes| - 1 {
      var init := nodes[..|nodes| - 1];
      NodeTableLatest(init, k);
    }
  }

  /** The ids of the network's nodes before the merge. */
  function OriginalIds(nodes: seq<NetNode>): set<string> {
    set n | n in nodes :: n.id
  }

  /** The outcome of the selection loop: the main component if any, its index, and the floating ones. */
  datatype Split = Split(main: Option<set<string>>, at: nat, floating: seq<set<string>>)

  /**
   * The selection loop as a fold: a component sharing a node with the originals becomes the main
   * one when it is the first such or strictly larger than the current main one, which is then
   * queued as floating; every other component is queued as floating.
   */
  function MainSplit(components: seq<set<string>>, originals: set<string>): Split
    decreases |components|
  {
    if |components| == 0 then Split(None, 0, [])
    else
      var s := MainSplit(components[..|components| - 1], originals);
      var comp := components[|components| - 1];
      if comp * originals != {} && (s.main.None? || |comp| > |s.main.value|) then
        Split(Some(comp), |components| - 1, if s.main.Some? then s.floating + [s.main.value] else s.floating)
      else Split(s.main, s.at, s.floating + [comp])
  }

  /** The fold picks no main component exactly when none shares a node with the originals. */
  lemma {:induction false} MainSplitNone(components: seq<set<string>>, originals: set<string>)
    ensures var s := MainSplit(components, originals);
      && (s.main.None? <==> forall i :: 0 <= i < |components| ==> components[i] * originals == {})
      && (s.main.None? ==> s.floating == components)
    decreases |components|
  {
    if |components| > 0 {
      var n := |components| - 1;
      var init, comp := components[..n], components[n];
      assert components == init + [comp];
      MainSplitNone(init, originals);
      var s := MainSplit(init, originals);
      var r := MainSplit(components, originals);
      if comp * originals != {} && (s.main.None? || |comp| > |s.main.value|) {
        assert r.main.Some?;
      } else {
        assert r == Split(s.main, s.at, s.floating + [comp]);
      }
    }
  }

  /** Otherwise the fold picks the first largest component that shares a node with the originals. */
  lemma {:induction false} MainSplitFirstLargest(components: seq<set<string>>, originals: set<string>)
    ensures var s := MainSplit(components, originals);
      && (s.main.Some? ==> s.at < |components| && s.main.value == components[s.at] && components[s.at] * originals != {})
      && (s.main.Some? ==> forall i :: 0 <= i < |components| && components[i] * originals != {} ==>
            |components[i]| <= |s.main.value|)
      && (s.main.Some? ==> forall i :: 0 <= i < s.at && components[i] * originals != {} ==>
            |components[i]| < |s.main.value|)
    decreases |components|
  {
    if |components| > 0 {
      var n := |components| - 1;
      var init, comp := components[..n], components[n];
      assert forall i :: 0 <= i < n ==> components[i] == init[i];
      MainSplitFirstLargest(init, originals);
      MainSplitNone(init, originals);
      var s := MainSplit(init, originals);
      var r := MainSplit(components, originals);
      if comp * originals != {} && (s.main.None? || |comp| > |s.main.value|) {
        assert r == Split(Some(comp), n, if s.main.Some? then s.floating + [s.main.value] else s.floating);
      } else {
        assert r == Split(s.main, s.at, s.floating + [comp]);
      }
      if r.main.Some? {
        forall i | 0 <= i < |components| && components[i] * originals != {}
          ensures |components[i]| <= |r.main.value|
        {
          if i < n {
            assert components[i] == init[i];
          }
        }
      }
    }
  }

  /** The floating components are all the components but the main one. */
  lemma {:induction false} MainSplitFloating(components: seq<set<string>>, originals: set<string>)
    ensures var s := MainSplit(components, originals);
      s.main.Some? ==> multiset(s.floating) + multiset{s.main.value} == multiset(components)
    decreases |components|
  {
    if |components| > 0 {
      var n := |components| - 1;
      var init, comp := components[..n], components[n];
      assert multiset(init + [comp]) == multiset(init) + multiset{comp};
      assert components == init + [comp];
      MainSplitFloating(init, originals);
      MainSplitNone(init, originals);
      var s := MainSplit(init, originals);
      var r := MainSplit(components, originals);
      if comp * originals != {} && (s.main.None? || |comp| > |s.main.value|) {
        assert r.main == Some(comp);
        if s.main.Some? {
          assert r.floating == s.floating + [s.main.value];
        } else {
          assert r.floating == init;
        }
      } else {
        assert r == Split(s.main, s.at, s.floating + [comp]);
      }
    }
  }

  /**
   * The main component is the first largest of the components that share a node with the original
   * network; every other component is floating. at is the main component's index.
   */
  method SelectMain(components: seq<set<string>>, originals: set<string>)
    returns (main: Option<set<string>>, floating: seq<set<string>>, ghost at: nat)
    ensures main.None? <==> forall i :: 0 <= i < |components| ==> components[i] * originals == {}
    ensures main.None? ==> floating == components
    ensures main.Some? ==> at < |components| && main.value == components[at] && components[at] * originals != {}
    ensures main.Some? ==> forall i :: 0 <= i < |components| && components[i] * originals != {} ==>
      |components[i]| <= |main.value|
    ensures main.Some? ==> forall i :: 0 <= i < at && components[i] * originals != {} ==> |components[i]| < |main.value|
    ensures main.Some? ==> multiset(floating) + multiset{main.value} == multiset(components)
    ensures Split(main, at, floating) == MainSplit(components, originals)
  {
    main, floating, at := None, [], 0;
    for i := 0 to |components|
      invariant Split(main, at, floating) == MainSplit(components[..i], originals)
    {
      var comp := components[i];
      assert components[..i + 1][..i] == components[..i];
      if comp * originals != {} && (main.None? || |comp| > |main.value|) {
        if main.Some? {
          floating := floating + [main.value];
        }
        main, at := Some(comp), i;
      } else {
        floating := floating + [comp];
      }
    }
    assert components[..|components|] == components;
    MainSplitNone(components, originals);
    MainSplitFirstLargest(components, originals);
    MainSplitFloating(components, originals);
  }

  /** A candidate connection: a main node and a floating node. */
  datatype Pair = Pair(mainId: string, floatingId: string)

  /** The pairs the search considers: both nodes known to the lookup. */
  function Candidates(comp: set<string>, main: set<string>, table: map<string, Point>): set<Pair> {
    set f, m | f in comp && m in main && f in table && m in table :: Pair(m, f)
  }

  /** The pairs with floating node f. */
  function Row(f: string, main: set<string>, table: map<string, Point>): set<Pair> {
    set m | m in main && m in table && f in table :: Pair(m, f)
  }

  /** The distance of a pair, measured from the floating node to the main node. */
  function PairDist(p: Pair, table: map<string, Point>, hav: Metric): real
    requires p.floatingId in table && p.mainId in table
  {
    hav(table[p.floatingId], table[p.mainId])
  }

  /** best is a closest pair of pairs, at distance minDist; None when there are none. */
  ghost predicate Closest(best: Option<Pair>, minDist: real, pairs: set<Pair>, table: map<string, Point>, hav: Metric) {
    && (forall p :: p in pairs ==> p.floatingId in table && p.mainId in table)
    && (best.None? <==> pairs == {})
    && (best.Some? ==> best.value in pairs && minDist == PairDist(best.value, table, hav))
    && (best.Some? ==> forall p :: p in pairs ==> minDist <= PairDist(p, table, hav))
  }

  /** One comparison: keeping the nearer of the best so far and a new pair keeps the closest pair. */
  lemma {:induction false} ClosestAdd(best: Option<Pair>, minDist: real, pairs: set<Pair>, p: Pair, table: map<string, Point>, hav: Metric)
    requires Closest(best, minDist, pairs, table, hav) && p.floatingId in table && p.mainId in table
    ensures var d := PairDist(p, table, hav);
      if best.None? || d < minDist then Closest(Some(p), d, pairs + {p}, table, hav)
      else Closest(best, minDist, pairs + {p}, table, hav)
  {
  }

  lemma {:induction false} RowStep(before: set<Pair>, f: string, seen: set<string>, m: string, table: map<string, Point>)
    requires f in table
    ensures before + Row(f, seen + {m}, table) == (before + Row(f, seen, table)) + if m in table then {Pair(m, f)} else {}
  {
  }

  lemma {:induction false} CandidatesStep(done: set<string>, f: string, main: set<string>, table: map<string, Point>)
    ensures Candidates(done + {f}, main, table) == Candidates(done, main, table) + Row(f, main, table)
    ensures f !in table ==> Candidates(done + {f}, main, table) == Candidates(done, main, table)
  {
  }

  /** One step of the inner loop: the pair of main node m and floating node f, if both are known. */
  method Consider(f: string, m: string, table: map<string, Point>, hav: Metric,
                  best: Option<Pair>, minDist: real, ghost pairs: set<Pair>)
    returns (best': Option<Pair>, minDist': real)
    requires f in table && Closest(best, minDist, pairs, table, hav)
    ensures Closest(best', minDist', pairs + if m in table then {Pair(m, f)} else {}, table, hav)
  {
    best', minDist' := best, minDist;
    if m in table {
      var d := hav(table[f], table[m]);
      ClosestAdd(best, minDist, pairs, Pair(m, f), table, hav);
      if best.None? || d < minDist {
        best', minDist' := Some(Pair(m, f)), d;
      }
    }
  }

  /** The inner loop: the main nodes compared with one floating node f. */
  method ScanRow(f: string, main: set<string>, table: map<string, Point>, hav: Metric,
                 best: Option<Pair>, minDist: real, ghost before: set<Pair>)
    returns (best': Option<Pair>, minDist': real)
    requires f in table && Closest(best, minDist, before, table, hav)
    ensures Closest(best', minDist', before + Row(f, main, table), table, hav)
  {
    best', minDist' := best, minDist;
    var ms := main;
    ghost var seen: set<string> := {};
    ghost var pairs := before;
    assert Row(f, {}, table) == {};
    while ms != {}
      invariant ms == main - seen && seen <= main
      invariant pairs == before + Row(f, seen, table)
      invariant Closest(best', minDist', pairs, table, hav)
      decreases ms
    {
      var m :| m in ms;
      RowStep(before, f, seen, m, table);
      best', minDist' := Consider(f, m, table, hav, best', minDist', pairs);
      pairs := pairs + if m in table then {Pair(m, f)} else {};
      ms, seen := ms - {m}, seen + {m};
    }
    assert seen == main;
  }

  /**
   * The nested loops over the floating component and the main component: a closest pair of
   * nodes with known positions, one from each. Sets are iterated in an unspecified order, so
   * among equally close pairs any may be chosen.
   */
  method ClosestPair(comp: set<string>, main: set<string>, table: map<string, Point>, hav: Metric)
    returns (best: Option<Pair>, minDist: real)
    ensures best.None? <==> Candidates(comp, main, table) == {}
    ensures best.Some? ==> best.value.floatingId in comp && best.value.mainId in main
    ensures best.Some? ==> best.value.floatingId in table && best.value.mainId in table
    ensures best.Some? ==> minDist == hav(table[best.value.floatingId], table[best.value.mainId])
    ensures best.Some? ==> forall f, m :: f in comp && m in main && f in table && m in table ==>
      minDist <= hav(table[f], table[m])
  {
    best, minDist := None, 0.0;
    var fs := comp;
    ghost var done: set<string> := {};
    while fs != {}
      invariant fs == comp - done && done <= comp
      invariant Closest(best, minDist, Candidates(done, main, table), table, hav)
      decreases fs
    {
      var f :| f in fs;
      CandidatesStep(done, f, main, table);
      if f in table {
        best, minDist := ScanRow(f, main, table, hav, best, minDist, Candidates(done, main, table));
      }
      fs, done := fs - {f}, done + {f};
    }
    assert done == comp;
    ClosestMeaning(best, minDist, done, main, table, hav);
  }

  /** What Closest says about the candidates of a floating component and the main component. */
  lemma {:induction false} ClosestMeaning(best: Option<Pair>, minDist: real, comp: set<string>, main: set<string>,
                       table: map<string, Point>, hav: Metric)
    requires Closest(best, minDist, Candidates(comp, main, table), table, hav)
    ensures best.None? <==> Candidates(comp, main, table) == {}
    ensures best.Some? ==> best.value.floatingId in comp && best.value.mainId in main
    ensures best.Some? ==> best.value.floatingId in table && best.value.mainId in table
    ensures best.Some? ==> minDist == hav(table[best.value.floatingId], table[best.value.mainId])
    ensures best.Some? ==> forall f, m :: f in comp && m in main && f in table && m in table ==>
      minDist <= hav(table[f], table[m])
  {
    if best.Some? {
      forall f, m | f in comp && m in main && f in table && m in table ensures minDist <= hav(table[f], table[m]) {
        assert Pair(m, f) in Candidates(comp, main, table);
      }
    }
  }

  /** A virtual connection: its edge and its straight two-point track between known nodes. */
  ghost predicate Virtual(e: Link, t: TrackGeometry, table: map<string, Point>, hav: Metric) {
    && e.builderCode == "VIRTUAL" && e.builderName == t.builderName == "Virtual Connection"
    && e.builtYear == e.abandonedYear == t.builtYear == t.abandonedYear == 0
    && e.source in table && e.target in table
    && e.lengthM == hav(table[e.target], table[e.source]) && e.lengthKm == e.lengthM / 1000.0
    && t.source == e.source && t.target == e.target
    && t.coords == [table[e.source], table[e.target]]
    && t.lengthKm == e.lengthKm
  }

  /** Every component holds only endpoints of the edges it was built from. */
  lemma {:induction false} ComponentsWithin(components: seq<set<string>>, compOf: map<string, nat>, nodes: set<string>)
    requires compOf.Keys == nodes
    requires forall i, x :: 0 <= i < |components| && x in components[i] ==> x in compOf && compOf[x] == i
    ensures forall c :: c in multiset(components) ==> c <= nodes
  {
    forall c | c in multiset(components) ensures c <= nodes {
      var i :| 0 <= i < |components| && components[i] == c;
    }
  }

  /** Rearranging the components keeps each of them among the nodes. */
  lemma {:induction false} FloatingWithin(components: seq<set<string>>, floating: seq<set<string>>, main: set<string>, nodes: set<string>)
    requires multiset(floating) + multiset{main} == multiset(components)
    requires forall c :: c in multiset(components) ==> c <= nodes
    ensures main <= nodes
    ensures forall i :: 0 <= i < |floating| ==> floating[i] <= nodes
  {
    assert main in multiset(components);
    forall i | 0 <= i < |floating| ensures floating[i] <= nodes {
      assert floating[i] in multiset(floating);
    }
  }

  /**
   * The main component after the floating components 0 .. i-1 were looked at: a component joins
   * it when one of its nodes and one of the main component's nodes have known positions.
   */
  function GrownTo(main: set<string>, floating: seq<set<string>>, table: map<string, Point>, i: nat): set<string>
    requires i <= |floating|
  {
    if i == 0 then main
    else
      var grown := GrownTo(main, floating, table, i - 1);
      if Candidates(floating[i - 1], grown, table) == {} then grown else grown + floating[i - 1]
  }

  /**
   * A virtual edge e ties the floating component comp to the grown main component: it runs from a
   * node of the main component to a node of comp, and no pair of known nodes, one in each, is
   * closer than its length.
   */
  ghost predicate Tied(e: Link, comp: set<string>, grown: set<string>, table: map<string, Point>, hav: Metric) {
    && e.target in comp && e.source in grown
    && forall f, m :: f in comp && m in grown && f in table && m in table ==> e.lengthM <= hav(table[f], table[m])
  }

  /** The virtual edges and tracks made so far, with their ends among the given nodes. */
  ghost predicate EachEdges(table: map<string, Point>, hav: Metric, nodes: set<string>,
                            virtualEdges: seq<Link>, virtualTracks: seq<TrackGeometry>)
  {
    && |virtualEdges| == |virtualTracks|
    && (forall k :: 0 <= k < |virtualEdges| ==> Virtual(virtualEdges[k], virtualTracks[k], table, hav))
    && (forall k :: 0 <= k < |virtualEdges| ==> virtualEdges[k].source in nodes && virtualEdges[k].target in nodes)
  }

  /** The indices of the tied components so far: increasing and below i. */
  ghost predicate EachOrder(i: nat, from: seq<nat>) {
    && (forall k :: 0 <= k < |from| ==> from[k] < i)
    && (forall k, k' :: 0 <= k < k' < |from| ==> from[k] < from[k'])
  }

  /** Among the first i components, exactly those with a candidate pair were tied. */
  ghost predicate EachCovered(main: set<string>, floating: seq<set<string>>, table: map<string, Point>,
                              i: nat, from: seq<nat>)
    requires i <= |floating|
  {
    forall j :: 0 <= j < i ==>
      (j in from <==> Candidates(floating[j], GrownTo(main, floating, table, j), table) != {})
  }

  /** Edge k ties component from[k] to the main component as grown before it. */
  ghost predicate EachTied(main: set<string>, floating: seq<set<string>>, table: map<string, Point>, hav: Metric,
                           virtualEdges: seq<Link>, from: seq<nat>)
  {
    && |virtualEdges| == |from|
    && forall k :: 0 <= k < |from| ==>
         (from[k] < |floating| &&
          Tied(virtualEdges[k], floating[from[k]], GrownTo(main, floating, table, from[k]), table, hav))
  }

  /** What the loop of ConnectEach knows after looking at the first i floating components. */
  ghost predicate EachState(main: set<string>, floating: seq<set<string>>, table: map<string, Point>, hav: Metric,
                            nodes: set<string>, i: nat, grown: set<string>,
                            virtualEdges: seq<Link>, virtualTracks: seq<TrackGeometry>, from: seq<nat>)
  {
    && i <= |floating| && |from| <= i
    && grown == GrownTo(main, floating, table, i) && grown <= nodes
    && EachEdges(table, hav, nodes, virtualEdges, virtualTracks)
    && EachOrder(i, from)
    && EachCovered(main, floating, table, i, from)
    && EachTied(main, floating, table, hav, virtualEdges, from)
  }

  /** Floating component i: tied to the grown main component when it has a candidate pair. */
  method ConnectNext(main: set<string>, floating: seq<set<string>>, table: map<string, Point>, hav: Metric,
                     ghost nodes: set<string>, i: nat, grown: set<string>,
                     virtualEdges: seq<Link>, virtualTracks: seq<TrackGeometry>, ghost from: seq<nat>)
    returns (grown': set<string>, virtualEdges': seq<Link>, virtualTracks': seq<TrackGeometry>, ghost from': seq<nat>)
    requires i < |floating| && floating[i] <= nodes
    requires EachState(main, floating, table, hav, nodes, i, grown, virtualEdges, virtualTracks, from)
    ensures EachState(main, floating, table, hav, nodes, i + 1, grown', virtualEdges', virtualTracks', from')
  {
    var best, minDist := ClosestPair(floating[i], grown, table, hav);
    if best.Some? {
      var m, f := best.value.mainId, best.value.floatingId;
      var e := Link(m, f, minDist, minDist / 1000.0, 0, 0, "VIRTUAL", "Virtual Connection");
      var t := TrackGeometry(m, f, [table[m], table[f]], 0, 0, "Virtual Connection", minDist / 1000.0);
      EachTie(main, floating, table, hav, nodes, i, grown, virtualEdges, virtualTracks, from, e, t);
      grown', virtualEdges', virtualTracks', from' := grown + floating[i], virtualEdges + [e], virtualTracks + [t], from + [i];
    } else {
      EachSkip(main, floating, table, hav, nodes, i, grown, virtualEdges, virtualTracks, from);
      grown', virtualEdges', virtualTracks', from' := grown, virtualEdges, virtualTracks, from;
    }
  }

  /** A component with a candidate pair adds its edge, its index and its nodes. */
  lemma {:induction false} EachTie(main: set<string>, floating: seq<set<string>>, table: map<string, Point>, hav: Metric,
                                   nodes: set<string>, i: nat, grown: set<string>,
                                   virtualEdges: seq<Link>, virtualTracks: seq<TrackGeometry>, from: seq<nat>,
                                   e: Link, t: TrackGeometry)
    requires i < |floating| && floating[i] <= nodes
    requires EachState(main, floating, table, hav, nodes, i, grown, virtualEdges, virtualTracks, from)
    requires Candidates(floating[i], grown, table) != {}
    requires Virtual(e, t, table, hav) && e.source in nodes && e.target in nodes
    requires Tied(e, floating[i], grown, table, hav)
    ensures EachState(main, floating, table, hav, nodes, i + 1, grown + floating[i],
                      virtualEdges + [e], virtualTracks + [t], from + [i])
  {
    assert GrownTo(main, floating, table, i + 1) == grown + floating[i];
    EdgesSnoc(table, hav, nodes, virtualEdges, virtualTracks, e, t);
    OrderSnoc(i, from);
    CoveredSnoc(main, floating, table, i, from);
    TiedSnoc(main, floating, table, hav, virtualEdges, from, i, e);
  }

  lemma {:induction false} EdgesSnoc(table: map<string, Point>, hav: Metric, nodes: set<string>,
                                     virtualEdges: seq<Link>, virtualTracks: seq<TrackGeometry>, e: Link, t: TrackGeometry)
    requires EachEdges(table, hav, nodes, virtualEdges, virtualTracks)
    requires Virtual(e, t, table, hav) && e.source in nodes && e.target in nodes
    ensures EachEdges(table, hav, nodes, virtualEdges + [e], virtualTracks + [t])
  {
    var edges', tracks' := virtualEdges + [e], virtualTracks + [t];
    forall k | 0 <= k < |edges'|
      ensures Virtual(edges'[k], tracks'[k], table, hav) && edges'[k].source in nodes && edges'[k].target in nodes
    {
      if k < |virtualEdges| {
        assert edges'[k] == virtualEdges[k] && tracks'[k] == virtualTracks[k];
      }
    }
  }

  lemma {:induction false} OrderSnoc(i: nat, from: seq<nat>)
    requires EachOrder(i, from)
    ensures EachOrder(i + 1, from + [i])
  {
    var from' := from + [i];
    forall k, k' | 0 <= k < k' < |from'| ensures from'[k] < from'[k'] {
      if k' < |from| {
        assert from'[k] == from[k] && from'[k'] == from[k'];
      }
    }
  }

  lemma {:induction false} CoveredSnoc(main: set<string>, floating: seq<set<string>>, table: map<string, Point>,
                                       i: nat, from: seq<nat>)
    requires i < |floating| && EachCovered(main, floating, table, i, from) && EachOrder(i, from)
    requires Candidates(floating[i], GrownTo(main, floating, table, i), table) != {}
    ensures EachCovered(main, floating, table, i + 1, from + [i])
  {
    var from' := from + [i];
    forall j | 0 <= j < i + 1
      ensures j in from' <==> Candidates(floating[j], GrownTo(main, floating, table, j), table) != {}
    {
      if j < i {
        assert j in from' <==> j in from;
      }
    }
  }

  lemma {:induction false} TiedSnoc(main: set<string>, floating: seq<set<string>>, table: map<string, Point>, hav: Metric,
                                    virtualEdges: seq<Link>, from: seq<nat>, i: nat, e: Link)
    requires EachTied(main, floating, table, hav, virtualEdges, from) && i < |floating|
    requires Tied(e, floating[i], GrownTo(main, floating, table, i), table, hav)
    ensures EachTied(main, floating, table, hav, virtualEdges + [e], from + [i])
  {
    var edges', from' := virtualEdges + [e], from + [i];
    forall k | 0 <= k < |from'|
      ensures from'[k] < |floating|
      ensures Tied(edges'[k], floating[from'[k]], GrownTo(main, floating, table, from'[k]), table, hav)
    {
      if k < |from| {
        assert edges'[k] == virtualEdges[k] && from'[k] == from[k];
      }
    }
  }

  /** A component without a candidate pair changes nothing. */
  lemma {:induction false} EachSkip(main: set<string>, floating: seq<set<string>>, table: map<string, Point>, hav: Metric,
                                    nodes: set<string>, i: nat, grown: set<string>,
                                    virtualEdges: seq<Link>, virtualTracks: seq<TrackGeometry>, from: seq<nat>)
    requires i < |floating|
    requires EachState(main, floating, table, hav, nodes, i, grown, virtualEdges, virtualTracks, from)
    requires Candidates(floating[i], grown, table) == {}
    ensures EachState(main, floating, table, hav, nodes, i + 1, grown, virtualEdges, virtualTracks, from)
  {
    assert GrownTo(main, floating, table, i + 1) == grown;
    assert i !in from;
  }

  /**
   * The loop over the floating components: each one that has a node with a known position is
   * tied to the closest node of the main component grown so far, and then joins it. Edge k comes
   * from floating component from[k], in the order of the components.
   */
  method ConnectEach(main: set<string>, floating: seq<set<string>>, table: map<string, Point>, hav: Metric,
                     ghost nodes: set<string>)
    returns (virtualEdges: seq<Link>, virtualTracks: seq<TrackGeometry>, ghost from: seq<nat>)
    requires main <= nodes && forall i :: 0 <= i < |floating| ==> floating[i] <= nodes
    ensures |virtualEdges| == |virtualTracks| == |from| <= |floating|
    ensures forall k :: 0 <= k < |virtualEdges| ==> Virtual(virtualEdges[k], virtualTracks[k], table, hav)
    ensures forall k :: 0 <= k < |virtualEdges| ==> virtualEdges[k].source in nodes && virtualEdges[k].target in nodes
    ensures forall k :: 0 <= k < |from| ==> from[k] < |floating|
    ensures forall k, k' :: 0 <= k < k' < |from| ==> from[k] < from[k']
    ensures forall i :: 0 <= i < |floating| ==>
      (i in from <==> Candidates(floating[i], GrownTo(main, floating, table, i), table) != {})
    ensures forall k :: 0 <= k < |from| ==>
      Tied(virtualEdges[k], floating[from[k]], GrownTo(main, floating, table, from[k]), table, hav)
  {
    var grown := main;
    virtualEdges, virtualTracks, from := [], [], [];
    for i := 0 to |floating|
      invariant EachState(main, floating, table, hav, nodes, i, grown, virtualEdges, virtualTracks, from)
    {
      grown, virtualEdges, virtualTracks, from := ConnectNext(main, floating, table, hav, nodes, i, grown, virtualEdges, virtualTracks, from);
    }
  }

  /**
   * components are the connected components of the edges: compOf gives every edge end its one
   * non-empty component, both ends of an edge share it, and only what the edges connect does.
   */
  ghost predicate ComponentsOf(edges: seq<Link>, components: seq<set<string>>, compOf: map<string, nat>) {
    && compOf.Keys == Endpoints(edges)
    && (forall x :: x in compOf ==> compOf[x] < |components| && x in components[compOf[x]])
    && (forall i, x :: 0 <= i < |components| && x in components[i] ==> x in compOf && compOf[x] == i)
    && (forall i :: 0 <= i < |components| ==> components[i] != {})
    && (forall k :: 0 <= k < |edges| ==>
          edges[k].source in compOf && edges[k].target in compOf && compOf[edges[k].source] == compOf[edges[k].target])
    && (forall tag, x, y :: Respects(tag, edges) && x in compOf && y in compOf && compOf[x] == compOf[y] ==>
          tag(x) == tag(y))
  }

  /**
   * main is empty when no component shares a node with the originals; otherwise it is the first
   * largest such component, at index at, and floating is what the selection loop leaves.
   */
  ghost predicate MainOf(components: seq<set<string>>, originals: set<string>, main: set<string>,
                         floating: seq<set<string>>, at: nat)
  {
    && (main * originals == {} <==> forall i :: 0 <= i < |components| ==> components[i] * originals == {})
    && (main * originals != {} ==>
          && at < |components| && main == components[at]
          && (forall i :: 0 <= i < |components| && components[i] * originals != {} ==> |components[i]| <= |main|)
          && (forall i :: 0 <= i < at && components[i] * originals != {} ==> |components[i]| < |main|)
          && multiset(floating) + multiset{main} == multiset(components)
          && Split(Some(main), at, floating) == MainSplit(components, originals))
  }

  /** The first half of connect_floating_subgraphs: the components and the choice of the main one. */
  method SplitComponents(existing: seq<NetNode>, edges: seq<Link>)
    returns (components: seq<set<string>>, main: set<string>, floating: seq<set<string>>,
             ghost compOf: map<string, nat>, ghost at: nat)
    ensures ComponentsOf(edges, components, compOf)
    ensures MainOf(components, OriginalIds(existing), main, floating, at)
    ensures main <= Endpoints(edges) && forall i :: 0 <= i < |floating| ==> floating[i] <= Endpoints(edges)
  {
    components, compOf := FindConnectedComponents(edges);
    var chosen;
    chosen, floating, at := SelectMain(components, OriginalIds(existing));
    if chosen.None? {
      main, floating := {}, [];
    } else {
      main := chosen.value;
      ComponentsWithin(components, compOf, Endpoints(edges));
      FloatingWithin(components, floating, main, Endpoints(edges));
    }
  }

  /**
   * connect_floating_subgraphs: the components of the merged network are split into the main one
   * and the floating ones, and each floating one is tied to the main one by a virtual edge.
   * Nothing is added when no component touches the original network. The ghost results are the
   * components with their index compOf, the main one at index at, the floating rest in the order
   * the selection leaves them, and for each virtual edge the floating component it comes from.
   */
  method ConnectFloatingSubgraphs(existing: seq<NetNode>, existingEdges: seq<Link>, newNodes: seq<NetNode>,
                                  newEdges: seq<Link>, hav: Metric)
    returns (virtualEdges: seq<Link>, virtualTracks: seq<TrackGeometry>,
             ghost components: seq<set<string>>, ghost main: set<string>, ghost floating: seq<set<string>>,
             ghost from: seq<nat>, ghost compOf: map<string, nat>, ghost at: nat)
    ensures ComponentsOf(existingEdges + newEdges, components, compOf)
    ensures MainOf(components, OriginalIds(existing), main, floating, at)
    ensures main * OriginalIds(existing) == {} ==> virtualEdges == [] && virtualTracks == []
    ensures |virtualEdges| == |virtualTracks| == |from|
    ensures forall k :: 0 <= k < |virtualEdges| ==> Virtual(virtualEdges[k], virtualTracks[k], NodeTable(existing + newNodes), hav)
    ensures forall k :: 0 <= k < |virtualEdges| ==>
      virtualEdges[k].source in Endpoints(existingEdges + newEdges) && virtualEdges[k].target in Endpoints(existingEdges + newEdges)
    ensures forall k, k' :: 0 <= k < k' < |from| ==> from[k] < from[k']
    ensures main * OriginalIds(existing) != {} ==> forall i :: 0 <= i < |floating| ==>
      (i in from <==> Candidates(floating[i], GrownTo(main, floating, NodeTable(existing + newNodes), i), NodeTable(existing + newNodes)) != {})
    ensures forall k :: 0 <= k < |from| ==>
      (from[k] < |floating| &&
       Tied(virtualEdges[k], floating[from[k]], GrownTo(main, floating, NodeTable(existing + newNodes), from[k]), NodeTable(existing + newNodes), hav))
  {
    var comps, chosen, rest;
    comps, chosen, rest, compOf, at := SplitComponents(existing, existingEdges + newEdges);
    components, main, floating := comps, chosen, rest;
    if chosen * OriginalIds(existing) == {} {
      return [], [], components, main, floating, [], compOf, at;
    }
    virtualEdges, virtualTracks, from := ConnectEach(chosen, rest, NodeTable(existing + newNodes), hav, Endpoints(existingEdges + newEdges));
  }
}
