/**
 * The one-off connectivity repair: a bridging edge between two named nodes of the network file,
 * with a straight two-point track, added unless the two nodes are already joined. The node ids
 * and the edge's year and builder are data of the repair (Ogema is the instance the pipeline
 * runs); the haversine distance is a Metric parameter.
 */
module Bridge {
  import opened Wrappers
  import opened Geometry
  import opened Merge
  import opened Components

  /** Which two nodes to join, and the year and builder the new edge records. */
  datatype BridgeSpec = BridgeSpec(a: string, b: string, builtYear: int, builderCode: string, builderName: string)

  /** The repair as the pipeline runs it: n557 (Ogema) to n577, built 1911 by the CPR (code 2). */
  const Ogema := BridgeSpec("n557", "n577", 1911, "2", "CPR")

  /** The contents of the network and track files that the repair rewrites. */
  datatype Files = Files(edges: seq<Link>, edgeCount: int, tracks: seq<TrackGeometry>)

  datatype Outcome = MissingNode | AlreadyPresent | Added

  predicate Present(edges: seq<Link>, a: string, b: string) {
    exists k :: 0 <= k < |edges| && Joins(edges[k], a, b)
  }

  /** The bridging edge between the positions pa of fix.a and pb of fix.b. */
  function BridgeEdge(fix: BridgeSpec, pa: Point, pb: Point, hav: Metric): (e: Link)
    ensures Joins(e, fix.a, fix.b) && e.source == fix.a && e.target == fix.b
    ensures e.lengthM == hav(pa, pb) && e.lengthKm == e.lengthM / 1000.0
  {
    Link(fix.a, fix.b, hav(pa, pb), hav(pa, pb) / 1000.0, fix.builtYear, 0, fix.builderCode, fix.builderName)
  }

  /** Its track: the two node positions, longitude first, in the edge's direction. */
  function BridgeTrack(fix: BridgeSpec, pa: Point, pb: Point, hav: Metric): (t: TrackGeometry)
    ensures t.source == BridgeEdge(fix, pa, pb, hav).source && t.target == BridgeEdge(fix, pa, pb, hav).target
    ensures t.coords == [pa, pb] && t.lengthKm == BridgeEdge(fix, pa, pb, hav).lengthKm
  {
    TrackGeometry(fix.a, fix.b, [pa, pb], fix.builtYear, 0, fix.builderName, hav(pa, pb) / 1000.0)
  }

  /**
   * What the repair does to the files: None when a node id is not in the network (the lookup
   * fails before anything is written); the files unchanged when the two nodes are already joined
   * in either orientation; otherwise one edge and one track appended and the edge count reset.
   */
  function Repaired(nodes: seq<NetNode>, files: Files, fix: BridgeSpec, hav: Metric): (r: Option<Files>)
    ensures r.None? <==> fix.a !in NodeTable(nodes) || fix.b !in NodeTable(nodes)
    ensures r.Some? ==> Present(r.value.edges, fix.a, fix.b)
    ensures r.Some? && Present(files.edges, fix.a, fix.b) ==> r.value == files
    ensures r.Some? && !Present(files.edges, fix.a, fix.b) ==>
      && |r.value.edges| == |files.edges| + 1 && r.value.edges[..|files.edges|] == files.edges
      && |r.value.tracks| == |files.tracks| + 1 && r.value.tracks[..|files.tracks|] == files.tracks
      && r.value.edgeCount == |r.value.edges|
  {
    var table := NodeTable(nodes);
    if fix.a !in table || fix.b !in table then None
    else if Present(files.edges, fix.a, fix.b) then Some(files)
    else
      var e := BridgeEdge(fix, table[fix.a], table[fix.b], hav);
      assert Joins((files.edges + [e])[|files.edges|], fix.a, fix.b);
      Some(Files(files.edges + [e], |files.edges| + 1, files.tracks + [BridgeTrack(fix, table[fix.a], table[fix.b], hav)]))
  }

  /** The appended edge and track are the bridge between the two nodes' looked-up positions. */
  lemma {:induction false} RepairedAppends(nodes: seq<NetNode>, files: Files, fix: BridgeSpec, hav: Metric)
    requires Repaired(nodes, files, fix, hav).Some? && !Present(files.edges, fix.a, fix.b)
    ensures var r := Repaired(nodes, files, fix, hav).value;
      var pa, pb := NodeTable(nodes)[fix.a], NodeTable(nodes)[fix.b];
      && r.edges[|files.edges|].source == fix.a && r.edges[|files.edges|].target == fix.b
      && r.edges[|files.edges|].lengthM == hav(pa, pb)
      && r.edges[|files.edges|].lengthKm == r.edges[|files.edges|].lengthM / 1000.0
      && r.tracks[|files.tracks|].coords == [pa, pb]
      && r.tracks[|files.tracks|].source == fix.a && r.tracks[|files.tracks|].target == fix.b
      && r.tracks[|files.tracks|].lengthKm == r.edges[|files.edges|].lengthKm
  {
  }

  /** Running the repair a second time changes nothing. */
  lemma {:induction false} RepairedIdempotent(nodes: seq<NetNode>, files: Files, fix: BridgeSpec, hav: Metric)
    requires Repaired(nodes, files, fix, hav).Some?
    ensures Repaired(nodes, Repaired(nodes, files, fix, hav).value, fix, hav) == Repaired(nodes, files, fix, hav)
  {
  }

  /** The two files the repair rewrites, together with the nodes it looks the ids up in. */
  class RailwayFiles {
    var nodes: seq<NetNode>
    var edges: seq<Link>
    var edgeCount: int
    var tracks: seq<TrackGeometry>

    function Contents(): Files
      reads this
    {
      Files(edges, edgeCount, tracks)
    }

    constructor (nodes: seq<NetNode>, edges: seq<Link>, edgeCount: int, tracks: seq<TrackGeometry>)
      ensures this.nodes == nodes && Contents() == Files(edges, edgeCount, tracks)
    {
      this.nodes, this.edges, this.edgeCount, this.tracks := nodes, edges, edgeCount, tracks;
    }

    /** The repair's main: look both nodes up, scan the edges, append edge and track. */
    method AddBridge(fix: BridgeSpec, hav: Metric) returns (outcome: Outcome)
      modifies this
      ensures nodes == old(nodes)
      ensures outcome == MissingNode <==> Repaired(nodes, old(Contents()), fix, hav).None?
      ensures outcome == AlreadyPresent <==> (Repaired(nodes, old(Contents()), fix, hav).Some? && Present(old(edges), fix.a, fix.b))
      ensures outcome == MissingNode ==> Contents() == old(Contents())
      ensures outcome != MissingNode ==> Some(Contents()) == Repaired(nodes, old(Contents()), fix, hav)
    {
      var table := NodeTable(nodes);
      if fix.a !in table || fix.b !in table {
        return MissingNode;
      }
      var pa, pb := table[fix.a], table[fix.b];
      var present := EdgeExists(edges, fix.a, fix.b);
      if present {
        return AlreadyPresent;
      }
      edges := edges + [BridgeEdge(fix, pa, pb, hav)];
      edgeCount := |edges|;
      tracks := tracks + [BridgeTrack(fix, pa, pb, hav)];
      outcome := Added;
    }
  }
}
