/**
 * Node merging: how buildNode turns a coordinate into a node of the DataSet,
 * stated over the DataSet's sequence of nodes.
 */
module Merging {
  import opened Geometry
  import opened OsmData

  /** The node location for `c`: the transformed coordinate with its axes swapped (lat = y, lon = x). */
  function Location(t: Transform, c: Coordinate): (r: LatLon)
    ensures Coordinate(r.lon, r.lat) == t(c)
  {
    var target := t(c);
    LatLon(target.y, target.x)
  }

  /** The locations of a coordinate sequence, in order. */
  function Locations(t: Transform, cs: seq<Coordinate>): (r: seq<LatLon>)
    ensures |r| == |cs|
    ensures forall k :: 0 <= k < |cs| ==> r[k] == Location(t, cs[k])
  {
    seq(|cs|, k requires 0 <= k < |cs| => Location(t, cs[k]))
  }

  lemma LocationsPrefix(t: Transform, cs: seq<Coordinate>, i: nat)
    requires i < |cs|
    ensures Locations(t, cs[..i + 1]) == Locations(t, cs[..i]) + [Location(t, cs[i])]
  {
  }

  lemma LocationsAppend(t: Transform, a: seq<Coordinate>, b: seq<Coordinate>)
    ensures Locations(t, a + b) == Locations(t, a) + Locations(t, b)
  {
  }

  /**
   * One node resolution against the stored `nodes`: with `merge` set and a
   * node already at `loc`, the first such node and an unchanged store;
   * otherwise a new node at `loc`, appended.
   */
  function ResolveNode(nodes: seq<Node>, loc: LatLon, merge: bool): (r: (NodeId, seq<Node>))
    ensures || (merge && r.1 == nodes && r.0 < |nodes| && nodes[r.0].coor == loc)
            || r == (|nodes|, nodes + [Node(loc)])
  {
    NodesAtSpec(nodes, loc);
    var existing := NodesAt(nodes, loc);
    if merge && |existing| > 0 then (existing[0], nodes)
    else (|nodes|, nodes + [Node(loc)])
  }

  /** With merging on and a node already at the location: that node (the earliest one), and nothing is inserted. */
  lemma ResolveExisting(nodes: seq<Node>, loc: LatLon, i: NodeId)
    requires i < |nodes| && nodes[i].coor == loc
    ensures var (n, after) := ResolveNode(nodes, loc, true);
      after == nodes && IsFirstAt(nodes, n, loc) && n <= i
  {
    NodesAtFirst(nodes, loc);
  }

  /** With merging on and no node at the location: a new node there, appended. */
  lemma ResolveAbsent(nodes: seq<Node>, loc: LatLon)
    requires forall i :: 0 <= i < |nodes| ==> nodes[i].coor != loc
    ensures ResolveNode(nodes, loc, true) == (|nodes|, nodes + [Node(loc)])
  {
    NodesAtFirst(nodes, loc);
  }

  /** Without merging a new node is always appended, even when the location is taken. */
  lemma ResolveNoMerge(nodes: seq<Node>, loc: LatLon)
    ensures var (n, after) := ResolveNode(nodes, loc, false);
      n == |nodes| && after == nodes + [Node(loc)] && |after| == |nodes| + 1
  {
  }

  /** Whatever the flag, the result is a stored node at `loc`, the store only grows at its end, and by at most one node. */
  lemma ResolveSound(nodes: seq<Node>, loc: LatLon, merge: bool)
    ensures var (n, after) := ResolveNode(nodes, loc, merge);
      n < |after| && after[n].coor == loc && nodes <= after && |after| <= |nodes| + 1
  {
    NodesAtSpec(nodes, loc);
  }

  /** Merge idempotence: resolving the same location twice gives the same node and inserts at most one node. */
  lemma {:induction false} MergeIdempotent(nodes: seq<Node>, loc: LatLon)
    ensures var (n1, after1) := ResolveNode(nodes, loc, true);
      var (n2, after2) := ResolveNode(after1, loc, true);
      n2 == n1 && after2 == after1 && |after2| <= |nodes| + 1
  {
    var (n1, after1) := ResolveNode(nodes, loc, true);
    NodesAtFirst(nodes, loc);
    NodesAtFirst(after1, loc);
    ResolveSound(nodes, loc, true);
    assert IsFirstAt(after1, n1, loc);
  }

  /** No-merge distinctness: two resolutions without merging give two different nodes. */
  lemma NoMergeDistinct(nodes: seq<Node>, loc: LatLon)
    ensures var (n1, after1) := ResolveNode(nodes, loc, false);
      var (n2, after2) := ResolveNode(after1, loc, false);
      n1 != n2 && |after2| == |nodes| + 2
  {
  }

  /**
   * buildNode with merging over a whole coordinate sequence, left to right:
   * the resolved node of each location, and the store afterwards.
   */
  function ResolveAll(nodes: seq<Node>, locs: seq<LatLon>): (r: (seq<NodeId>, seq<Node>))
    ensures |r.0| == |locs|
    ensures nodes <= r.1 && |r.1| <= |nodes| + |locs|
  {
    if locs == [] then ([], nodes)
    else
      var n := |locs| - 1;
      var (ids, mid) := ResolveAll(nodes, locs[..n]);
      var (id, after) := ResolveNode(mid, locs[n], true);
      (ids + [id], after)
  }

  /** Each coordinate resolves to the earliest node at its location in the store afterwards. */
  lemma {:induction false} ResolveAllFirst(nodes: seq<Node>, locs: seq<LatLon>)
    ensures forall k :: 0 <= k < |locs| ==> IsFirstAt(ResolveAll(nodes, locs).1, ResolveAll(nodes, locs).0[k], locs[k])
  {
    if locs != [] {
      var n := |locs| - 1;
      var (ids, mid) := ResolveAll(nodes, locs[..n]);
      ResolveAllFirst(nodes, locs[..n]);
      NodesAtFirst(mid, locs[n]);
      var (id, after) := ResolveNode(mid, locs[n], true);
      PrefixKeepsFirst(mid, after, ids, locs[..n]);
    }
  }

  /** ResolveAll one location further. */
  lemma ResolveAllSnoc(nodes: seq<Node>, locs: seq<LatLon>, l: LatLon)
    ensures var (ids, mid) := ResolveAll(nodes, locs);
      var (id, after) := ResolveNode(mid, l, true);
      ResolveAll(nodes, locs + [l]) == (ids + [id], after)
  {
    assert (locs + [l])[..|locs|] == locs;
  }

  /** Appending nodes keeps the earliest node at a location the earliest. */
  lemma PrefixKeepsFirst(before: seq<Node>, after: seq<Node>, ids: seq<NodeId>, locs: seq<LatLon>)
    requires before <= after && |ids| == |locs|
    requires forall k :: 0 <= k < |locs| ==> IsFirstAt(before, ids[k], locs[k])
    ensures forall k :: 0 <= k < |locs| ==> IsFirstAt(after, ids[k], locs[k])
  {
    forall k | 0 <= k < |locs| ensures IsFirstAt(after, ids[k], locs[k]) {
      assert IsFirstAt(before, ids[k], locs[k]);
      forall j | 0 <= j < ids[k] ensures after[j].coor != locs[k] {
        assert after[j] == before[j];
      }
    }
  }

  /** Two coordinates resolve to the same node exactly when they have the same location. */
  lemma SameNodeIffSameLocation(nodes: seq<Node>, locs: seq<LatLon>, i: nat, j: nat)
    requires i < |locs| && j < |locs|
    ensures ResolveAll(nodes, locs).0[i] == ResolveAll(nodes, locs).0[j] <==> locs[i] == locs[j]
  {
    var (ids, after) := ResolveAll(nodes, locs);
    ResolveAllFirst(nodes, locs);
    assert IsFirstAt(after, ids[i], locs[i]);
    assert IsFirstAt(after, ids[j], locs[j]);
  }

  /** Resolving a sequence in two parts is resolving it in one. */
  lemma {:induction false} ResolveAllAppend(nodes: seq<Node>, a: seq<LatLon>, b: seq<LatLon>)
    ensures var (ia, mid) := ResolveAll(nodes, a);
      var (ib, after) := ResolveAll(mid, b);
      ResolveAll(nodes, a + b) == (ia + ib, after)
  {
    if b == [] {
      assert a + b == a;
      var (ia, mid) := ResolveAll(nodes, a);
      assert ia + [] == ia;
    } else {
      var n := |b| - 1;
      assert (a + b)[..|a + b| - 1] == a + b[..n];
      assert (a + b)[|a + b| - 1] == b[n];
      ResolveAllAppend(nodes, a, b[..n]);
      var (ia, mid) := ResolveAll(nodes, a);
      var (ib, mid2) := ResolveAll(mid, b[..n]);
      var (id, after) := ResolveNode(mid2, b[n], true);
      assert ResolveAll(mid, b) == (ib + [id], after);
      assert ResolveAll(nodes, a + b) == (ia + ib + [id], after);
      assert ia + ib + [id] == ia + (ib + [id]);
    }
  }

  /**
   * Replaying a resolved sequence against any later store: every location
   * already has its node, so the same nodes come back and nothing is inserted.
   */
  lemma {:induction false} ResolveAllReplay(later: seq<Node>, locs: seq<LatLon>, ids: seq<NodeId>)
    requires |ids| == |locs|
    requires forall k :: 0 <= k < |locs| ==> IsFirstAt(later, ids[k], locs[k])
    ensures ResolveAll(later, locs) == (ids, later)
  {
    if locs != [] {
      var n := |locs| - 1;
      ResolveAllReplay(later, locs[..n], ids[..n]);
      NodesAtFirst(later, locs[n]);
      assert ids[..n] + [ids[n]] == ids;
    }
  }

  /** The set of node locations. */
  ghost function LocationSet(nodes: seq<Node>): set<LatLon>
  {
    set i | 0 <= i < |nodes| :: nodes[i].coor
  }

  /** No two stored nodes share a location. */
  ghost predicate DistinctLocations(nodes: seq<Node>)
  {
    forall i, j :: 0 <= i < j < |nodes| ==> nodes[i].coor != nodes[j].coor
  }

  /** The set of locations in a sequence. */
  ghost function Seen(locs: seq<LatLon>): set<LatLon>
  {
    set l | l in locs
  }

  /** One merging resolution adds its location to the store's locations and keeps them distinct. */
  lemma ResolveNodeLocations(nodes: seq<Node>, loc: LatLon)
    ensures LocationSet(ResolveNode(nodes, loc, true).1) == LocationSet(nodes) + {loc}
    ensures DistinctLocations(nodes) ==> DistinctLocations(ResolveNode(nodes, loc, true).1)
  {
    var after := ResolveNode(nodes, loc, true).1;
    NodesAtFirst(nodes, loc);
    if |NodesAt(nodes, loc)| > 0 {
      assert loc in LocationSet(nodes);
    } else {
      assert after == nodes + [Node(loc)];
      forall l | l in LocationSet(after) ensures l in LocationSet(nodes) + {loc} {
        var i :| 0 <= i < |after| && after[i].coor == l;
        if i < |nodes| { assert nodes[i] == after[i]; }
      }
      assert after[|nodes|].coor == loc;
      forall l | l in LocationSet(nodes) ensures l in LocationSet(after) {
        var i :| 0 <= i < |nodes| && nodes[i].coor == l;
        assert after[i] == nodes[i];
      }
    }
  }

  /**
   * Merging keeps a store free of coincident nodes, and the store afterwards
   * holds exactly the old locations and the new ones.
   */
  lemma {:induction false} ResolveAllLocations(nodes: seq<Node>, locs: seq<LatLon>)
    ensures LocationSet(ResolveAll(nodes, locs).1) == LocationSet(nodes) + Seen(locs)
    ensures DistinctLocations(nodes) ==> DistinctLocations(ResolveAll(nodes, locs).1)
  {
    if locs != [] {
      var n := |locs| - 1;
      var mid := ResolveAll(nodes, locs[..n]).1;
      ResolveAllLocations(nodes, locs[..n]);
      ResolveNodeLocations(mid, locs[n]);
      assert ResolveAll(nodes, locs).1 == ResolveNode(mid, locs[n], true).1;
      assert locs == locs[..n] + [locs[n]];
      assert Seen(locs) == Seen(locs[..n]) + {locs[n]};
    }
  }

  lemma {:induction false} DistinctCount(nodes: seq<Node>)
    requires DistinctLocations(nodes)
    ensures |LocationSet(nodes)| == |nodes|
  {
    if nodes != [] {
      var n := |nodes| - 1;
      DistinctCount(nodes[..n]);
      assert LocationSet(nodes) == LocationSet(nodes[..n]) + {nodes[n].coor} by {
        forall l | l in LocationSet(nodes) ensures l in LocationSet(nodes[..n]) + {nodes[n].coor} {
          var i :| 0 <= i < |nodes| && nodes[i].coor == l;
          if i < n { assert nodes[..n][i] == nodes[i]; }
        }
      }
      assert nodes[n].coor !in LocationSet(nodes[..n]);
    }
  }

  /**
   * Resolving with merging into an empty store creates exactly one node per
   * distinct location.
   */
  lemma NodeCountIsDistinctLocations(locs: seq<LatLon>)
    ensures |ResolveAll([], locs).1| == |Seen(locs)|
  {
    ResolveAllLocations([], locs);
    DistinctCount(ResolveAll([], locs).1);
    assert LocationSet([]) == {};
  }

  /** The example of an identity transform: (12.5, 47.3) gives latitude 47.3 and longitude 12.5. */
  lemma IdentityTransformAxisSwap()
    ensures Location(c => c, Coordinate(12.5, 47.3)) == LatLon(47.3, 12.5)
  {
  }
}
