/**
 * Way assembly: the node list buildWay produces (resolved nodes with runs of
 * the same node collapsed) and the ways a multipolygon's rings produce.
 */
module Assembly {
  import opened Geometry
  import opened OsmData
  import opened Merging

  /** No two consecutive entries refer to the same node. */
  ghost predicate NoConsecutiveRepeats(s: seq<NodeId>)
  {
    forall i, j :: 0 <= i && j == i + 1 && j < |s| ==> s[i] != s[j]
  }

  /**
   * The node list of a way built from resolved nodes `s`: an entry is kept
   * when it differs from the entry before it (the previousNode test).
   */
  function Collapse(s: seq<NodeId>): (r: seq<NodeId>)
    ensures |r| <= |s|
    ensures forall x :: x in r <==> x in s
  {
    if s == [] then []
    else
      var n := |s| - 1;
      var front := Collapse(s[..n]);
      assert n > 0 ==> s[n - 1] in s[..n];
      if n > 0 && s[n] == s[n - 1] then front else front + [s[n]]
  }

  /** Collapsing keeps the first and the last entry. */
  lemma {:induction false} CollapseEnds(s: seq<NodeId>)
    requires |s| > 0
    ensures |Collapse(s)| > 0 && Collapse(s)[0] == s[0] && Collapse(s)[|Collapse(s)| - 1] == s[|s| - 1]
  {
    var n := |s| - 1;
    if n > 0 {
      CollapseEnds(s[..n]);
    } else {
      assert s[..n] == [];
    }
  }

  /** A collapsed node list has no consecutive repeats. */
  lemma {:induction false} CollapseRepeatFree(s: seq<NodeId>)
    ensures NoConsecutiveRepeats(Collapse(s))
  {
    if s != [] {
      var n := |s| - 1;
      CollapseRepeatFree(s[..n]);
      if n > 0 {
        CollapseEnds(s[..n]);
      }
    }
  }

  /** Collapse one entry further: the entry is dropped exactly when it repeats the last one. */
  lemma CollapseSnoc(s: seq<NodeId>, x: NodeId)
    ensures Collapse(s + [x]) == if |s| > 0 && s[|s| - 1] == x then Collapse(s) else Collapse(s) + [x]
  {
    assert (s + [x])[..|s|] == s;
  }

  /** A reference definition of "adjacent duplicates removed", scanning from the front. */
  function RemoveAdjacentDuplicates(s: seq<NodeId>): seq<NodeId>
  {
    if |s| <= 1 then s
    else if s[0] == s[1] then RemoveAdjacentDuplicates(s[1..])
    else [s[0]] + RemoveAdjacentDuplicates(s[1..])
  }

  /** Collapse seen from the front: a leading entry is dropped exactly when the next one repeats it. */
  lemma {:induction false} CollapseCons(x: NodeId, t: seq<NodeId>)
    ensures Collapse([x] + t) == if t != [] && t[0] == x then Collapse(t) else [x] + Collapse(t)
  {
    var s := [x] + t;
    if t == [] {
      assert s[..0] == [];
    } else {
      var n := |t| - 1;
      assert s[..|s| - 1] == [x] + t[..n];
      assert s[|s| - 1] == t[n];
      if n == 0 {
        assert [x] + t[..n] == [x];
        assert Collapse([x]) == [x] by { assert [x][..0] == []; }
        assert t[..0] == [];
        assert Collapse(t) == [t[0]] by { assert t == [t[0]]; }
      } else {
        CollapseCons(x, t[..n]);
        assert t[..n][0] == t[0];
        assert s[|s| - 2] == t[n - 1];
      }
    }
  }

  /** buildWay's node list is the resolved-node sequence with adjacent duplicates removed. */
  lemma {:induction false} CollapseRemovesAdjacentDuplicates(s: seq<NodeId>)
    ensures Collapse(s) == RemoveAdjacentDuplicates(s)
  {
    if |s| == 1 {
      assert s[..0] == [];
    } else if |s| > 1 {
      CollapseRemovesAdjacentDuplicates(s[1..]);
      CollapseCons(s[0], s[1..]);
      assert [s[0]] + s[1..] == s;
    }
  }

  /** A node list with no consecutive repeats is kept as it is, so collapsing twice is collapsing once. */
  lemma {:induction false} CollapseKeepsRepeatFree(s: seq<NodeId>)
    requires NoConsecutiveRepeats(s)
    ensures Collapse(s) == s
  {
    if s != [] {
      var n := |s| - 1;
      CollapseKeepsRepeatFree(s[..n]);
      assert s[..n] + [s[n]] == s;
    }
  }

  lemma CollapseIdempotent(s: seq<NodeId>)
    ensures Collapse(Collapse(s)) == Collapse(s)
  {
    CollapseRepeatFree(s);
    CollapseKeepsRepeatFree(Collapse(s));
  }

  lemma ResolvedStored(nodes: seq<Node>, locs: seq<LatLon>)
    ensures forall x :: x in ResolveAll(nodes, locs).0 ==> x < |ResolveAll(nodes, locs).1|
  {
    var (ids, after) := ResolveAll(nodes, locs);
    ResolveAllFirst(nodes, locs);
    forall x | x in ids ensures x < |after| {
      var k :| 0 <= k < |ids| && ids[k] == x;
      assert IsFirstAt(after, ids[k], locs[k]);
    }
  }

  lemma CollapseStored(ids: seq<NodeId>, count: nat)
    requires forall x :: x in ids ==> x < count
    ensures WayRefsIn(Way(Collapse(ids)), count)
  {
    var r := Collapse(ids);
    forall k | 0 <= k < |r| ensures r[k] < count {
      assert r[k] in r;
    }
  }

  /** The way buildWay makes from locations `locs`, and the node store afterwards. */
  function WayOf(nodes: seq<Node>, locs: seq<LatLon>): (r: (Way, seq<Node>))
    ensures WayRefsIn(r.0, |r.1|)
  {
    var (ids, after) := ResolveAll(nodes, locs);
    ResolvedStored(nodes, locs);
    CollapseStored(ids, |after|);
    (Way(Collapse(ids)), after)
  }

  /**
   * Ring closure: a ring whose first and last coordinates are equal gives a
   * way whose first and last node references are the same node.
   */
  lemma RingClosure(t: Transform, nodes: seq<Node>, ring: seq<Coordinate>)
    requires |ring| > 0 && ring[0] == ring[|ring| - 1]
    ensures var w := WayOf(nodes, Locations(t, ring)).0;
      |w.nodes| > 0 && w.nodes[0] == w.nodes[|w.nodes| - 1]
  {
    SameNodeIffSameLocation(nodes, Locations(t, ring), 0, |ring| - 1);
    CollapseEnds(ResolveAll(nodes, Locations(t, ring)).0);
  }

  /** The ways built for `rings`, one after the other, and the node store afterwards. */
  function BuildRings(t: Transform, nodes: seq<Node>, rings: seq<Ring>): (r: (seq<Way>, seq<Node>))
    ensures |r.0| == |rings|
    ensures nodes <= r.1
    ensures forall k :: 0 <= k < |rings| ==> WayRefsIn(r.0[k], |r.1|)
  {
    if rings == [] then ([], nodes)
    else
      var n := |rings| - 1;
      var (ways, mid) := BuildRings(t, nodes, rings[..n]);
      var (way, after) := WayOf(mid, Locations(t, rings[n].coordinates));
      (ways + [way], after)
  }

  /** BuildRings one ring further. */
  lemma BuildRingsSnoc(t: Transform, nodes: seq<Node>, rings: seq<Ring>, ring: Ring)
    ensures var (ways, mid) := BuildRings(t, nodes, rings);
      var (way, after) := WayOf(mid, Locations(t, ring.coordinates));
      BuildRings(t, nodes, rings + [ring]) == (ways + [way], after)
  {
    assert (rings + [ring])[..|rings|] == rings;
  }

  /** Splitting off the last element of the right operand of a concatenation. */
  lemma SplitLast<T>(a: seq<T>, b: seq<T>)
    requires |b| > 0
    ensures a + b == (a + b[..|b| - 1]) + [b[|b| - 1]]
  {
  }

  /** Building `a + b` builds the ways of `a`, then the ways of `b` over the store `a` left. */
  lemma {:induction false} BuildRingsAppend(t: Transform, nodes: seq<Node>, a: seq<Ring>, b: seq<Ring>)
    ensures var (waysA, mid) := BuildRings(t, nodes, a);
      var (waysB, after) := BuildRings(t, mid, b);
      BuildRings(t, nodes, a + b) == (waysA + waysB, after)
  {
    var (waysA, mid) := BuildRings(t, nodes, a);
    if b == [] {
      assert a + b == a;
      assert BuildRings(t, mid, b) == ([], mid);
      assert waysA + [] == waysA;
    } else {
      var n := |b| - 1;
      var (waysInit, midB) := BuildRings(t, mid, b[..n]);
      var (way, after) := WayOf(midB, Locations(t, b[n].coordinates));
      assert BuildRings(t, nodes, a + b) == (waysA + waysInit + [way], after) by {
        BuildRingsAppend(t, nodes, a, b[..n]);
        SplitLast(a, b);
        BuildRingsSnoc(t, nodes, a + b[..n], b[n]);
      }
      assert BuildRings(t, mid, b) == (waysInit + [way], after) by {
        SplitLast([], b);
        assert [] + b == b;
        BuildRingsSnoc(t, mid, b[..n], b[n]);
      }
      assert waysA + waysInit + [way] == waysA + (waysInit + [way]);
    }
  }

  /** Building a prefix of the rings builds a prefix of the ways, over a prefix of the final store. */
  lemma {:induction false} BuildRingsPrefix(t: Transform, nodes: seq<Node>, rings: seq<Ring>, k: nat)
    requires k <= |rings|
    ensures BuildRings(t, nodes, rings[..k]).0 == BuildRings(t, nodes, rings).0[..k]
    ensures BuildRings(t, nodes, rings[..k]).1 <= BuildRings(t, nodes, rings).1
  {
    if k < |rings| {
      var n := |rings| - 1;
      assert rings[..n][..k] == rings[..k];
      BuildRingsPrefix(t, nodes, rings[..n], k);
      var ways := BuildRings(t, nodes, rings).0;
      assert ways[..n] == BuildRings(t, nodes, rings[..n]).0;
      assert ways[..n][..k] == ways[..k];
    } else {
      assert rings[..k] == rings;
    }
  }

  /**
   * Building the first ring's way again after all the rings gives the same
   * way once more and adds no node: every coordinate merges with the node it
   * resolved to the first time.
   */
  lemma RebuildFirstRing(t: Transform, nodes: seq<Node>, rings: seq<Ring>)
    requires |rings| > 0
    ensures var (ways, after) := BuildRings(t, nodes, rings);
      WayOf(after, Locations(t, rings[0].coordinates)) == (ways[0], after)
  {
    var (ways, after) := BuildRings(t, nodes, rings);
    BuildRingsPrefix(t, nodes, rings, 1);
    assert rings[..1] == [] + [rings[0]];
    assert rings[..1][..0] == [];
    var locs := Locations(t, rings[0].coordinates);
    var (ids, first) := ResolveAll(nodes, locs);
    assert BuildRings(t, nodes, rings[..1]).1 == first;
    ResolveAllFirst(nodes, locs);
    PrefixKeepsFirst(first, after, ids, locs);
    ResolveAllReplay(after, locs, ids);
  }

  /** All coordinates of the rings, ring after ring. */
  function RingCoordinates(rings: seq<Ring>): seq<Coordinate>
  {
    if rings == [] then [] else RingCoordinates(rings[..|rings| - 1]) + rings[|rings| - 1].coordinates
  }

  /** Building the rings leaves the node store that merging all their coordinates in order would. */
  lemma {:induction false} BuildRingsNodes(t: Transform, nodes: seq<Node>, rings: seq<Ring>)
    ensures BuildRings(t, nodes, rings).1 == ResolveAll(nodes, Locations(t, RingCoordinates(rings))).1
  {
    if rings != [] {
      var n := |rings| - 1;
      BuildRingsNodes(t, nodes, rings[..n]);
      LocationsAppend(t, RingCoordinates(rings[..n]), rings[n].coordinates);
      ResolveAllAppend(nodes, Locations(t, RingCoordinates(rings[..n])), Locations(t, rings[n].coordinates));
    }
  }

  /** Every way built from rings is free of consecutive repeated nodes. */
  lemma {:induction false} BuildRingsRepeatFree(t: Transform, nodes: seq<Node>, rings: seq<Ring>)
    ensures forall k :: 0 <= k < |rings| ==> NoConsecutiveRepeats(BuildRings(t, nodes, rings).0[k].nodes)
  {
    if rings != [] {
      var n := |rings| - 1;
      BuildRingsRepeatFree(t, nodes, rings[..n]);
      var mid := BuildRings(t, nodes, rings[..n]).1;
      CollapseRepeatFree(ResolveAll(mid, Locations(t, rings[n].coordinates)).0);
    }
  }

  /** The square of the closed-ring example. */
  function Square(): seq<Coordinate>
  {
    [Coordinate(0.0, 0.0), Coordinate(0.0, 10.0), Coordinate(10.0, 10.0), Coordinate(10.0, 0.0), Coordinate(0.0, 0.0)]
  }

  /**
   * A closed ring of four corners, consecutive corners apart and opposite
   * corners apart, into an empty store: a way of five entries whose first and
   * last are the same node, over four distinct nodes.
   */
  lemma {:induction false} ClosedQuadrilateral(locs: seq<LatLon>)
    requires |locs| == 5 && locs[0] == locs[4]
    requires forall k :: 0 < k < 5 ==> locs[k - 1] != locs[k]
    requires locs[0] != locs[2] && locs[1] != locs[3]
    ensures var (w, after) := WayOf([], locs);
      |w.nodes| == 5 && w.nodes[0] == w.nodes[4] && |after| == 4
  {
    var ids := ResolveAll([], locs).0;
    forall k | 0 < k < 5 ensures ids[k - 1] != ids[k] {
      SameNodeIffSameLocation([], locs, k - 1, k);
    }
    SameNodeIffSameLocation([], locs, 0, 4);
    CollapseKeepsRepeatFree(ids);
    NodeCountIsDistinctLocations(locs);
    assert Seen(locs) == {locs[0], locs[1], locs[2], locs[3]};
  }

  /** The square under the identity transform has the corner locations, axes swapped. */
  lemma SquareLocations()
    ensures Locations(c => c, Square())
         == [LatLon(0.0, 0.0), LatLon(10.0, 0.0), LatLon(10.0, 10.0), LatLon(0.0, 10.0), LatLon(0.0, 0.0)]
  {
  }

  /** The closed square of the example: five way entries, the first equal to the last, four nodes. */
  lemma SquareExample()
    ensures var (w, after) := WayOf([], Locations(c => c, Square()));
      |w.nodes| == 5 && w.nodes[0] == w.nodes[4] && |after| == 4
  {
    SquareLocations();
    ClosedQuadrilateral(Locations(c => c, Square()));
  }

  /**
   * Runs of repeated locations a,a,b,b,b,c (neighbouring runs apart) give a way
   * of three nodes, one per run, in input order, with no consecutive repeat.
   */
  lemma {:induction false} ThreeRuns(nodes: seq<Node>, locs: seq<LatLon>)
    requires |locs| == 6 && locs[0] == locs[1] && locs[2] == locs[3] == locs[4]
    requires locs[1] != locs[2] && locs[4] != locs[5]
    ensures var ids := ResolveAll(nodes, locs).0;
      WayOf(nodes, locs).0.nodes == [ids[0], ids[2], ids[5]]
  {
    var ids := ResolveAll(nodes, locs).0;
    SameNodeIffSameLocation(nodes, locs, 0, 1);
    SameNodeIffSameLocation(nodes, locs, 1, 2);
    SameNodeIffSameLocation(nodes, locs, 2, 3);
    SameNodeIffSameLocation(nodes, locs, 3, 4);
    SameNodeIffSameLocation(nodes, locs, 4, 5);
    var x, y, z := ids[0], ids[2], ids[5];
    assert ids == [x, x, y, y, y, z];
    assert WayOf(nodes, locs).0.nodes == Collapse(ids);
    CollapseRemovesAdjacentDuplicates(ids);
    assert RemoveAdjacentDuplicates([y, z]) == [y, z] by { assert [y, z][1..] == [z]; }
    assert RemoveAdjacentDuplicates([y, y, z]) == [y, z] by { assert [y, y, z][1..] == [y, z]; }
    assert RemoveAdjacentDuplicates([y, y, y, z]) == [y, z] by { assert [y, y, y, z][1..] == [y, y, z]; }
    assert RemoveAdjacentDuplicates([x, y, y, y, z]) == [x, y, z] by { assert [x, y, y, y, z][1..] == [y, y, y, z]; }
    assert RemoveAdjacentDuplicates(ids) == [x, y, z] by { assert ids[1..] == [x, y, y, y, z]; }
  }

  /** The coordinates of the de-duplication example. */
  function Runs(): seq<Coordinate>
  {
    [Coordinate(0.0, 0.0), Coordinate(0.0, 0.0), Coordinate(1.0, 1.0),
     Coordinate(1.0, 1.0), Coordinate(1.0, 1.0), Coordinate(2.0, 2.0)]
  }

  /**
   * The de-duplication example under the identity transform, into an empty
   * store: a way of three distinct nodes, no two consecutive entries equal.
   */
  lemma DeduplicationExample()
    ensures var w := WayOf([], Locations(c => c, Runs())).0;
      |w.nodes| == 3 && NoConsecutiveRepeats(w.nodes) && w.nodes[0] != w.nodes[2]
  {
    var locs := Locations(c => c, Runs());
    assert locs == [LatLon(0.0, 0.0), LatLon(0.0, 0.0), LatLon(1.0, 1.0), LatLon(1.0, 1.0), LatLon(1.0, 1.0), LatLon(2.0, 2.0)];
    ThreeRuns([], locs);
    SameNodeIffSameLocation([], locs, 0, 5);
    CollapseRepeatFree(ResolveAll([], locs).0);
  }
}
