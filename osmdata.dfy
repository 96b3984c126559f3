/**
 * The JOSM data model as the factory uses it: a DataSet that stores nodes,
 * ways and relations and answers point queries over its nodes.
 *
 * Primitives are never removed, so a primitive's identity is its index in
 * the DataSet's sequence of that kind: NodeId i is nodes[i], and so on.
 */
module OsmData {

  /** A location in the target reference system (WGS84), latitude first. */
  datatype LatLon = LatLon(lat: real, lon: real)

  type NodeId = nat
  type WayId = nat
  type RelationId = nat

  datatype Node = Node(coor: LatLon)

  /** A way is an ordered sequence of references to stored nodes. */
  datatype Way = Way(nodes: seq<NodeId>)

  datatype RelationMember = RelationMember(role: string, way: WayId)

  datatype Relation = Relation(members: seq<RelationMember>, tags: map<string, string>)

  /** The JOSM OsmPrimitive a builder hands back. */
  datatype PrimitiveRef = NodeRef(node: NodeId) | WayRef(way: WayId) | RelationRef(relation: RelationId)

  /**
   * The nodes a zero-extent bounding box around `loc` finds: the indices of
   * the stored nodes at exactly that location, in store order.
   */
  function NodesAt(nodes: seq<Node>, loc: LatLon): (r: seq<NodeId>)
    ensures |r| <= |nodes|
  {
    if nodes == [] then []
    else
      var n := |nodes| - 1;
      NodesAt(nodes[..n], loc) + (if nodes[n].coor == loc then [n] else [])
  }

  /**
   * The query finds exactly the stored nodes at `loc`: every index it returns
   * is a stored node there, every stored node there is returned, and the
   * indices come in increasing (store) order.
   */
  lemma {:induction false} NodesAtSpec(nodes: seq<Node>, loc: LatLon)
    ensures forall k :: 0 <= k < |NodesAt(nodes, loc)| ==> NodesAt(nodes, loc)[k] < |nodes| && nodes[NodesAt(nodes, loc)[k]].coor == loc
    ensures forall i :: 0 <= i < |nodes| && nodes[i].coor == loc ==> i in NodesAt(nodes, loc)
    ensures forall k, m :: 0 <= k < m < |NodesAt(nodes, loc)| ==> NodesAt(nodes, loc)[k] < NodesAt(nodes, loc)[m]
  {
    if nodes != [] {
      var n := |nodes| - 1;
      NodesAtSpec(nodes[..n], loc);
      var front := NodesAt(nodes[..n], loc);
      var r := NodesAt(nodes, loc);
      assert r == front + (if nodes[n].coor == loc then [n] else []);
      forall i | 0 <= i < |nodes| && nodes[i].coor == loc
        ensures i in r
      {
        if i < n {
          assert nodes[..n][i] == nodes[i];
          assert i in front;
        } else {
          assert r[|r| - 1] == n;
        }
      }
      forall k | 0 <= k < |r|
        ensures r[k] < |nodes| && nodes[r[k]].coor == loc
      {
        if k < |front| {
          assert r[k] == front[k];
          assert nodes[..n][front[k]] == nodes[front[k]];
        }
      }
    }
  }

  /** `i` is the earliest stored node at `loc`. */
  ghost predicate IsFirstAt(nodes: seq<Node>, i: NodeId, loc: LatLon)
  {
    i < |nodes| && nodes[i].coor == loc && forall j :: 0 <= j < i ==> nodes[j].coor != loc
  }

  /** The first node the query returns is the earliest stored node at `loc`; the query is empty exactly when no node is there. */
  lemma NodesAtFirst(nodes: seq<Node>, loc: LatLon)
    ensures |NodesAt(nodes, loc)| == 0 <==> forall i :: 0 <= i < |nodes| ==> nodes[i].coor != loc
    ensures |NodesAt(nodes, loc)| > 0 ==> IsFirstAt(nodes, NodesAt(nodes, loc)[0], loc)
  {
    NodesAtSpec(nodes, loc);
  }

  /** Referential integrity: ways refer to stored nodes and relation members to stored ways. */
  ghost predicate WellFormed(nodes: seq<Node>, ways: seq<Way>, relations: seq<Relation>)
  {
    && (forall w :: 0 <= w < |ways| ==> WayRefsIn(ways[w], |nodes|))
    && (forall r :: 0 <= r < |relations| ==> MembersIn(relations[r], |ways|))
  }

  ghost predicate WayRefsIn(w: Way, nodeCount: nat)
  {
    forall k :: 0 <= k < |w.nodes| ==> w.nodes[k] < nodeCount
  }

  ghost predicate MembersIn(r: Relation, wayCount: nat)
  {
    forall k :: 0 <= k < |r.members| ==> r.members[k].way < wayCount
  }

  /** The JOSM DataSet, abstracted to its three append-only primitive collections. */
  class DataSet {
    var nodes: seq<Node>
    var ways: seq<Way>
    var relations: seq<Relation>

    ghost predicate Valid()
      reads this
    {
      WellFormed(nodes, ways, relations)
    }

    constructor ()
      ensures Valid()
      ensures nodes == [] && ways == [] && relations == []
    {
      nodes, ways, relations := [], [], [];
    }

    /** addPrimitive(Node) */
    method AddNode(n: Node) returns (id: NodeId)
      requires Valid()
      modifies this
      ensures Valid()
      ensures id == |old(nodes)|
      ensures nodes == old(nodes) + [n] && ways == old(ways) && relations == old(relations)
    {
      id := |nodes|;
      nodes := nodes + [n];
    }

    /** addPrimitive(Way) */
    method AddWay(w: Way) returns (id: WayId)
      requires Valid()
      requires WayRefsIn(w, |nodes|)
      modifies this
      ensures Valid()
      ensures id == |old(ways)|
      ensures ways == old(ways) + [w] && nodes == old(nodes) && relations == old(relations)
    {
      id := |ways|;
      ways := ways + [w];
    }

    /** addPrimitive(Relation) */
    method AddRelation(r: Relation) returns (id: RelationId)
      requires Valid()
      requires MembersIn(r, |ways|)
      modifies this
      ensures Valid()
      ensures id == |old(relations)|
      ensures relations == old(relations) + [r] && nodes == old(nodes) && ways == old(ways)
    {
      id := |relations|;
      relations := relations + [r];
    }

    /** searchNodes(new BBox(node)) for a node at `loc`. */
    function SearchNodes(loc: LatLon): (r: seq<NodeId>)
      reads this
      ensures forall k :: 0 <= k < |r| ==> r[k] < |nodes| && nodes[r[k]].coor == loc
      ensures forall i :: 0 <= i < |nodes| && nodes[i].coor == loc ==> i in r
    {
      NodesAtSpec(nodes, loc);
      NodesAt(nodes, loc)
    }

    /** OsmPrimitive.put(key, value) on a stored relation. */
    method PutTag(id: RelationId, key: string, value: string)
      requires Valid()
      requires id < |relations|
      modifies this
      ensures Valid()
      ensures relations == old(relations)[id := Relation(old(relations)[id].members, old(relations)[id].tags[key := value])]
      ensures nodes == old(nodes) && ways == old(ways)
    {
      relations := relations[id := Relation(relations[id].members, relations[id].tags[key := value])];
    }
  }
}
