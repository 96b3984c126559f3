/**
 * JosmObjectFactory: builds JOSM nodes, ways and multipolygon relations from
 * JTS geometries and inserts them into a DataSet.
 */
module Factory {
  import opened Wrappers
  import opened Geometry
  import opened OsmData
  import opened Merging
  import opened Assembly

  /** The SRID of JOSM's internal reference system (WGS84). */
  const JOSM_SRID: int := 4326

  /** The precision the coordinate transformation is created with. */
  const TRANSFORM_PRECISION: real := 10000000.0

  /**
   * The CRS library's transform factory, createJTSCoordinateTransform(source,
   * target, precision): None where the library throws.
   */
  type CrsTransformFactory = (int, int, real) -> Option<Transform>

  /** The tag buildPolygon puts on the relation of a polygon with holes. */
  const TYPE_KEY: string := "type"
  const MULTIPOLYGON: string := "multipolygon"

  datatype FactoryError = TransformUnavailable(sourceSrid: int)

  /** The member list of a multipolygon relation whose ways were inserted consecutively from `firstWay`. */
  function MembersFor(rings: seq<Ring>, firstWay: WayId): (r: seq<RelationMember>)
    ensures |r| == |rings|
  {
    seq(|rings|, k requires 0 <= k < |rings| => RelationMember(rings[k].role, firstWay + k))
  }

  lemma MembersForAppend(a: seq<Ring>, b: seq<Ring>, firstWay: WayId, secondWay: WayId)
    requires secondWay == firstWay + |a|
    ensures MembersFor(a + b, firstWay) == MembersFor(a, firstWay) + MembersFor(b, secondWay)
  {
  }

  lemma MembersForSnoc(rings: seq<Ring>, ring: Ring, firstWay: WayId, way: WayId)
    requires way == firstWay + |rings|
    ensures MembersFor(rings + [ring], firstWay) == MembersFor(rings, firstWay) + [RelationMember(ring.role, way)]
  {
  }

  lemma PolygonRingsPrefix(p: Polygon, j: nat)
    requires j < |p.interiors|
    ensures PolygonRings(p)[..2 + j] == PolygonRings(p)[..1 + j] + [Ring(INNER, p.interiors[j])]
  {
  }

  /** Concatenation is associative (used to regroup the ways built so far). */
  lemma AppendAssociative<T>(a: seq<T>, b: seq<T>, c: seq<T>)
    ensures (a + b) + c == a + (b + c)
  {
  }

  /** After the interior-ring loop, the prefix of the rings built so far is all of them. */
  lemma AllRingsBuilt(t: Transform, p: Polygon, nodes0: seq<Node>, ways0: seq<Way>,
                      ways: seq<Way>, nodes: seq<Node>, members: seq<RelationMember>)
    requires ways == ways0 + BuildRings(t, nodes0, PolygonRings(p)[..1 + |p.interiors|]).0
    requires nodes == BuildRings(t, nodes0, PolygonRings(p)[..1 + |p.interiors|]).1
    requires members == MembersFor(PolygonRings(p)[..1 + |p.interiors|], |ways0|)
    ensures var (built, after) := BuildRings(t, nodes0, PolygonRings(p));
      ways == ways0 + built && nodes == after
    ensures members == MembersFor(PolygonRings(p), |ways0|)
  {
    assert PolygonRings(p)[..1 + |p.interiors|] == PolygonRings(p);
  }

  /** The first step of one polygon's ways: its exterior ring's way, as the first of its rings. */
  lemma ExteriorWayStep(t: Transform, p: Polygon, nodes0: seq<Node>, ways0: seq<Way>,
                        ways: seq<Way>, nodes: seq<Node>, members: seq<RelationMember>, way: WayId)
    requires ways == ways0 + [WayOf(nodes0, Locations(t, p.exterior)).0]
    requires nodes == WayOf(nodes0, Locations(t, p.exterior)).1
    requires way == |ways0|
    requires members == [RelationMember(OUTER, way)]
    ensures ways == ways0 + BuildRings(t, nodes0, PolygonRings(p)[..1]).0
    ensures nodes == BuildRings(t, nodes0, PolygonRings(p)[..1]).1
    ensures members == MembersFor(PolygonRings(p)[..1], |ways0|)
  {
    var rings := PolygonRings(p);
    assert rings[..1] == [] + [rings[0]];
    BuildRingsSnoc(t, nodes0, [], rings[0]);
  }

  /**
   * The loop step of buildMultiPolygon's interior-ring loop, stated over the
   * state before and after the way of interior ring `j` is built.
   */
  lemma InteriorWayStep(t: Transform, p: Polygon, j: nat, nodes0: seq<Node>, ways0: seq<Way>,
                        ways: seq<Way>, nodes: seq<Node>, members: seq<RelationMember>, way: WayId)
    requires j < |p.interiors|
    requires ways == ways0 + BuildRings(t, nodes0, PolygonRings(p)[..1 + j]).0
    requires nodes == BuildRings(t, nodes0, PolygonRings(p)[..1 + j]).1
    requires members == MembersFor(PolygonRings(p)[..1 + j], |ways0|)
    requires way == |ways|
    ensures ways + [WayOf(nodes, Locations(t, p.interiors[j])).0] == ways0 + BuildRings(t, nodes0, PolygonRings(p)[..2 + j]).0
    ensures WayOf(nodes, Locations(t, p.interiors[j])).1 == BuildRings(t, nodes0, PolygonRings(p)[..2 + j]).1
    ensures members + [RelationMember(INNER, way)] == MembersFor(PolygonRings(p)[..2 + j], |ways0|)
  {
    var rings := PolygonRings(p);
    var inner := Ring(INNER, p.interiors[j]);
    var built := BuildRings(t, nodes0, rings[..1 + j]);
    var w := WayOf(nodes, Locations(t, p.interiors[j]));
    assert rings[..2 + j] == rings[..1 + j] + [inner] by {
      PolygonRingsPrefix(p, j);
    }
    assert BuildRings(t, nodes0, rings[..2 + j]) == (built.0 + [w.0], w.1) by {
      BuildRingsSnoc(t, nodes0, rings[..1 + j], inner);
    }
    AppendAssociative(ways0, built.0, [w.0]);
    MembersForSnoc(rings[..1 + j], inner, |ways0|, way);
  }

  /** The relation buildPolygon leaves for a polygon whose ways were inserted from `firstWay`: its members, tagged type=multipolygon. */
  function MultiPolygonRelation(rings: seq<Ring>, firstWay: WayId): (r: Relation)
    ensures |r.members| == |rings| && r.tags == map[TYPE_KEY := MULTIPOLYGON]
  {
    Relation(MembersFor(rings, firstWay), map[TYPE_KEY := MULTIPOLYGON])
  }

  /** The rings of one more polygon follow the rings of the polygons before it. */
  lemma RingsSnoc(polygons: seq<Polygon>, i: nat)
    requires i < |polygons|
    ensures Rings(polygons[..i + 1]) == Rings(polygons[..i]) + PolygonRings(polygons[i])
  {
    assert polygons[..i + 1][..i] == polygons[..i];
  }

  /**
   * The loop step of buildMultiPolygon's polygon loop, stated over the state
   * before and after the ways of polygon `i` are built.
   */
  lemma PolygonWaysStep(t: Transform, polygons: seq<Polygon>, i: nat, nodes0: seq<Node>, ways0: seq<Way>,
                        ways: seq<Way>, nodes: seq<Node>, members: seq<RelationMember>)
    requires i < |polygons|
    requires ways == ways0 + BuildRings(t, nodes0, Rings(polygons[..i])).0
    requires nodes == BuildRings(t, nodes0, Rings(polygons[..i])).1
    requires members == MembersFor(Rings(polygons[..i]), |ways0|)
    ensures ways + BuildRings(t, nodes, PolygonRings(polygons[i])).0 == ways0 + BuildRings(t, nodes0, Rings(polygons[..i + 1])).0
    ensures BuildRings(t, nodes, PolygonRings(polygons[i])).1 == BuildRings(t, nodes0, Rings(polygons[..i + 1])).1
    ensures members + MembersFor(PolygonRings(polygons[i]), |ways|) == MembersFor(Rings(polygons[..i + 1]), |ways0|)
  {
    RingsSnoc(polygons, i);
    PolygonWaysAppend(t, nodes0, ways0, Rings(polygons[..i]), PolygonRings(polygons[i]));
    MembersForAppend(Rings(polygons[..i]), PolygonRings(polygons[i]), |ways0|, |ways|);
  }

  /** Building `done` and then `rings` onto `ways0` builds `done + rings`. */
  lemma PolygonWaysAppend(t: Transform, nodes0: seq<Node>, ways0: seq<Way>, done: seq<Ring>, rings: seq<Ring>)
    ensures var built := BuildRings(t, nodes0, done);
      var more := BuildRings(t, built.1, rings);
      && ways0 + built.0 + more.0 == ways0 + BuildRings(t, nodes0, done + rings).0
      && more.1 == BuildRings(t, nodes0, done + rings).1
      && |ways0 + built.0| == |ways0| + |done|
  {
    var built := BuildRings(t, nodes0, done);
    var more := BuildRings(t, built.1, rings);
    BuildRingsAppend(t, nodes0, done, rings);
    AppendAssociative(ways0, built.0, more.0);
  }

  /**
   * The relation of a multipolygon has one member per ring, in ring order:
   * each polygon's exterior way as "outer", then its interior ways as "inner".
   */
  lemma MultiPolygonMembers(polygons: seq<Polygon>, firstWay: WayId, i: nat)
    requires i < |polygons|
    ensures var members := MembersFor(Rings(polygons), firstWay);
      var at := RingCount(polygons[..i]);
      && |members| == RingCount(polygons)
      && at + |polygons[i].interiors| < |members|
      && members[at] == RelationMember(OUTER, firstWay + at)
      && forall k :: at < k <= at + |polygons[i].interiors| ==> members[k] == RelationMember(INNER, firstWay + k)
  {
    RingsCount(polygons);
    RingsAt(polygons, i);
    var at := RingCount(polygons[..i]);
    forall k | at < k <= at + |polygons[i].interiors|
      ensures Rings(polygons)[k].role == INNER
    {
      assert Rings(polygons)[at + 1 + (k - at - 1)] == Ring(INNER, polygons[i].interiors[k - at - 1]);
    }
  }

  /** ResolveAll of a coordinate prefix, one coordinate further. */
  lemma ResolveAllStep(t: Transform, nodes: seq<Node>, points: seq<Coordinate>, i: nat)
    requires i < |points|
    ensures var (ids, mid) := ResolveAll(nodes, Locations(t, points[..i]));
      var (id, after) := ResolveNode(mid, Location(t, points[i]), true);
      ResolveAll(nodes, Locations(t, points[..i + 1])) == (ids + [id], after)
  {
    LocationsPrefix(t, points, i);
    ResolveAllSnoc(nodes, Locations(t, points[..i]), Location(t, points[i]));
  }

  /**
   * The constructor: a factory exists only when the CRS library can provide
   * the transformation from `sourceSrid` to WGS84; otherwise construction fails.
   */
  method NewJosmObjectFactory(sourceSrid: int, crs: CrsTransformFactory) returns (r: Result<JosmObjectFactory, FactoryError>)
    ensures r.Failure? <==> crs(sourceSrid, JOSM_SRID, TRANSFORM_PRECISION).None?
    ensures r.Failure? ==> r.error == TransformUnavailable(sourceSrid)
    ensures r.Success? ==> forall c :: r.value.crsTransform(c) == crs(sourceSrid, JOSM_SRID, TRANSFORM_PRECISION).value(c)
  {
    var transform := crs(sourceSrid, JOSM_SRID, TRANSFORM_PRECISION);
    if transform.None? {
      return Failure(TransformUnavailable(sourceSrid));
    }
    var factory := new JosmObjectFactory(transform.value);
    return Success(factory);
  }

  class JosmObjectFactory {
    const crsTransform: Transform

    constructor (transform: Transform)
      ensures crsTransform == transform
    {
      crsTransform := transform;
    }

    /**
     * buildNode(Coordinate, DataSet, merge): the node at the transformed
     * location; with `merge`, the first node already there if there is one.
     */
    method BuildNode(coordinate: Coordinate, ds: DataSet, merge: bool) returns (node: NodeId)
      requires ds.Valid()
      modifies ds
      ensures ds.Valid()
      ensures (node, ds.nodes) == ResolveNode(old(ds.nodes), Location(crsTransform, coordinate), merge)
      ensures node < |ds.nodes| && ds.nodes[node].coor == Location(crsTransform, coordinate)
      ensures ds.ways == old(ds.ways) && ds.relations == old(ds.relations)
    {
      var coordWgs84 := crsTransform(coordinate);
      var latlon := LatLon(coordWgs84.y, coordWgs84.x);
      var candidate := Node(latlon);
      if merge {
        var existingNodes := ds.SearchNodes(latlon);
        if |existingNodes| > 0 {
          node := existingNodes[0];
          return;
        }
      }
      node := ds.AddNode(candidate);
    }

    /** buildNode(Point, DataSet, merge) */
    method BuildNodeFromPoint(point: Point, ds: DataSet, merge: bool) returns (node: NodeId)
      requires ds.Valid()
      modifies ds
      ensures ds.Valid()
      ensures (node, ds.nodes) == ResolveNode(old(ds.nodes), Location(crsTransform, point.coordinate), merge)
      ensures ds.ways == old(ds.ways) && ds.relations == old(ds.relations)
    {
      node := BuildNode(point.coordinate, ds, merge);
    }

    /**
     * buildWay(CoordinateSequence, DataSet): every coordinate is resolved with
     * merging, a node is appended unless it is the previous one, and the way
     * is inserted.
     */
    method BuildWay(points: seq<Coordinate>, ds: DataSet) returns (way: WayId)
      requires ds.Valid()
      modifies ds
      ensures ds.Valid()
      ensures way == |old(ds.ways)|
      ensures var (w, after) := WayOf(old(ds.nodes), Locations(crsTransform, points));
        ds.ways == old(ds.ways) + [w] && ds.nodes == after
      ensures ds.relations == old(ds.relations)
    {
      var wayNodes: seq<NodeId> := [];
      var previousNode: Option<NodeId> := None;
      ghost var resolved: seq<NodeId> := [];
      for i := 0 to |points|
        invariant ds.Valid()
        invariant resolved == ResolveAll(old(ds.nodes), Locations(crsTransform, points[..i])).0
        invariant ds.nodes == ResolveAll(old(ds.nodes), Locations(crsTransform, points[..i])).1
        invariant wayNodes == Collapse(resolved)
        invariant previousNode == if i == 0 then None else Some(resolved[i - 1])
        invariant ds.ways == old(ds.ways) && ds.relations == old(ds.relations)
      {
        var node := BuildNode(points[i], ds, true);
        if previousNode != Some(node) {
          wayNodes := wayNodes + [node];
        }
        previousNode := Some(node);
        assert resolved + [node] == ResolveAll(old(ds.nodes), Locations(crsTransform, points[..i + 1])).0
            && ds.nodes == ResolveAll(old(ds.nodes), Locations(crsTransform, points[..i + 1])).1 by {
          ResolveAllStep(crsTransform, old(ds.nodes), points, i);
        }
        assert wayNodes == Collapse(resolved + [node]) by {
          CollapseSnoc(resolved, node);
        }
        resolved := resolved + [node];
      }
      assert points[..|points|] == points;
      assert Way(wayNodes) == WayOf(old(ds.nodes), Locations(crsTransform, points)).0;
      way := ds.AddWay(Way(wayNodes));
    }

    /** buildWay(LineString, DataSet) */
    method BuildWayFromLineString(line: LineString, ds: DataSet) returns (way: WayId)
      requires ds.Valid()
      modifies ds
      ensures ds.Valid()
      ensures way == |old(ds.ways)|
      ensures var (w, after) := WayOf(old(ds.nodes), Locations(crsTransform, line.coordinates));
        ds.ways == old(ds.ways) + [w] && ds.nodes == after
      ensures ds.relations == old(ds.relations)
    {
      way := BuildWay(line.coordinates, ds);
    }

    /** buildWay(Polygon, DataSet): the way of the exterior ring only. */
    method BuildWayFromPolygon(polygon: Polygon, ds: DataSet) returns (way: WayId)
      requires ds.Valid()
      modifies ds
      ensures ds.Valid()
      ensures way == |old(ds.ways)|
      ensures var (w, after) := WayOf(old(ds.nodes), Locations(crsTransform, polygon.exterior));
        ds.ways == old(ds.ways) + [w] && ds.nodes == after
      ensures ds.relations == old(ds.relations)
    {
      way := BuildWay(polygon.exterior, ds);
    }

    /**
     * The body of buildMultiPolygon's loop for one polygon: the exterior ring's
     * way with role "outer", then one way per interior ring with role "inner".
     */
    method BuildPolygonMembers(polygon: Polygon, ds: DataSet) returns (members: seq<RelationMember>)
      requires ds.Valid()
      modifies ds
      ensures ds.Valid()
      ensures var (ways, after) := BuildRings(crsTransform, old(ds.nodes), PolygonRings(polygon));
        ds.ways == old(ds.ways) + ways && ds.nodes == after
      ensures members == MembersFor(PolygonRings(polygon), |old(ds.ways)|)
      ensures ds.relations == old(ds.relations)
    {
      ghost var rings := PolygonRings(polygon);
      var way := BuildWay(polygon.exterior, ds);
      members := [RelationMember(OUTER, way)];
      ExteriorWayStep(crsTransform, polygon, old(ds.nodes), old(ds.ways), ds.ways, ds.nodes, members, way);
      for j := 0 to |polygon.interiors|
        invariant ds.Valid()
        invariant ds.ways == old(ds.ways) + BuildRings(crsTransform, old(ds.nodes), rings[..1 + j]).0
        invariant ds.nodes == BuildRings(crsTransform, old(ds.nodes), rings[..1 + j]).1
        invariant members == MembersFor(rings[..1 + j], |old(ds.ways)|)
        invariant ds.relations == old(ds.relations)
      {
        ghost var waysBefore, nodesBefore := ds.ways, ds.nodes;
        way := BuildWay(polygon.interiors[j], ds);
        InteriorWayStep(crsTransform, polygon, j, old(ds.nodes), old(ds.ways), waysBefore, nodesBefore, members, way);
        members := members + [RelationMember(INNER, way)];
      }
      AllRingsBuilt(crsTransform, polygon, old(ds.nodes), old(ds.ways), ds.ways, ds.nodes, members);
    }

    /**
     * buildMultiPolygon(MultiPolygon, DataSet): one way per ring, polygon by
     * polygon, each added to a new relation as "outer" (exterior) or "inner"
     * (interior); the relation is inserted after all of its ways.
     */
    method BuildMultiPolygon(mpg: MultiPolygon, ds: DataSet) returns (relation: RelationId)
      requires ds.Valid()
      modifies ds
      ensures ds.Valid()
      ensures var (ways, after) := BuildRings(crsTransform, old(ds.nodes), Rings(mpg.polygons));
        ds.ways == old(ds.ways) + ways && ds.nodes == after
      ensures relation == |old(ds.relations)|
      ensures ds.relations == old(ds.relations) + [Relation(MembersFor(Rings(mpg.polygons), |old(ds.ways)|), map[])]
    {
      var members: seq<RelationMember> := [];
      for i := 0 to |mpg.polygons|
        invariant ds.Valid()
        invariant ds.ways == old(ds.ways) + BuildRings(crsTransform, old(ds.nodes), Rings(mpg.polygons[..i])).0
        invariant ds.nodes == BuildRings(crsTransform, old(ds.nodes), Rings(mpg.polygons[..i])).1
        invariant members == MembersFor(Rings(mpg.polygons[..i]), |old(ds.ways)|)
        invariant ds.relations == old(ds.relations)
      {
        ghost var waysBefore, nodesBefore := ds.ways, ds.nodes;
        var polygonMembers := BuildPolygonMembers(mpg.polygons[i], ds);
        PolygonWaysStep(crsTransform, mpg.polygons, i, old(ds.nodes), old(ds.ways), waysBefore, nodesBefore, members);
        members := members + polygonMembers;
      }
      assert mpg.polygons[..|mpg.polygons|] == mpg.polygons;
      relation := ds.AddRelation(Relation(members, map[]));
    }

    /** buildMultiPolygon(Polygon, DataSet): the polygon wrapped as a one-element multipolygon. */
    method BuildMultiPolygonFromPolygon(polygon: Polygon, ds: DataSet) returns (relation: RelationId)
      requires ds.Valid()
      modifies ds
      ensures ds.Valid()
      ensures var (ways, after) := BuildRings(crsTransform, old(ds.nodes), PolygonRings(polygon));
        ds.ways == old(ds.ways) + ways && ds.nodes == after
      ensures relation == |old(ds.relations)|
      ensures ds.relations == old(ds.relations) + [Relation(MembersFor(PolygonRings(polygon), |old(ds.ways)|), map[])]
    {
      SinglePolygonRings(polygon);
      relation := BuildMultiPolygon(MultiPolygon([polygon]), ds);
    }

    /**
     * buildPolygon(Polygon, DataSet) as the code behaves: a polygon with
     * interior rings first gets a multipolygon relation tagged
     * type=multipolygon, but what is returned is always a new way for the
     * exterior ring, so that ring's way is stored twice.
     */
    method BuildPolygon(polygon: Polygon, ds: DataSet) returns (primitive: PrimitiveRef)
      requires ds.Valid()
      modifies ds
      ensures ds.Valid()
      ensures primitive.WayRef? && primitive.way == |ds.ways| - 1
      ensures |polygon.interiors| == 0 ==>
        var (w, after) := WayOf(old(ds.nodes), Locations(crsTransform, polygon.exterior));
        ds.ways == old(ds.ways) + [w] && ds.nodes == after && ds.relations == old(ds.relations)
      ensures |polygon.interiors| > 0 ==>
        var (ways, after) := BuildRings(crsTransform, old(ds.nodes), PolygonRings(polygon));
        && ds.nodes == after
        && ds.ways == old(ds.ways) + ways + [ways[0]]
        && ds.relations == old(ds.relations) + [MultiPolygonRelation(PolygonRings(polygon), |old(ds.ways)|)]
    {
      if |polygon.interiors| > 0 {
        var relation := BuildMultiPolygonFromPolygon(polygon, ds);
        ds.PutTag(relation, TYPE_KEY, MULTIPOLYGON);
        assert map[][TYPE_KEY := MULTIPOLYGON] == map[TYPE_KEY := MULTIPOLYGON];
        RebuildFirstRing(crsTransform, old(ds.nodes), PolygonRings(polygon));
      }
      var way := BuildWayFromPolygon(polygon, ds);
      primitive := WayRef(way);
    }

    /**
     * buildPolygon(Polygon, DataSet) as its documentation describes it: the
     * tagged multipolygon relation when the polygon has interior rings, and
     * otherwise the way of its exterior ring; every ring gets exactly one way.
     */
    method BuildPolygonAsDocumented(polygon: Polygon, ds: DataSet) returns (primitive: PrimitiveRef)
      requires ds.Valid()
      modifies ds
      ensures ds.Valid()
      ensures primitive.RelationRef? <==> |polygon.interiors| > 0
      ensures primitive.WayRef? <==> |polygon.interiors| == 0
      ensures |ds.ways| == |old(ds.ways)| + 1 + |polygon.interiors|
      ensures |polygon.interiors| == 0 ==>
        var (w, after) := WayOf(old(ds.nodes), Locations(crsTransform, polygon.exterior));
        && primitive == WayRef(|old(ds.ways)|)
        && ds.ways == old(ds.ways) + [w] && ds.nodes == after && ds.relations == old(ds.relations)
      ensures |polygon.interiors| > 0 ==>
        var (ways, after) := BuildRings(crsTransform, old(ds.nodes), PolygonRings(polygon));
        && primitive == RelationRef(|old(ds.relations)|)
        && ds.nodes == after
        && ds.ways == old(ds.ways) + ways
        && ds.relations == old(ds.relations) + [MultiPolygonRelation(PolygonRings(polygon), |old(ds.ways)|)]
    {
      if |polygon.interiors| > 0 {
        var relation := BuildMultiPolygonFromPolygon(polygon, ds);
        ds.PutTag(relation, TYPE_KEY, MULTIPOLYGON);
        assert map[][TYPE_KEY := MULTIPOLYGON] == map[TYPE_KEY := MULTIPOLYGON];
        primitive := RelationRef(relation);
      } else {
        var way := BuildWayFromPolygon(polygon, ds);
        primitive := WayRef(way);
      }
    }
  }
}
