/**
 * The JTS geometry shapes the factory consumes: points, line strings,
 * polygons (one exterior ring and zero or more interior rings) and
 * multipolygons (an ordered collection of polygons).
 */
module Geometry {

  /** A planar coordinate in some reference system (JTS Coordinate without z). */
  datatype Coordinate = Coordinate(x: real, y: real)

  /** A coordinate transformation between two reference systems. */
  type Transform = Coordinate -> Coordinate

  datatype Point = Point(coordinate: Coordinate)

  datatype LineString = LineString(coordinates: seq<Coordinate>)

  datatype Polygon = Polygon(exterior: seq<Coordinate>, interiors: seq<seq<Coordinate>>)

  datatype MultiPolygon = MultiPolygon(polygons: seq<Polygon>)

  /** Role names of multipolygon relation members. */
  const OUTER: string := "outer"
  const INNER: string := "inner"

  /** A ring of a polygon together with the role its way plays in a multipolygon relation. */
  datatype Ring = Ring(role: string, coordinates: seq<Coordinate>)

  /** The rings of one polygon in the order the relation lists them: exterior first, then the interiors. */
  function PolygonRings(p: Polygon): (r: seq<Ring>)
    ensures |r| == 1 + |p.interiors|
    ensures r[0] == Ring(OUTER, p.exterior)
    ensures forall j :: 0 <= j < |p.interiors| ==> r[1 + j] == Ring(INNER, p.interiors[j])
  {
    [Ring(OUTER, p.exterior)] + seq(|p.interiors|, j requires 0 <= j < |p.interiors| => Ring(INNER, p.interiors[j]))
  }

  /** The rings of a sequence of polygons, polygon by polygon. */
  function Rings(polygons: seq<Polygon>): (r: seq<Ring>)
    ensures |r| >= |polygons|
  {
    if polygons == [] then []
    else Rings(polygons[..|polygons| - 1]) + PolygonRings(polygons[|polygons| - 1])
  }

  /** Number of rings of the polygons: one per polygon plus one per interior ring. */
  function RingCount(polygons: seq<Polygon>): nat
  {
    if polygons == [] then 0 else 1 + |polygons[0].interiors| + RingCount(polygons[1..])
  }

  lemma {:induction false} RingCountAppend(a: seq<Polygon>, b: seq<Polygon>)
    ensures RingCount(a + b) == RingCount(a) + RingCount(b)
  {
    if a != [] {
      assert (a + b)[1..] == a[1..] + b;
      RingCountAppend(a[1..], b);
    } else {
      assert a + b == b;
    }
  }

  /** There is one ring for every exterior and every interior ring of the input. */
  lemma {:induction false} RingsCount(polygons: seq<Polygon>)
    ensures |Rings(polygons)| == RingCount(polygons)
  {
    if polygons != [] {
      var n := |polygons| - 1;
      RingsCount(polygons[..n]);
      RingCountAppend(polygons[..n], [polygons[n]]);
      assert polygons[..n] + [polygons[n]] == polygons;
      assert RingCount([polygons[n]]) == 1 + |polygons[n].interiors| by {
        assert [polygons[n]][1..] == [];
      }
    }
  }

  /**
   * Ring positions: polygon i starts at offset RingCount(polygons[..i]); at that
   * offset stands its exterior ring with role "outer", followed by each of its
   * interior rings, in order, with role "inner".
   */
  lemma {:induction false} RingsAt(polygons: seq<Polygon>, i: nat)
    requires i < |polygons|
    ensures RingCount(polygons[..i]) + 1 + |polygons[i].interiors| <= |Rings(polygons)|
    ensures Rings(polygons)[RingCount(polygons[..i])] == Ring(OUTER, polygons[i].exterior)
    ensures forall j :: 0 <= j < |polygons[i].interiors| ==>
              Rings(polygons)[RingCount(polygons[..i]) + 1 + j] == Ring(INNER, polygons[i].interiors[j])
  {
    var n := |polygons| - 1;
    var front := polygons[..n];
    var last := PolygonRings(polygons[n]);
    assert Rings(polygons) == Rings(front) + last;
    RingsCount(front);
    var at := RingCount(polygons[..i]);
    if i == n {
      assert polygons[..i] == front;
      forall j | 0 <= j < |polygons[i].interiors|
        ensures Rings(polygons)[at + 1 + j] == Ring(INNER, polygons[i].interiors[j])
      {
        assert Rings(polygons)[at + 1 + j] == last[1 + j];
      }
    } else {
      assert front[..i] == polygons[..i];
      assert front[i] == polygons[i];
      RingsAt(front, i);
      forall j | 0 <= j < |polygons[i].interiors|
        ensures Rings(polygons)[at + 1 + j] == Ring(INNER, polygons[i].interiors[j])
      {
        assert Rings(polygons)[at + 1 + j] == Rings(front)[at + 1 + j];
      }
    }
  }

  /** Wrapping one polygon into a multipolygon gives exactly that polygon's rings. */
  lemma SinglePolygonRings(p: Polygon)
    ensures Rings([p]) == PolygonRings(p)
  {
    assert [p][..0] == [];
  }

  /** The roles of the rings, in relation order. */
  function Roles(rings: seq<Ring>): (r: seq<string>)
    ensures |r| == |rings| && forall k :: 0 <= k < |rings| ==> r[k] == rings[k].role
  {
    seq(|rings|, k requires 0 <= k < |rings| => rings[k].role)
  }

  /**
   * Polygons with 2, 0 and 1 interior rings give (1+2) + (1+0) + (1+1) = 6
   * rings, in the roles outer, inner, inner, outer, outer, inner.
   */
  lemma RolesExample(p1: Polygon, p2: Polygon, p3: Polygon)
    requires |p1.interiors| == 2 && |p2.interiors| == 0 && |p3.interiors| == 1
    ensures Roles(Rings([p1, p2, p3])) == [OUTER, INNER, INNER, OUTER, OUTER, INNER]
  {
    var r1, r2, r3 := PolygonRings(p1), PolygonRings(p2), PolygonRings(p3);
    assert Rings([p1, p2]) == r1 + r2 by {
      assert [p1, p2][..1] == [p1];
      SinglePolygonRings(p1);
    }
    assert Rings([p1, p2, p3]) == r1 + r2 + r3 by {
      assert [p1, p2, p3][..2] == [p1, p2];
    }
    var r := r1 + r2 + r3;
    assert Roles(r) == [OUTER, INNER, INNER, OUTER, OUTER, INNER] by {
      assert |r| == 6;
      assert r[0] == r1[0] && r[1] == r1[1] && r[2] == r1[2] && r[3] == r2[0] && r[4] == r3[0] && r[5] == r3[1];
    }
  }
}
