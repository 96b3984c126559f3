# JosmObjectFactory: geometry-to-topology builder

A Dafny model of `JosmObjectFactory` from josm-openservices. The factory
turns JTS geometries (points, line strings, polygons and multipolygons) into
JOSM primitives (nodes, ways and multipolygon relations). It inserts them into
a shared `DataSet` and merges coincident vertices into shared nodes.

The model has these modules:

- `Geometry`: the JTS shapes, and the rings of a polygon and a multipolygon
  in the order the relation lists them.
- `OsmData`: the JOSM data model. `DataSet` is a class whose `nodes`, `ways`
  and `relations` fields are sequences. `AddNode`, `AddWay` and `AddRelation`
  append to them; `PutTag` updates the tags of a stored relation in place. A
  primitive's id is its index in its sequence. `searchNodes` over a
  node's zero-extent bounding box is modelled as the stored nodes at exactly
  that location, in store order.
- `Merging`: `buildNode`'s decision (reuse the first node at the location, or
  insert a new one), stated as functions of the node store. Properties proved:
  - idempotence of merging;
  - distinctness without merging;
  - "same node iff same location";
  - the node count equals the number of distinct locations.
- `Assembly`: the node list `buildWay` produces, with consecutive repeats
  collapsed, and the ways a sequence of rings produces. Properties proved:
  - no consecutive repeats;
  - equality with an independent adjacent-duplicate filter;
  - ring closure;
  - concatenation and prefix laws for building the rings.
- `Factory`: the `JosmObjectFactory` class. Each builder is an imperative
  method that changes the `DataSet` and is proved against the functions
  above. `buildWay` and `buildMultiPolygon` keep their loops.

The coordinate transform is a `Transform` value held by the factory. The CRS
library that produces it is a parameter of `NewJosmObjectFactory`: it yields
`None` where the library would throw.

A closed ring keeps its closing entry. The code at
JosmObjectFactory.java:115-122 drops an entry only when it repeats the
previous node. So `[(0,0),(0,10),(10,10),(10,0),(0,0)]` gives five entries.
The first entry equals the last, and the way uses four nodes
(`Assembly.SquareExample`).

## Model

| member | source | states |
|---|---|---|
| Factory.NewJosmObjectFactory | src/main/java/org/openstreetmap/josm/plugins/openservices/JosmObjectFactory.java:42-48 | Construction fails, with the source SRID in the error, exactly when no transform from the source SRID to SRID 4326 at precision 10000000.0 exists; otherwise the factory's transform is that transform |
| Factory.JosmObjectFactory.BuildNode | src/main/java/org/openstreetmap/josm/plugins/openservices/JosmObjectFactory.java:134-148 | The returned node is stored at the transformed location; the node store changes as ResolveNode says (reuse with merge, else append); ways and relations are unchanged |
| Factory.JosmObjectFactory.BuildNodeFromPoint | src/main/java/org/openstreetmap/josm/plugins/openservices/JosmObjectFactory.java:157-159 | Same effect as BuildNode on the point's coordinate |
| Factory.JosmObjectFactory.BuildWay | src/main/java/org/openstreetmap/josm/plugins/openservices/JosmObjectFactory.java:112-125 | Appends exactly one way, the collapsed node list of the merged coordinates (WayOf); the node store becomes the one that merging every coordinate in order gives; relations unchanged; the new way's id is the old way count |
| Factory.JosmObjectFactory.BuildWayFromLineString | src/main/java/org/openstreetmap/josm/plugins/openservices/JosmObjectFactory.java:108-110 | Same effect as BuildWay on the line's coordinates |
| Factory.JosmObjectFactory.BuildWayFromPolygon | src/main/java/org/openstreetmap/josm/plugins/openservices/JosmObjectFactory.java:99-101 | Same effect as BuildWay on the exterior ring only |
| Factory.JosmObjectFactory.BuildPolygonMembers | src/main/java/org/openstreetmap/josm/plugins/openservices/JosmObjectFactory.java:82-88 | For one polygon: one way per ring, exterior first and then each interior in order; the member list pairs each new way with "outer" or "inner" |
| Factory.JosmObjectFactory.BuildMultiPolygon | src/main/java/org/openstreetmap/josm/plugins/openservices/JosmObjectFactory.java:79-92 | One way per ring of every polygon, polygon by polygon; then exactly one relation, appended after all its ways, with one member per ring in ring order (pointing at the consecutive new ways) and no tags |
| Factory.JosmObjectFactory.BuildMultiPolygonFromPolygon | src/main/java/org/openstreetmap/josm/plugins/openservices/JosmObjectFactory.java:69-72 | Same effect as BuildMultiPolygon on the one-polygon multipolygon |
| Factory.JosmObjectFactory.BuildPolygon | src/main/java/org/openstreetmap/josm/plugins/openservices/JosmObjectFactory.java:56-62 | Always returns the last-inserted way. With interior rings it also builds the relation tagged type=multipolygon, then a second copy of the exterior way that adds no node. Without interior rings it builds a single way and no relation |
| Factory.JosmObjectFactory.BuildPolygonAsDocumented | src/main/java/org/openstreetmap/josm/plugins/openservices/JosmObjectFactory.java:50-55 | Returns a relation exactly when there are interior rings and a way exactly when there are none; every ring gets exactly one way; the relation carries the members and the type=multipolygon tag |
| Factory.MultiPolygonMembers | src/main/java/org/openstreetmap/josm/plugins/openservices/JosmObjectFactory.java:79-92 | The member count is the sum over polygons of 1 + interior count; polygon i's exterior is "outer" at its offset and each of its interiors is "inner" right after it, in order |
| OsmData.NodesAtSpec | src/main/java/org/openstreetmap/josm/plugins/openservices/JosmObjectFactory.java:139-140 | The bounding-box search finds exactly the stored nodes at the location (sound and complete), in strictly increasing store order |
| OsmData.NodesAtFirst | src/main/java/org/openstreetmap/josm/plugins/openservices/JosmObjectFactory.java:140-143 | The search is empty iff no stored node is at the location; otherwise its first entry is the earliest node there |
| OsmData.DataSet.SearchNodes | src/main/java/org/openstreetmap/josm/plugins/openservices/JosmObjectFactory.java:140 | Every result is a stored node at the location, and every stored node at the location is in the result |
| OsmData.DataSet.PutTag | src/main/java/org/openstreetmap/josm/plugins/openservices/JosmObjectFactory.java:59 | Sets one tag on one stored relation; nothing else changes |
| Merging.Location | src/main/java/org/openstreetmap/josm/plugins/openservices/JosmObjectFactory.java:135-136 | The node location holds the transformed coordinate with its axes swapped: (lon, lat) is exactly the transformed (x, y) |
| Merging.ResolveNode | src/main/java/org/openstreetmap/josm/plugins/openservices/JosmObjectFactory.java:134-148 | Exactly one of two outcomes: with merging, an existing node at the location is returned and the store is unchanged; otherwise a new node at the location is appended and its id (the old node count) returned |
| Merging.ResolveAll | src/main/java/org/openstreetmap/josm/plugins/openservices/JosmObjectFactory.java:115-116 | One resolved node per coordinate; the old store is a prefix of the new one, which grows by at most one node per coordinate |
| OsmData.NodesAt | src/main/java/org/openstreetmap/josm/plugins/openservices/JosmObjectFactory.java:140 | The bounding-box search returns no more nodes than are stored |
| OsmData.DataSet.AddNode | src/main/java/org/openstreetmap/josm/plugins/openservices/JosmObjectFactory.java:146 | Appends the node; its id is the old node count; ways and relations are unchanged |
| OsmData.DataSet.AddWay | src/main/java/org/openstreetmap/josm/plugins/openservices/JosmObjectFactory.java:123 | Appends the way, whose nodes are all stored; its id is the old way count; nodes and relations are unchanged |
| OsmData.DataSet.AddRelation | src/main/java/org/openstreetmap/josm/plugins/openservices/JosmObjectFactory.java:90 | Appends the relation, whose members are all stored ways; its id is the old relation count; nodes and ways are unchanged |
| Factory.MembersFor | src/main/java/org/openstreetmap/josm/plugins/openservices/JosmObjectFactory.java:84-87 | One relation member per ring, the i-th member pointing at the i-th consecutively inserted way |
| Factory.MultiPolygonRelation | src/main/java/org/openstreetmap/josm/plugins/openservices/JosmObjectFactory.java:58-59 | The relation buildPolygon leaves: one member per ring, and type=multipolygon as its only tag |
| Geometry.Rings | src/main/java/org/openstreetmap/josm/plugins/openservices/JosmObjectFactory.java:81-89 | A multipolygon has at least one ring per polygon (its exterior); the exact positions are RingsAt |
| Merging.IdentityTransformAxisSwap | src/main/java/org/openstreetmap/josm/plugins/openservices/JosmObjectFactory.java:135-136 | Axes are swapped: under the identity transform, coordinate (x 12.5, y 47.3) gives latitude 47.3 and longitude 12.5 |
| Merging.ResolveExisting | src/main/java/org/openstreetmap/josm/plugins/openservices/JosmObjectFactory.java:138-144 | With merging and a node already at the location: the store is unchanged and the result is the earliest node there |
| Merging.ResolveAbsent | src/main/java/org/openstreetmap/josm/plugins/openservices/JosmObjectFactory.java:138-147 | With merging and no node at the location: a new node at the location is appended and returned |
| Merging.ResolveNoMerge | src/main/java/org/openstreetmap/josm/plugins/openservices/JosmObjectFactory.java:137-147 | Without merging: a fresh node is always appended and the node count grows by exactly one |
| Merging.ResolveSound | src/main/java/org/openstreetmap/josm/plugins/openservices/JosmObjectFactory.java:134-148 | The result is a stored node at the location; the old store is a prefix of the new one, which has at most one more node |
| Merging.MergeIdempotent | src/main/java/org/openstreetmap/josm/plugins/openservices/JosmObjectFactory.java:138-144 | Two merging resolutions in a row return the same node; the second changes nothing; at most one node is inserted |
| Merging.NoMergeDistinct | src/main/java/org/openstreetmap/josm/plugins/openservices/JosmObjectFactory.java:137-147 | Two non-merging resolutions of the same location give two distinct nodes and two new nodes |
| Merging.ResolveAllFirst | src/main/java/org/openstreetmap/josm/plugins/openservices/JosmObjectFactory.java:115-116 | After merging a coordinate sequence, each resolved node is the earliest stored node at its coordinate's location |
| Merging.SameNodeIffSameLocation | src/main/java/org/openstreetmap/josm/plugins/openservices/JosmObjectFactory.java:115-116 | Two coordinates of a merged sequence get the same node if and only if they have the same location |
| Merging.ResolveAllAppend | src/main/java/org/openstreetmap/josm/plugins/openservices/JosmObjectFactory.java:115-116 | Merging a + b equals merging a and then merging b on the resulting store |
| Merging.ResolveAllReplay | src/main/java/org/openstreetmap/josm/plugins/openservices/JosmObjectFactory.java:138-144 | Re-merging locations whose earliest nodes are already known returns those nodes and leaves the store unchanged |
| Merging.ResolveAllLocations | src/main/java/org/openstreetmap/josm/plugins/openservices/JosmObjectFactory.java:134-148 | Merging adds exactly the new locations to the store's location set and keeps stored locations pairwise distinct |
| Merging.NodeCountIsDistinctLocations | src/main/java/org/openstreetmap/josm/plugins/openservices/JosmObjectFactory.java:138-146 | From an empty store, the node count after merging equals the number of distinct locations |
| Assembly.Collapse | src/main/java/org/openstreetmap/josm/plugins/openservices/JosmObjectFactory.java:117-121 | The way's node list is no longer than the resolved list and holds exactly the same nodes |
| Assembly.CollapseRepeatFree | src/main/java/org/openstreetmap/josm/plugins/openservices/JosmObjectFactory.java:117-121 | No two consecutive entries of a way's node list are the same node |
| Assembly.CollapseEnds | src/main/java/org/openstreetmap/josm/plugins/openservices/JosmObjectFactory.java:114-122 | A non-empty resolved list keeps its first and its last node |
| Assembly.CollapseSnoc | src/main/java/org/openstreetmap/josm/plugins/openservices/JosmObjectFactory.java:118-121 | One more resolved node is appended exactly when it differs from the previous one |
| Assembly.CollapseRemovesAdjacentDuplicates | src/main/java/org/openstreetmap/josm/plugins/openservices/JosmObjectFactory.java:115-122 | The node list equals an independently defined front-to-back adjacent-duplicate filter |
| Assembly.CollapseKeepsRepeatFree | src/main/java/org/openstreetmap/josm/plugins/openservices/JosmObjectFactory.java:117-121 | A list without consecutive repeats is left as it is |
| Assembly.CollapseIdempotent | src/main/java/org/openstreetmap/josm/plugins/openservices/JosmObjectFactory.java:117-121 | Collapsing twice is collapsing once |
| Assembly.WayOf | src/main/java/org/openstreetmap/josm/plugins/openservices/JosmObjectFactory.java:112-125 | Every node a built way refers to is in the store afterwards |
| Assembly.RingClosure | src/main/java/org/openstreetmap/josm/plugins/openservices/JosmObjectFactory.java:112-125 | A ring whose first and last coordinates are equal gives a non-empty way whose first and last entries are the same node |
| Assembly.ClosedQuadrilateral | src/main/java/org/openstreetmap/josm/plugins/openservices/JosmObjectFactory.java:112-125 | Five locations forming a closed quadrilateral give five way entries, head equal to last, and four new nodes |
| Assembly.SquareExample | src/main/java/org/openstreetmap/josm/plugins/openservices/JosmObjectFactory.java:112-125 | The closed square (identity transform) gives five entries, head equal to last, over four distinct nodes |
| Assembly.ThreeRuns | src/main/java/org/openstreetmap/josm/plugins/openservices/JosmObjectFactory.java:115-122 | Runs of 2, 3 and 1 equal locations give a way of exactly the three run nodes |
| Assembly.DeduplicationExample | src/main/java/org/openstreetmap/josm/plugins/openservices/JosmObjectFactory.java:115-122 | A concrete coordinate list with repeated runs gives a three-node way without consecutive repeats |
| Assembly.BuildRings | src/main/java/org/openstreetmap/josm/plugins/openservices/JosmObjectFactory.java:81-89 | One way per ring; the old store is a prefix of the new one; every way refers only to stored nodes |
| Assembly.BuildRingsAppend | src/main/java/org/openstreetmap/josm/plugins/openservices/JosmObjectFactory.java:81-89 | Building the rings a + b equals building a and then b on the resulting store, with the ways concatenated |
| Assembly.BuildRingsPrefix | src/main/java/org/openstreetmap/josm/plugins/openservices/JosmObjectFactory.java:81-89 | Building a prefix of the rings gives the prefix of the ways, over a prefix of the final store |
| Assembly.BuildRingsNodes | src/main/java/org/openstreetmap/josm/plugins/openservices/JosmObjectFactory.java:81-89 | The store after building the rings is the store after merging all their coordinates in order |
| Assembly.BuildRingsRepeatFree | src/main/java/org/openstreetmap/josm/plugins/openservices/JosmObjectFactory.java:81-89 | No way built from the rings has consecutive repeats |
| Assembly.RebuildFirstRing | src/main/java/org/openstreetmap/josm/plugins/openservices/JosmObjectFactory.java:56-61 | Building the first ring's way again after all the rings gives the same node list and inserts no node |
| Geometry.PolygonRings | src/main/java/org/openstreetmap/josm/plugins/openservices/JosmObjectFactory.java:83-87 | A polygon contributes 1 + interior count rings: the exterior as "outer", then each interior as "inner", in order |
| Geometry.RingsCount | src/main/java/org/openstreetmap/josm/plugins/openservices/JosmObjectFactory.java:81-89 | A multipolygon has as many rings as the sum over polygons of 1 + interior count |
| Geometry.RingsAt | src/main/java/org/openstreetmap/josm/plugins/openservices/JosmObjectFactory.java:81-89 | Polygon i's rings sit at the offset of the ring count of the polygons before it: outer first, then each inner in order |
| Geometry.SinglePolygonRings | src/main/java/org/openstreetmap/josm/plugins/openservices/JosmObjectFactory.java:69-72 | A one-polygon multipolygon has exactly that polygon's rings |
| Geometry.RolesExample | src/main/java/org/openstreetmap/josm/plugins/openservices/JosmObjectFactory.java:81-89 | Polygons with 2, 0 and 1 holes give the roles outer, inner, inner, outer, outer, inner |

## Left out

- The Proj4j/JTS transformation internals (floating-point numerics in a library not part of this model). The transform is an abstract total function `Coordinate -> Coordinate`. The transform factory is a parameter that says whether a transform exists.
- Coordinates and latitudes/longitudes are `real`, so there is no floating-point rounding. Two locations are the same node exactly when they are equal.
- The JOSM `DataSet`, `BBox` and spatial index implementation. `searchNodes` is "the stored nodes at an equal location, in store order". The node merged with is the first of them, which the code takes as `get(0)`.
- JOSM primitive identity (object references and generated ids) is modelled as the index in the store. `addPrimitive` is modelled as appending.
- The z coordinate of JTS coordinates is left out. The factory's own code never reads it, but line 135 passes the whole coordinate, z included, to the transform; the model's `Transform` over (x, y) assumes the transform's x and y do not depend on z.
- JTS `GeometryFactory.createMultiPolygon` is not modelled. A multipolygon is a sequence of polygons and the one-polygon case is built directly.
- A throwing transform factory makes the constructor throw a `RuntimeException` that wraps the library's exception. In the model this becomes `Failure(TransformUnavailable(sourceSrid))`: the error carries the source SRID, not the library's cause. A null `Long sourceSRID` is not modelled, since the SRID is an `int`.
- Malformed geometry is not rejected, as in the code. An empty ring gives an empty way. An empty JTS `Point` has no coordinate (`getCoordinate()` returns null at line 158), so the Java fails at line 135; the model's `Point` always has a coordinate, and that failure is not modelled.
- ArggisRestDataSet.java, FeatureMapper.java, IdFactory.java, ObjectToJosmMapper.java and ReturnType.java are not part of this model. They are parsing glue, interfaces without behaviour and an enum of string constants.
- Concurrency is not modelled: each method is one sequential step on the store.
- BuildPolygonMembers is not a method in the Java code. It is the body of `buildMultiPolygon`'s outer loop for one polygon, split out so the inner loop has its own invariant.

## Findings

| source | as written | input that shows it | evidently intended | confidence | as-written member | corrected member |
|---|---|---|---|---|---|---|
| src/main/java/org/openstreetmap/josm/plugins/openservices/JosmObjectFactory.java:56-62 | `buildPolygon` always returns `buildWay(polygon, dataSet)`. With interior rings it first builds and tags the multipolygon relation, then discards it as a return value and stores a second copy of the exterior way | a polygon with one interior ring: the result is a way, not the relation, and the exterior ring's way is stored twice | the Javadoc at lines 50-55: the result is the type=multipolygon relation when there are inner rings, and a way otherwise | high, not executed | Factory.JosmObjectFactory.BuildPolygon | Factory.JosmObjectFactory.BuildPolygonAsDocumented |
