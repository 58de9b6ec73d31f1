/** `nusamai_kml::conversion`: polygons, multipolygons and multipoints of
    `nusamai_geometry` as KML geometries, either over positions or over
    indices into a shared vertex buffer. */
module KmlConversion {
  import opened Common
  import G = Geometry

  // ---------------------------------------------------------------------
  // The values of the `kml` crate

  datatype AltitudeMode = ClampToGround | RelativeToGround | Absolute

  datatype Coord = Coord(x: F64, y: F64, z: Option<F64>)

  datatype LinearRing = LinearRing(
    coords: seq<Coord>, extrude: bool, tessellate: bool, altitudeMode: AltitudeMode, attrs: map<string, string>)

  datatype KmlPolygon = KmlPolygon(
    outer: LinearRing, inner: seq<LinearRing>, extrude: bool, tessellate: bool,
    altitudeMode: AltitudeMode, attrs: map<string, string>)

  /** `kml::types::Point`; its other fields keep the crate's defaults and
      are not modelled. */
  datatype KmlPoint = KmlPoint(coord: Coord)

  datatype KmlGeometry =
    | PointGeometry(point: KmlPoint)
    | PolygonGeometry(polygon: KmlPolygon)
    | MultiGeometryGeometry(multi: MultiGeometry)

  datatype MultiGeometry = MultiGeometry(geometries: seq<KmlGeometry>, attrs: map<string, string>)

  // ---------------------------------------------------------------------
  // Conversions with a mapping of positions to `[f64; 3]`

  function ToCoord(c: G.Coord3): Coord {
    Coord(c.x, c.y, Some(c.z))
  }

  /** The settings every ring and polygon is written with. */
  predicate RingSettings(r: LinearRing) {
    r.extrude && !r.tessellate && r.altitudeMode == Absolute && r.attrs == map[]
  }

  predicate PolygonSettings(p: KmlPolygon) {
    p.extrude && !p.tessellate && p.altitudeMode == Absolute && p.attrs == map[] &&
    RingSettings(p.outer) && forall h :: 0 <= h < |p.inner| ==> RingSettings(p.inner[h])
  }

  /** A ring of positions, closed, mapped and written as a `LinearRing`. */
  function ClosedRing<C(==)>(ring: seq<C>, mapping: C -> G.Coord3): (r: LinearRing)
    ensures RingSettings(r)
  {
    LinearRing(MapSeq(G.IterClosed(ring), (c: C) => ToCoord(mapping(c))), true, false, Absolute, map[])
  }

  /** `polygon_to_kml_outer_boundary_with_mapping`. */
  function OuterBoundary<C(==)>(poly: G.Polygon<C>, mapping: C -> G.Coord3): LinearRing {
    ClosedRing(poly.exterior, mapping)
  }

  /** `polygon_to_kml_inner_boundary_with_mapping`. */
  function InnerBoundary<C(==)>(poly: G.Polygon<C>, mapping: C -> G.Coord3): (r: seq<LinearRing>)
    ensures |r| == |poly.interiors|
  {
    seq(|poly.interiors|, h requires 0 <= h < |poly.interiors| => ClosedRing(poly.interiors[h], mapping))
  }

  /** `polygon_to_kml_polygon_with_mapping`. */
  function PolygonToKmlPolygon<C(==)>(poly: G.Polygon<C>, mapping: C -> G.Coord3): (r: KmlPolygon)
    ensures PolygonSettings(r)
  {
    KmlPolygon(OuterBoundary(poly, mapping), InnerBoundary(poly, mapping), true, false, Absolute, map[])
  }

  /** `polygon_to_kml_with_mapping`: a multi-geometry holding one polygon. */
  function PolygonToKmlWithMapping<C(==)>(poly: G.Polygon<C>, mapping: C -> G.Coord3): MultiGeometry {
    MultiGeometry([PolygonGeometry(PolygonToKmlPolygon(poly, mapping))], map[])
  }

  /** `multipolygon_to_kml_with_mapping`: one nested multi-geometry per
      polygon. */
  function MultipolygonToKmlWithMapping<C(==)>(mpoly: seq<G.Polygon<C>>, mapping: C -> G.Coord3): MultiGeometry {
    MultiGeometry(MapSeq(mpoly, (p: G.Polygon<C>) => MultiGeometryGeometry(PolygonToKmlWithMapping(p, mapping))), map[])
  }

  /** `multipoint_to_kml_with_mapping`: one point per position. */
  function MultipointToKmlWithMapping<C>(mpoint: seq<C>, mapping: C -> G.Coord3): MultiGeometry {
    MultiGeometry(MapSeq(mpoint, (c: C) => PointGeometry(KmlPoint(ToCoord(mapping(c))))), map[])
  }

  /** A ring comes out closed, starts with the given positions mapped, has
      at most one position more and carries the fixed settings. */
  lemma {:induction false} ClosedRingSpec<C>(ring: seq<C>, mapping: C -> G.Coord3)
    ensures var r := ClosedRing(ring, mapping);
      G.IsClosed(r.coords) && RingSettings(r) &&
      |ring| <= |r.coords| <= |ring| + 1 &&
      (|r.coords| == |ring| <==> G.IsClosed(ring)) &&
      forall j :: 0 <= j < |ring| ==> r.coords[j] == ToCoord(mapping(ring[j]))
  {
    G.IterClosedSpec(ring);
  }

  /** `polygon_to_kml_with_mapping` yields exactly one geometry, a polygon
      whose outer ring is the closed exterior and whose inner rings are the
      closed interiors in order, all with the fixed settings. */
  lemma {:induction false} PolygonToKmlSpec<C>(poly: G.Polygon<C>, mapping: C -> G.Coord3)
    ensures var m := PolygonToKmlWithMapping(poly, mapping);
      |m.geometries| == 1 && m.geometries[0].PolygonGeometry? && m.attrs == map[] &&
      var p := m.geometries[0].polygon;
      PolygonSettings(p) &&
      p.outer == ClosedRing(poly.exterior, mapping) && G.IsClosed(p.outer.coords) &&
      |p.inner| == |poly.interiors| &&
      forall h :: 0 <= h < |p.inner| ==> p.inner[h] == ClosedRing(poly.interiors[h], mapping) && G.IsClosed(p.inner[h].coords)
  {
    ClosedRingSpec(poly.exterior, mapping);
    forall h | 0 <= h < |poly.interiors| {
      ClosedRingSpec(poly.interiors[h], mapping);
    }
  }

  /** One point per input position, in order, with its third coordinate as
      the altitude. */
  lemma {:induction false} MultipointToKmlSpec<C>(mpoint: seq<C>, mapping: C -> G.Coord3)
    ensures var m := MultipointToKmlWithMapping(mpoint, mapping);
      |m.geometries| == |mpoint| && m.attrs == map[] &&
      forall k :: 0 <= k < |mpoint| ==>
        m.geometries[k] == PointGeometry(KmlPoint(Coord(mapping(mpoint[k]).x, mapping(mpoint[k]).y, Some(mapping(mpoint[k]).z))))
  {
  }

  /** One nested multi-geometry per polygon, in order. */
  lemma {:induction false} MultipolygonToKmlSpec<C>(mpoly: seq<G.Polygon<C>>, mapping: C -> G.Coord3)
    ensures var m := MultipolygonToKmlWithMapping(mpoly, mapping);
      |m.geometries| == |mpoly| && m.attrs == map[] &&
      forall k :: 0 <= k < |mpoly| ==> m.geometries[k] == MultiGeometryGeometry(PolygonToKmlWithMapping(mpoly[k], mapping))
  {
  }

  // ---------------------------------------------------------------------
  // Over positions

  function Identity(c: G.Coord3): G.Coord3 {
    c
  }

  /** `polygon_to_kml`. */
  function PolygonToKml(poly: G.Polygon<G.Coord3>): MultiGeometry {
    PolygonToKmlWithMapping(poly, Identity)
  }

  /** `multipolygon_to_kml`. */
  function MultipolygonToKml(mpoly: seq<G.Polygon<G.Coord3>>): MultiGeometry {
    MultipolygonToKmlWithMapping(mpoly, Identity)
  }

  /** `multipoint_to_kml`. */
  function MultipointToKml(mpoint: seq<G.Coord3>): MultiGeometry {
    MultipointToKmlWithMapping(mpoint, Identity)
  }

  // ---------------------------------------------------------------------
  // Over indices into a vertex buffer

  /** `indexed_polygon_to_kml`: indexing the vertex buffer panics on an
      index outside it. */
  function IndexedPolygonToKml(vertices: seq<G.Coord3>, poly: G.Polygon<u32>): (r: Outcome<MultiGeometry>)
    ensures r.Panics? <==> !G.PolygonInRange(poly, |vertices|)
  {
    if G.PolygonInRange(poly, |vertices|) then
      Returns(PolygonToKmlWithMapping(poly, (i: u32) => G.VertexAt(vertices, i)))
    else Panics
  }

  /** `indexed_multipolygon_to_kml`. */
  function IndexedMultipolygonToKml(vertices: seq<G.Coord3>, mpoly: seq<G.Polygon<u32>>): (r: Outcome<MultiGeometry>)
    ensures r.Panics? <==> exists p :: 0 <= p < |mpoly| && !G.PolygonInRange(mpoly[p], |vertices|)
  {
    if forall p :: 0 <= p < |mpoly| ==> G.PolygonInRange(mpoly[p], |vertices|) then
      Returns(MultipolygonToKmlWithMapping(mpoly, (i: u32) => G.VertexAt(vertices, i)))
    else Panics
  }

  /** `indexed_multipoint_to_kml`. */
  function IndexedMultipointToKml(vertices: seq<G.Coord3>, mpoint: seq<u32>): (r: Outcome<MultiGeometry>)
    ensures r.Panics? <==> !G.RingInRange(mpoint, |vertices|)
  {
    if G.RingInRange(mpoint, |vertices|) then
      Returns(MultipointToKmlWithMapping(mpoint, (i: u32) => G.VertexAt(vertices, i)))
    else Panics
  }

  /** The vertex buffer holds each position once, as vertex interning
      leaves it. */
  predicate Distinct(vertices: seq<G.Coord3>) {
    forall i, j :: 0 <= i < |vertices| && 0 <= j < |vertices| && vertices[i] == vertices[j] ==> i == j
  }

  /** The positions an index ring refers to. */
  function Resolve(vertices: seq<G.Coord3>, ring: seq<u32>): seq<G.Coord3> {
    MapSeq(ring, (i: u32) => G.VertexAt(vertices, i))
  }

  /** Over a buffer of distinct vertices, an index ring closes where the
      ring of the positions it refers to closes. */
  lemma {:induction false} ClosedRingResolved(vertices: seq<G.Coord3>, ring: seq<u32>)
    requires Distinct(vertices) && G.RingInRange(ring, |vertices|)
    ensures ClosedRing(ring, (i: u32) => G.VertexAt(vertices, i)) == ClosedRing(Resolve(vertices, ring), Identity)
  {
    var f := (i: u32) => G.VertexAt(vertices, i);
    G.IterClosedMap(ring, f);
    var closed := G.IterClosed(ring);
    var a := MapSeq(closed, (c: u32) => ToCoord(f(c)));
    var b := MapSeq(G.IterClosed(MapSeq(ring, f)), (c: G.Coord3) => ToCoord(Identity(c)));
    assert a == b by {
      assert MapSeq(closed, f) == G.IterClosed(MapSeq(ring, f));
      forall k | 0 <= k < |a| ensures a[k] == b[k] {
        assert b[k] == ToCoord(MapSeq(closed, f)[k]);
      }
    }
  }

  /** The indexed polygon conversion is the plain one applied to the
      positions the indices refer to, over a buffer of distinct vertices. */
  lemma {:induction false} IndexedPolygonMatchesPlain(vertices: seq<G.Coord3>, poly: G.Polygon<u32>)
    requires Distinct(vertices) && G.PolygonInRange(poly, |vertices|)
    ensures IndexedPolygonToKml(vertices, poly) == Returns(PolygonToKml(G.ResolvePolygon(vertices, poly)))
  {
    var f := (i: u32) => G.VertexAt(vertices, i);
    var q := G.ResolvePolygon(vertices, poly);
    ClosedRingResolved(vertices, poly.exterior);
    forall h | 0 <= h < |poly.interiors|
      ensures InnerBoundary(poly, f)[h] == InnerBoundary(q, Identity)[h]
    {
      ClosedRingResolved(vertices, poly.interiors[h]);
    }
    assert OuterBoundary(poly, f) == OuterBoundary(q, Identity);
    assert InnerBoundary(poly, f) == InnerBoundary(q, Identity);
  }

  /** The same for multipolygons, polygon by polygon. */
  lemma {:induction false} IndexedMultipolygonMatchesPlain(vertices: seq<G.Coord3>, mpoly: seq<G.Polygon<u32>>)
    requires Distinct(vertices)
    requires forall p :: 0 <= p < |mpoly| ==> G.PolygonInRange(mpoly[p], |vertices|)
    ensures IndexedMultipolygonToKml(vertices, mpoly) ==
      Returns(MultipolygonToKml(MapSeq(mpoly, (p: G.Polygon<u32>) => G.ResolvePolygon(vertices, p))))
  {
    var f := (i: u32) => G.VertexAt(vertices, i);
    var qs := MapSeq(mpoly, (p: G.Polygon<u32>) => G.ResolvePolygon(vertices, p));
    forall k | 0 <= k < |mpoly|
      ensures PolygonToKmlWithMapping(mpoly[k], f) == PolygonToKml(qs[k])
    {
      IndexedPolygonMatchesPlain(vertices, mpoly[k]);
    }
    assert MultipolygonToKmlWithMapping(mpoly, f).geometries == MultipolygonToKml(qs).geometries;
  }

  /** The indexed multipoint conversion is the plain one on the positions
      referred to; no closing is involved, so duplicates do not matter. */
  lemma {:induction false} IndexedMultipointMatchesPlain(vertices: seq<G.Coord3>, mpoint: seq<u32>)
    requires G.RingInRange(mpoint, |vertices|)
    ensures IndexedMultipointToKml(vertices, mpoint) == Returns(MultipointToKml(Resolve(vertices, mpoint)))
  {
    var f := (i: u32) => G.VertexAt(vertices, i);
    var a := MultipointToKmlWithMapping(mpoint, f).geometries;
    var b := MultipointToKml(Resolve(vertices, mpoint)).geometries;
    var r := Resolve(vertices, mpoint);
    assert |a| == |b|;
    forall k | 0 <= k < |a| ensures a[k] == b[k] {
      assert r[k] == f(mpoint[k]);
      assert a[k] == PointGeometry(KmlPoint(ToCoord(f(mpoint[k]))));
      assert b[k] == PointGeometry(KmlPoint(ToCoord(Identity(r[k]))));
    }
    assert a == b;
  }

  /** Over a buffer with a repeated vertex the two can differ: the index
      ring `[0, 1, 2, 3]` is closed with index 0 although vertex 3 repeats
      vertex 0. */
  lemma {:induction false} IndexedClosesByIndex(a: G.Coord3, b: G.Coord3, c: G.Coord3)
    ensures var vs := [a, b, c, a];
      |ClosedRing([0 as u32, 1, 2, 3], (i: u32) => G.VertexAt(vs, i)).coords| == 5 &&
      |ClosedRing(Resolve(vs, [0 as u32, 1, 2, 3]), Identity).coords| == 4
  {
    var vs := [a, b, c, a];
    assert Resolve(vs, [0 as u32, 1, 2, 3]) == [a, b, c, a];
  }
}
