/** `nusamai_geojson::conversion`: polygons and multipolygons of
    `nusamai_geometry` as GeoJSON geometry objects, every ring closed as
    section 3.1.6 of RFC 7946 requires. */
module GeoJsonConversion {
  import opened Common
  import G = Geometry
  import opened GeoJsonTypes

  /** A position with each coordinate widened by `to_f64` (`toF64`). */
  function ToPosition<T>(p: seq<T>, toF64: T -> F64): Position {
    MapSeq(p, toF64)
  }

  /** One ring as GeoJSON positions: closed, then converted. */
  function RingPositions<T(==)>(ring: seq<seq<T>>, toF64: T -> F64): seq<Position> {
    MapSeq(G.IterClosed(ring), (p: seq<T>) => ToPosition(p, toF64))
  }

  /** `polygon_to_rings`: the exterior, then each interior. */
  function PolygonToRings<T(==)>(poly: G.Polygon<seq<T>>, toF64: T -> F64): (rings: seq<seq<Position>>)
    ensures |rings| == 1 + |poly.interiors|
  {
    [RingPositions(poly.exterior, toF64)] +
    seq(|poly.interiors|, h requires 0 <= h < |poly.interiors| => RingPositions(poly.interiors[h], toF64))
  }

  /** The rings of a polygon as input rings: the exterior first, then the
      interiors in order. */
  function InputRings<C>(poly: G.Polygon<C>): (r: seq<seq<C>>)
    ensures |r| == 1 + |poly.interiors| && r[0] == poly.exterior && r[1..] == poly.interiors
  {
    [poly.exterior] + poly.interiors
  }

  /** Ring `k` of the output is input ring `k` closed: it is closed, it
      starts with the input positions, each of the same dimension and with
      each coordinate converted, and it has at most one position more,
      exactly when the input ring was open. */
  lemma {:induction false} PolygonToRingsSpec<T>(poly: G.Polygon<seq<T>>, toF64: T -> F64, k: nat)
    requires k <= |poly.interiors|
    ensures var ring := InputRings(poly)[k]; var out := PolygonToRings(poly, toF64)[k];
      G.IsClosed(out) &&
      |ring| <= |out| <= |ring| + 1 &&
      (|out| == |ring| <==> G.IsClosed(ring)) &&
      (forall j :: 0 <= j < |ring| ==>
        |out[j]| == |ring[j]| && forall c :: 0 <= c < |ring[j]| ==> out[j][c] == toF64(ring[j][c]))
  {
    var ring := InputRings(poly)[k];
    var out := PolygonToRings(poly, toF64)[k];
    assert out == RingPositions(ring, toF64) by {
      if k > 0 {
        assert ring == poly.interiors[k - 1];
      }
    }
    G.IterClosedSpec(ring);
    var closed := G.IterClosed(ring);
    if |ring| > 0 && !G.IsClosed(ring) {
      assert out[|out| - 1] == ToPosition(closed[|closed| - 1], toF64);
    }
    assert forall j :: 0 <= j < |ring| ==> closed[j] == ring[j];
  }

  /** `polygon_to_geojson_geometry`. */
  function PolygonToGeoJsonGeometry<T(==)>(poly: G.Polygon<seq<T>>, toF64: T -> F64): (g: GeoGeometry)
    ensures g.bbox.None? && g.foreignMembers.None?
    ensures g.value.Polygon? && |g.value.rings| == 1 + |poly.interiors|
  {
    NewGeometry(Polygon(PolygonToRings(poly, toF64)))
  }

  /** `multi_polygon_to_geojson_geometry`: one ring list per polygon, in
      order. */
  function MultiPolygonToGeoJsonGeometry<T(==)>(mpoly: seq<G.Polygon<seq<T>>>, toF64: T -> F64): (g: GeoGeometry)
    ensures g.bbox.None? && g.foreignMembers.None?
    ensures g.value.MultiPolygon? && |g.value.polygons| == |mpoly|
    ensures forall p :: 0 <= p < |mpoly| ==> g.value.polygons[p] == PolygonToRings(mpoly[p], toF64)
  {
    NewGeometry(MultiPolygon(MapSeq(mpoly, (p: G.Polygon<seq<T>>) => PolygonToRings(p, toF64))))
  }

  /** `nusamai_to_geojson_geometry`: polygons and multipolygons are
      converted, the other three kinds are not implemented and panic. */
  function NusamaiToGeoJsonGeometry<T(==)>(geometry: G.AnyGeometry<seq<T>>, toF64: T -> F64): (r: Outcome<GeoGeometry>)
    ensures r.Panics? <==> geometry.AnyMultiPoint? || geometry.AnyLineString? || geometry.AnyMultiLineString?
    ensures geometry.AnyPolygon? ==> r == Returns(PolygonToGeoJsonGeometry(geometry.polygon, toF64))
    ensures geometry.AnyMultiPolygon? ==> r == Returns(MultiPolygonToGeoJsonGeometry(geometry.polygons, toF64))
  {
    match geometry
    case AnyMultiPoint(_) => Panics
    case AnyLineString(_) => Panics
    case AnyMultiLineString(_) => Panics
    case AnyPolygon(poly) => Returns(PolygonToGeoJsonGeometry(poly, toF64))
    case AnyMultiPolygon(mpoly) => Returns(MultiPolygonToGeoJsonGeometry(mpoly, toF64))
  }

  /** A square given open, with one open hole, comes out as two rings of
      five positions, each ending with its first one. */
  lemma {:induction false} OpenSquareCloses<T>(a: seq<T>, b: seq<T>, c: seq<T>, d: seq<T>,
                            e: seq<T>, f: seq<T>, g: seq<T>, h: seq<T>, toF64: T -> F64)
    requires a != d && e != h
    ensures PolygonToRings(G.Polygon([a, b, c, d], [[e, f, g, h]]), toF64) ==
      [MapSeq([a, b, c, d, a], (p: seq<T>) => ToPosition(p, toF64)),
       MapSeq([e, f, g, h, e], (p: seq<T>) => ToPosition(p, toF64))]
  {
    G.IterClosedExamples(a, b, c, d);
    G.IterClosedExamples(e, f, g, h);
    var rings := PolygonToRings(G.Polygon([a, b, c, d], [[e, f, g, h]]), toF64);
    assert rings[1] == RingPositions([e, f, g, h], toF64);
  }
}
