/** The GeoJSON sink: each top-level city object becomes up to three
    features, one per kind of geometry it holds, and the features are
    written as one FeatureCollection (section 3.3 of RFC 7946). */
module GeoJsonSink {
  import opened Common
  import G = Geometry
  import C = CityObjects
  import opened GeoJsonTypes
  import GeoJsonConversion

  // ---------------------------------------------------------------------
  // Properties

  /** `extract_properties`: the attribute JSON of an object root, which
      `to_attribute_json` (`toJson`) always makes a JSON object; any other
      root panics. */
  function ExtractProperties(root: C.Value, toJson: C.Value -> JsonValue): (r: Outcome<Option<JsonObject>>)
    ensures r.Returns? <==> root.Object? && toJson(root).JObject?
    ensures r.Returns? ==> r.value == Some(toJson(root).members)
  {
    match root
    case Object(_) =>
      (match toJson(root)
       case JObject(m) => Returns(Some(m))
       case _ => Panics)
    case _ => Panics
  }

  // ---------------------------------------------------------------------
  // Collecting the referenced geometries

  /** `indexed_polygon_to_value`, `indexed_linestring_to_value` and
      `indexed_point_to_value`, which the sink imports from the GeoJSON
      conversion. */
  datatype IndexedConversions = IndexedConversions(
    polygon: (seq<G.Coord3>, G.Polygon<u32>) -> GeoValue,
    linestring: (seq<G.Coord3>, seq<u32>) -> GeoValue,
    point: (seq<G.Coord3>, u32) -> GeoValue)

  /** The local `polygons`, `linestrings` and `points`. */
  datatype Collected = Collected(
    polygons: seq<seq<seq<Position>>>, linestrings: seq<seq<Position>>, points: seq<Position>)

  function PolygonRings(v: GeoValue): Option<seq<seq<Position>>> {
    if v.Polygon? then Some(v.rings) else None
  }

  function LineStringPositions(v: GeoValue): Option<seq<Position>> {
    if v.LineString? then Some(v.line) else None
  }

  function PointPosition(v: GeoValue): Option<Position> {
    if v.Point? then Some(v.position) else None
  }

  /** What one geometry entry adds: solids, surfaces and triangles their
      polygons, curves their line strings, points their points; entries of
      unknown type add nothing. */
  function AddEntry(store: G.GeometryStore, e: G.GeometryRefEntry, conv: IndexedConversions, acc: Collected)
    : (r: Outcome<Collected>)
    ensures (e.ty.Solid? || e.ty.Surface? || e.ty.Triangle?) ==>
      match G.RangeValues(store.multipolygon, e.pos, e.len, (p: G.Polygon<u32>) => PolygonRings(conv.polygon(store.vertices, p)))
      case Panics => r.Panics?
      case Returns(ps) => r == Returns(Collected(acc.polygons + ps, acc.linestrings, acc.points))
    ensures e.ty.Curve? ==>
      match G.RangeValues(store.multilinestring, e.pos, e.len, (l: seq<u32>) => LineStringPositions(conv.linestring(store.vertices, l)))
      case Panics => r.Panics?
      case Returns(ls) => r == Returns(Collected(acc.polygons, acc.linestrings + ls, acc.points))
    ensures e.ty.Point? ==>
      match G.RangeValues(store.multipoint, e.pos, e.len, (i: u32) => PointPosition(conv.point(store.vertices, i)))
      case Panics => r.Panics?
      case Returns(ps) => r == Returns(Collected(acc.polygons, acc.linestrings, acc.points + ps))
    ensures e.ty.Unknown? ==> r == Returns(acc)
  {
    match e.ty
    case Solid | Surface | Triangle =>
      (match G.RangeValues(store.multipolygon, e.pos, e.len, (p: G.Polygon<u32>) => PolygonRings(conv.polygon(store.vertices, p)))
       case Panics => Panics
       case Returns(ps) => Returns(Collected(acc.polygons + ps, acc.linestrings, acc.points)))
    case Curve =>
      (match G.RangeValues(store.multilinestring, e.pos, e.len, (l: seq<u32>) => LineStringPositions(conv.linestring(store.vertices, l)))
       case Panics => Panics
       case Returns(ls) => Returns(Collected(acc.polygons, acc.linestrings + ls, acc.points)))
    case Point =>
      (match G.RangeValues(store.multipoint, e.pos, e.len, (i: u32) => PointPosition(conv.point(store.vertices, i)))
       case Panics => Panics
       case Returns(ps) => Returns(Collected(acc.polygons, acc.linestrings, acc.points + ps)))
    case Unknown => Returns(acc)
  }

  /** The geometries of `entries`, collected in order. */
  function CollectAll(store: G.GeometryStore, entries: seq<G.GeometryRefEntry>, conv: IndexedConversions)
    : Outcome<Collected>
  {
    if |entries| == 0 then Returns(Collected([], [], []))
    else match CollectAll(store, entries[..|entries| - 1], conv)
      case Panics => Panics
      case Returns(acc) => AddEntry(store, entries[|entries| - 1], conv, acc)
  }

  /** Collecting never forgets: what the first entries collected stays a
      prefix of what all of them collect. */
  lemma {:induction false} CollectAllPrefix(store: G.GeometryStore, entries: seq<G.GeometryRefEntry>,
                                           conv: IndexedConversions, n: nat)
    requires n <= |entries| && CollectAll(store, entries, conv).Returns?
    ensures CollectAll(store, entries[..n], conv).Returns?
    ensures var a := CollectAll(store, entries[..n], conv).value; var b := CollectAll(store, entries, conv).value;
      a.polygons <= b.polygons && a.linestrings <= b.linestrings && a.points <= b.points
    decreases |entries|
  {
    if n < |entries| {
      var init := entries[..|entries| - 1];
      assert entries[..n] == init[..n];
      CollectAllPrefix(store, init, conv, n);
    } else {
      assert entries[..n] == entries;
    }
  }

  // ---------------------------------------------------------------------
  // Features

  function MakeFeature(value: GeoValue, id: string, props: Option<JsonObject>): Feature {
    Feature(None, Some(NewGeometry(value)), Some(IdString(id)), props, None)
  }

  /** The features of one city object: a MultiPolygon, a MultiLineString
      and a MultiPoint feature, each only if it has members. */
  function FeaturesOf(id: string, props: Option<JsonObject>, c: Collected): seq<Feature> {
    (if c.polygons != [] then [MakeFeature(MultiPolygon(c.polygons), id, props)] else []) +
    (if c.linestrings != [] then [MakeFeature(MultiLineString(c.linestrings), id, props)] else []) +
    (if c.points != [] then [MakeFeature(MultiPoint(c.points), id, props)] else [])
  }

  /** The rank of a feature's geometry kind in the order features are made. */
  function KindRank(f: Feature): nat {
    if f.geometry.Some? && f.geometry.value.value.MultiPolygon? then 0
    else if f.geometry.Some? && f.geometry.value.value.MultiLineString? then 1
    else 2
  }

  /** At most three features, of strictly increasing kind; one of each kind
      exactly when that kind was collected, carrying all of it; every
      feature has the object's id and properties and no bounding box or
      foreign members. */
  lemma {:induction false} FeaturesOfSpec(id: string, props: Option<JsonObject>, c: Collected)
    ensures var fs := FeaturesOf(id, props, c);
      |fs| <= 3 &&
      (forall i, j :: 0 <= i < j < |fs| ==> KindRank(fs[i]) < KindRank(fs[j])) &&
      (forall i :: 0 <= i < |fs| ==>
        fs[i].geometry.Some? && fs[i].id == Some(IdString(id)) && fs[i].properties == props &&
        fs[i].bbox.None? && fs[i].foreignMembers.None? &&
        fs[i].geometry.value.bbox.None? && fs[i].geometry.value.foreignMembers.None?) &&
      ((exists i :: 0 <= i < |fs| && fs[i].geometry.value.value == MultiPolygon(c.polygons)) <==> c.polygons != []) &&
      ((exists i :: 0 <= i < |fs| && fs[i].geometry.value.value == MultiLineString(c.linestrings)) <==> c.linestrings != []) &&
      ((exists i :: 0 <= i < |fs| && fs[i].geometry.value.value == MultiPoint(c.points)) <==> c.points != [])
  {
    var fs := FeaturesOf(id, props, c);
    var np := if c.polygons != [] then 1 else 0;
    var nl := if c.linestrings != [] then 1 else 0;
    if c.polygons != [] {
      assert fs[0].geometry.value.value == MultiPolygon(c.polygons);
    }
    if c.linestrings != [] {
      assert fs[np].geometry.value.value == MultiLineString(c.linestrings);
    }
    if c.points != [] {
      assert fs[np + nl].geometry.value.value == MultiPoint(c.points);
    }
  }

  /** `toplevel_cityobj_to_geojson_features`, as a value: the properties
      are extracted first, so a non-object root panics; an object that is
      not a feature gives no features. */
  function ToplevelFeatures(entity: C.Entity, toJson: C.Value -> JsonValue, conv: IndexedConversions)
    : Outcome<seq<Feature>>
  {
    match ExtractProperties(entity.root, toJson)
    case Panics => Panics
    case Returns(props) =>
      if !entity.root.Object? || !entity.root.obj.stereotype.Feature? then Returns([])
      else
        match CollectAll(entity.geometryStore, entity.root.obj.stereotype.geometries, conv)
        case Panics => Panics
        case Returns(c) => Returns(FeaturesOf(entity.root.obj.stereotype.id, props, c))
  }

  /** A root that is not an object panics in `extract_properties`; an
      object that is not a feature gives no features; a feature gives at
      most three, each with its id and properties. */
  lemma {:induction false} ToplevelFeaturesCases(entity: C.Entity, toJson: C.Value -> JsonValue, conv: IndexedConversions)
    ensures !entity.root.Object? ==> ToplevelFeatures(entity, toJson, conv).Panics?
    ensures entity.root.Object? && toJson(entity.root).JObject? && !entity.root.obj.stereotype.Feature? ==>
      ToplevelFeatures(entity, toJson, conv) == Returns([])
    ensures ToplevelFeatures(entity, toJson, conv).Returns? ==>
      var fs := ToplevelFeatures(entity, toJson, conv).value;
      |fs| <= 3 &&
      forall i :: 0 <= i < |fs| ==>
        fs[i].id == Some(IdString(entity.root.obj.stereotype.id)) &&
        fs[i].properties == Some(toJson(entity.root).members)
  {
    var r := ToplevelFeatures(entity, toJson, conv);
    if r.Returns? && entity.root.obj.stereotype.Feature? {
      var c := CollectAll(entity.geometryStore, entity.root.obj.stereotype.geometries, conv).value;
      FeaturesOfSpec(entity.root.obj.stereotype.id, Some(toJson(entity.root).members), c);
    }
  }

  /** `toplevel_cityobj_to_geojson_features`: the loop over the feature's
      geometry entries filling the three lists, then the features. */
  method ToplevelCityobjToGeojsonFeatures(entity: C.Entity, toJson: C.Value -> JsonValue, conv: IndexedConversions)
      returns (r: Outcome<seq<Feature>>)
    ensures r == ToplevelFeatures(entity, toJson, conv)
  {
    var properties := ExtractProperties(entity.root, toJson);
    if properties.Panics? {
      return Panics;
    }
    if !entity.root.Object? || !entity.root.obj.stereotype.Feature? {
      return Returns([]);
    }
    var store := entity.geometryStore;
    var geometries := entity.root.obj.stereotype.geometries;
    var acc := Collected([], [], []);
    var i := 0;
    while i < |geometries|
      invariant 0 <= i <= |geometries|
      invariant CollectAll(store, geometries[..i], conv) == Returns(acc)
    {
      assert geometries[..i + 1][..i] == geometries[..i];
      var next := AddEntryStep(store, geometries[i], conv, acc);
      if next.Panics? {
        PanicsPersist(store, geometries, conv, i + 1);
        assert geometries[..|geometries|] == geometries;
        return Panics;
      }
      acc := next.value;
      i := i + 1;
    }
    assert geometries[..i] == geometries;
    r := Returns(FeaturesOf(entity.root.obj.stereotype.id, properties.value, acc));
  }

  /** The `match entry.ty` of the loop body. */
  method AddEntryStep(store: G.GeometryStore, e: G.GeometryRefEntry, conv: IndexedConversions, acc: Collected)
      returns (r: Outcome<Collected>)
    ensures r == AddEntry(store, e, conv, acc)
  {
    match e.ty {
      case Solid | Surface | Triangle =>
        var ps := G.CollectRange(store.multipolygon, e.pos, e.len, (p: G.Polygon<u32>) => PolygonRings(conv.polygon(store.vertices, p)));
        r := if ps.Panics? then Panics else Returns(Collected(acc.polygons + ps.value, acc.linestrings, acc.points));
      case Curve =>
        var ls := G.CollectRange(store.multilinestring, e.pos, e.len, (l: seq<u32>) => LineStringPositions(conv.linestring(store.vertices, l)));
        r := if ls.Panics? then Panics else Returns(Collected(acc.polygons, acc.linestrings + ls.value, acc.points));
      case Point =>
        var ps := G.CollectRange(store.multipoint, e.pos, e.len, (i: u32) => PointPosition(conv.point(store.vertices, i)));
        r := if ps.Panics? then Panics else Returns(Collected(acc.polygons, acc.linestrings, acc.points + ps.value));
      case Unknown =>
        r := Returns(acc);
    }
  }

  /** Once an entry panics, collecting any longer list of entries panics. */
  lemma {:induction false} PanicsPersist(store: G.GeometryStore, entries: seq<G.GeometryRefEntry>,
                                        conv: IndexedConversions, n: nat)
    requires n <= |entries| && CollectAll(store, entries[..n], conv).Panics?
    ensures CollectAll(store, entries, conv).Panics?
    decreases |entries| - n
  {
    if n < |entries| {
      assert entries[..n + 1][..n] == entries[..n];
      PanicsPersist(store, entries, conv, n + 1);
    } else {
      assert entries[..n] == entries;
    }
  }

  /** What `indexed_polygon_to_value` is taken to compute: the polygon of
      the positions the indices refer to, converted by `polygon_to_rings`. */
  function ResolvedPolygonValue(vertices: seq<G.Coord3>, p: G.Polygon<u32>): GeoValue {
    Polygon(GeoJsonConversion.PolygonToRings(ResolvedPolygon(vertices, p), SameF64))
  }

  function ResolvedRing(vertices: seq<G.Coord3>, ring: seq<u32>): (r: seq<seq<F64>>)
    ensures |r| == |ring| && forall k :: 0 <= k < |ring| ==> r[k] == CoordList(G.VertexAt(vertices, ring[k]))
  {
    seq(|ring|, k requires 0 <= k < |ring| => CoordList(G.VertexAt(vertices, ring[k])))
  }

  function ResolvedPolygon(vertices: seq<G.Coord3>, p: G.Polygon<u32>): G.Polygon<seq<F64>> {
    G.Polygon(ResolvedRing(vertices, p.exterior),
              seq(|p.interiors|, h requires 0 <= h < |p.interiors| => ResolvedRing(vertices, p.interiors[h])))
  }

  function CoordList(c: G.Coord3): seq<F64> {
    [c.x, c.y, c.z]
  }

  function SameF64(x: F64): F64 {
    x
  }

  /** An object feature "dummy" referring to one Solid polygon. */
  function SquareRoot(): C.Value {
    C.Value.Object(C.Obj("dummy", [], C.ObjectStereotype.Feature("dummy", [G.GeometryRefEntry(G.Solid, 1, 0, 1)])))
  }

  /** One Solid entry over a square whose index ring is already closed gives
      exactly one MultiPolygon feature holding one polygon of one ring of
      five positions, ending with the first. */
  lemma {:induction false} SolidSquareExample(a: G.Coord3, b: G.Coord3, c: G.Coord3, d: G.Coord3, toJson: C.Value -> JsonValue,
                           conv: IndexedConversions)
    requires conv.polygon == ResolvedPolygonValue
    requires toJson(SquareRoot()).JObject?
    ensures var store := G.GeometryStore(G.EPSG_JGD2011_GEOGRAPHIC_3D, [a, b, c, d], [G.Polygon([0, 1, 2, 3, 0], [])], [], []);
      var r := ToplevelFeatures(C.Entity(SquareRoot(), "", store, 0), toJson, conv);
      r.Returns? && |r.value| == 1 && r.value[0].id == Some(IdString("dummy")) &&
      r.value[0].geometry.value.value ==
        MultiPolygon([[[CoordList(a), CoordList(b), CoordList(c), CoordList(d), CoordList(a)]]])
  {
    var vs := [a, b, c, d];
    var store := G.GeometryStore(G.EPSG_JGD2011_GEOGRAPHIC_3D, vs, [G.Polygon([0, 1, 2, 3, 0], [])], [], []);
    var entries := [G.GeometryRefEntry(G.Solid, 1, 0, 1)];
    var ring: seq<u32> := [0, 1, 2, 3, 0];
    var q := ResolvedPolygon(vs, G.Polygon(ring, []));
    assert q.exterior == [CoordList(a), CoordList(b), CoordList(c), CoordList(d), CoordList(a)];
    assert G.IterClosed(q.exterior) == q.exterior;
    var rings := GeoJsonConversion.PolygonToRings(q, SameF64);
    var r0 := GeoJsonConversion.RingPositions(q.exterior, SameF64);
    assert rings == [r0];
    forall k | 0 <= k < 5 ensures r0[k] == q.exterior[k] {
      assert r0[k] == GeoJsonConversion.ToPosition(q.exterior[k], SameF64);
      assert MapSeq(q.exterior[k], SameF64) == q.exterior[k];
    }
    assert r0 == q.exterior;
    assert rings == [[CoordList(a), CoordList(b), CoordList(c), CoordList(d), CoordList(a)]];
    assert conv.polygon(vs, G.Polygon(ring, [])) == Polygon(rings);
    var added := AddEntry(store, entries[0], conv, Collected([], [], []));
    assert added.Returns? && |added.value.polygons| == 1;
    assert Some(added.value.polygons[0]) == Some(rings);
    assert added.value.polygons == [rings];
    assert added.value.linestrings == [] && added.value.points == [];
    assert added == Returns(Collected([rings], [], []));
    assert entries[..0] == [];
    assert CollectAll(store, entries, conv) == Returns(Collected([rings], [], []));
  }

  // ---------------------------------------------------------------------
  // Writing the FeatureCollection

  /** `{"type":"FeatureCollection","features":[` and `]}` with a newline. */
  const COLLECTION_HEADER: seq<byte> := Ascii("{\"type\":\"FeatureCollection\",\"features\":[")
  const COLLECTION_FOOTER: seq<byte> := Ascii("]}\n")
  const COMMA: seq<byte> := Ascii(",")

  /** The writer half of `run`: the header, each serialised feature with a
      comma before every feature but the first, then the footer. */
  method WriteFeatureCollection(features: seq<seq<byte>>) returns (out: seq<byte>)
    ensures out == COLLECTION_HEADER + Join(features, COMMA) + COLLECTION_FOOTER
  {
    out := COLLECTION_HEADER;
    var i := 0;
    while i < |features|
      invariant 0 <= i <= |features|
      invariant out == COLLECTION_HEADER + Join(features[..i], COMMA) + (if 0 < i < |features| then COMMA else [])
    {
      if i > 0 {
        JoinAppend(features[..i], features[i], COMMA);
      }
      assert features[..i + 1] == features[..i] + [features[i]];
      out := out + features[i];
      if i + 1 < |features| {
        out := out + COMMA;
      }
      i := i + 1;
    }
    assert features[..i] == features;
    out := out + COLLECTION_FOOTER;
  }

  /** The written collection starts with the header and ends with the
      footer, and feature `k` sits after the header, the features before it
      and `k` commas. */
  lemma {:induction false} CollectionLayout(features: seq<seq<byte>>, k: nat)
    requires k < |features|
    ensures var out := COLLECTION_HEADER + Join(features, COMMA) + COLLECTION_FOOTER;
      var o := |COLLECTION_HEADER| + SumLengths(features[..k]) + k;
      out[..|COLLECTION_HEADER|] == COLLECTION_HEADER &&
      out[|out| - |COLLECTION_FOOTER|..] == COLLECTION_FOOTER &&
      |out| == |COLLECTION_HEADER| + SumLengths(features) + |features| - 1 + |COLLECTION_FOOTER| &&
      o + |features[k]| <= |out| && out[o..o + |features[k]|] == features[k]
  {
    var j := Join(features, COMMA);
    JoinAt(features, COMMA, k);
    JoinLength(features, COMMA);
    var o := SumLengths(features[..k]) + k;
    assert (COLLECTION_HEADER + j + COLLECTION_FOOTER)[|COLLECTION_HEADER| + o..|COLLECTION_HEADER| + o + |features[k]|]
      == j[o..o + |features[k]|];
  }
}
