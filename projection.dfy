/** The coordinate-reference-system transform: a dispatch on the input and
    output EPSG codes that rewrites every vertex of an entity's geometry
    store in place and records the new code. */
module Projections {
  import opened Common
  import opened Geometry
  import C = CityObjects
  import S = Schemas

  /** EPSG code of WGS 84 geographic 3D. */
  const EPSG_WGS84_GEOGRAPHIC_3D: nat := 4979

  /** EPSG codes of the 13 zones of the Japan Plane Rectangular CS with
      JGD2011 (vertical) height: zone I is 10162, zone XIII is 10174. */
  const EPSG_JPRECT_I: nat := 10162
  const EPSG_JPRECT_XIII: nat := 10174

  predicate IsJprect(code: nat) {
    EPSG_JPRECT_I <= code <= EPSG_JPRECT_XIII
  }

  /** `Jgd2011ToWgs84::convert(lng, lat, height)`; its formulas are not part
      of this model. */
  type Converter = (F64, F64, F64) -> Coord3

  /** `ExtendedTransverseMercatorProjection::project_forward(lng, lat,
      height)` of one zone: `None` where the projection reports an error. */
  type ZoneProjection = (F64, F64, F64) -> Option<Coord3>

  /** The double 0.0. */
  const ZERO: F64 := F64(0)

  /** JGD2011 to WGS 84 for one vertex: the stored (lat, lng) are swapped to
      (lng, lat) before conversion. */
  function SwapConvert(jgd2wgs: Converter, v: Coord3): Coord3 {
    jgd2wgs(v.y, v.x, v.z)
  }

  /** JGD2011 to a plane rectangular zone for every vertex, stopping at the
      first error: the projected x and y replace the first two coordinates
      and the height stays. */
  function ProjectAll(proj: ZoneProjection, vs: seq<Coord3>): Option<seq<Coord3>> {
    if vs == [] then Some([])
    else
      var n := |vs|;
      var v := vs[n - 1];
      match ProjectAll(proj, vs[..n - 1])
      case None => None
      case Some(init) =>
        match proj(v.y, v.x, ZERO)
        case None => None
        case Some(p) => Some(init + [Coord3(p.x, p.y, v.z)])
  }

  predicate Projects(proj: ZoneProjection, v: Coord3) {
    proj(v.y, v.x, ZERO).Some?
  }

  /** Projection succeeds exactly when every vertex projects; then each
      vertex gets its projected x and y and keeps its height. */
  lemma {:induction false} ProjectAllSpec(proj: ZoneProjection, vs: seq<Coord3>)
    ensures ProjectAll(proj, vs).Some? <==> forall k :: 0 <= k < |vs| ==> Projects(proj, vs[k])
    ensures ProjectAll(proj, vs).Some? ==>
      var r := ProjectAll(proj, vs).value;
      |r| == |vs| &&
      forall k :: 0 <= k < |vs| ==>
        var p := proj(vs[k].y, vs[k].x, ZERO).value;
        r[k] == Coord3(p.x, p.y, vs[k].z)
  {
    if vs != [] {
      var n := |vs|;
      var init := vs[..n - 1];
      ProjectAllSpec(proj, init);
      assert forall k :: 0 <= k < n - 1 ==> init[k] == vs[k];
      if ProjectAll(proj, init).Some? && !Projects(proj, vs[n - 1]) {
        assert ProjectAll(proj, vs).None?;
      }
    }
  }

  /** The store after the transform, or `Panics`: JGD2011 to WGS 84 swaps
      and converts; JGD2011 to a plane rectangular zone projects (and panics
      without a zone projection or on a projection error, the `unwrap`s);
      WGS 84 to WGS 84 does nothing; WGS 84 to a zone is unimplemented and
      every other pair is unsupported, both panics. */
  function TransformStore(jgd2wgs: Converter, outputEpsg: nat, jprZoneProj: Option<ZoneProjection>,
                          store: GeometryStore): Outcome<GeometryStore>
  {
    if store.epsg == EPSG_JGD2011_GEOGRAPHIC_3D then
      if outputEpsg == EPSG_WGS84_GEOGRAPHIC_3D then
        Returns(store.(vertices := MapSeq(store.vertices, v => SwapConvert(jgd2wgs, v)), epsg := outputEpsg))
      else if IsJprect(outputEpsg) then
        match jprZoneProj
        case None => Panics
        case Some(proj) =>
          match ProjectAll(proj, store.vertices)
          case None => Panics
          case Some(vs) => Returns(store.(vertices := vs, epsg := outputEpsg))
      else Panics
    else if store.epsg == EPSG_WGS84_GEOGRAPHIC_3D && outputEpsg == EPSG_WGS84_GEOGRAPHIC_3D then
      Returns(store)
    else Panics
  }

  /** When the transform returns, the store has the output code, the same
      number of vertices and the same polygons, line strings and points. */
  lemma {:induction false} TransformStoreShape(jgd2wgs: Converter, outputEpsg: nat, jprZoneProj: Option<ZoneProjection>,
                            store: GeometryStore)
    ensures var r := TransformStore(jgd2wgs, outputEpsg, jprZoneProj, store);
      r.Returns? ==>
        r.value.epsg == outputEpsg && |r.value.vertices| == |store.vertices| &&
        r.value.multipolygon == store.multipolygon &&
        r.value.multilinestring == store.multilinestring &&
        r.value.multipoint == store.multipoint
  {
    if store.epsg == EPSG_JGD2011_GEOGRAPHIC_3D && IsJprect(outputEpsg) && jprZoneProj.Some? {
      ProjectAllSpec(jprZoneProj.value, store.vertices);
    }
  }

  /** The transform panics exactly outside the three supported pairs, for a
      zone output without its zone projection, or when a vertex fails to
      project. */
  lemma {:induction false} TransformStorePanics(jgd2wgs: Converter, outputEpsg: nat, jprZoneProj: Option<ZoneProjection>,
                             store: GeometryStore)
    ensures TransformStore(jgd2wgs, outputEpsg, jprZoneProj, store).Panics? <==>
      if store.epsg == EPSG_JGD2011_GEOGRAPHIC_3D then
        outputEpsg != EPSG_WGS84_GEOGRAPHIC_3D &&
        (IsJprect(outputEpsg) ==>
          jprZoneProj.None? ||
          exists k :: 0 <= k < |store.vertices| && !Projects(jprZoneProj.value, store.vertices[k]))
      else !(store.epsg == EPSG_WGS84_GEOGRAPHIC_3D && outputEpsg == EPSG_WGS84_GEOGRAPHIC_3D)
  {
    if store.epsg == EPSG_JGD2011_GEOGRAPHIC_3D && IsJprect(outputEpsg) && jprZoneProj.Some? {
      ProjectAllSpec(jprZoneProj.value, store.vertices);
    }
  }

  /** JGD2011 to WGS 84: vertex `k` becomes the conversion of (lng, lat,
      height), the first two stored coordinates swapped. */
  lemma {:induction false} ToWgs84Vertices(jgd2wgs: Converter, jprZoneProj: Option<ZoneProjection>, store: GeometryStore, k: nat)
    requires store.epsg == EPSG_JGD2011_GEOGRAPHIC_3D && k < |store.vertices|
    ensures var r := TransformStore(jgd2wgs, EPSG_WGS84_GEOGRAPHIC_3D, jprZoneProj, store);
      r.Returns? && r.value.vertices[k] == jgd2wgs(store.vertices[k].y, store.vertices[k].x, store.vertices[k].z)
  {
  }

  /** JGD2011 to a zone: vertex `k` takes the projected x and y of (lng, lat)
      and keeps its height. */
  lemma {:induction false} ToJprectVertices(jgd2wgs: Converter, outputEpsg: nat, proj: ZoneProjection, store: GeometryStore, k: nat)
    requires store.epsg == EPSG_JGD2011_GEOGRAPHIC_3D && IsJprect(outputEpsg) && k < |store.vertices|
    requires TransformStore(jgd2wgs, outputEpsg, Some(proj), store).Returns?
    ensures var r := TransformStore(jgd2wgs, outputEpsg, Some(proj), store).value;
      var v := store.vertices[k];
      Projects(proj, v) && |r.vertices| == |store.vertices| &&
      r.vertices[k] == Coord3(proj(v.y, v.x, ZERO).value.x, proj(v.y, v.x, ZERO).value.y, v.z)
  {
    ProjectAllSpec(proj, store.vertices);
  }

  /** WGS 84 to WGS 84 leaves the store as it was. */
  lemma {:induction false} Wgs84Unchanged(jgd2wgs: Converter, jprZoneProj: Option<ZoneProjection>, store: GeometryStore)
    requires store.epsg == EPSG_WGS84_GEOGRAPHIC_3D
    ensures TransformStore(jgd2wgs, EPSG_WGS84_GEOGRAPHIC_3D, jprZoneProj, store) == Returns(store)
  {
  }

  /** `ProjectionTransform`: the shared converter, the output code and, for
      a plane rectangular output, the zone's projection. */
  class ProjectionTransform {
    const jgd2wgs: Converter
    const outputEpsg: nat
    const jprZoneProj: Option<ZoneProjection>

    /** `ProjectionTransform::new(jgd2wgs, output_epsg)`; `zoneFromEpsg` is
        `JPRZone::from_epsg` followed by `projection()`, which are not part
        of this model. */
    constructor (jgd2wgs: Converter, outputEpsg: nat, zoneFromEpsg: nat -> Option<ZoneProjection>)
      ensures this.jgd2wgs == jgd2wgs && this.outputEpsg == outputEpsg
      ensures jprZoneProj == zoneFromEpsg(outputEpsg)
    {
      this.jgd2wgs := jgd2wgs;
      this.outputEpsg := outputEpsg;
      this.jprZoneProj := zoneFromEpsg(outputEpsg);
    }

    /** The vertices rewritten to a plane rectangular zone, one at a time;
        `None` at the first projection error. */
    method ProjectVertices(proj: ZoneProjection, vs: seq<Coord3>) returns (r: Option<seq<Coord3>>)
      ensures r == ProjectAll(proj, vs)
    {
      var out: seq<Coord3> := [];
      var i := 0;
      while i < |vs|
        invariant 0 <= i <= |vs|
        invariant ProjectAll(proj, vs[..i]) == Some(out)
      {
        var v := vs[i];
        assert vs[..i + 1][..i] == vs[..i];
        match proj(v.y, v.x, ZERO) {
          case None =>
            ProjectFails(proj, vs, i + 1);
            return None;
          case Some(p) =>
            out := out + [Coord3(p.x, p.y, v.z)];
        }
        i := i + 1;
      }
      assert vs[..i] == vs;
      return Some(out);
    }

    /** The vertices converted to WGS 84, one at a time. */
    method ConvertVertices(vs: seq<Coord3>) returns (r: seq<Coord3>)
      ensures r == MapSeq(vs, v => SwapConvert(jgd2wgs, v))
    {
      r := [];
      var i := 0;
      while i < |vs|
        invariant 0 <= i <= |vs|
        invariant r == MapSeq(vs[..i], v => SwapConvert(jgd2wgs, v))
      {
        var v := vs[i];
        assert vs[..i + 1] == vs[..i] + [v];
        MapSeqAppend(vs[..i], v, w => SwapConvert(jgd2wgs, w));
        r := r + [jgd2wgs(v.y, v.x, v.z)];
        i := i + 1;
      }
      assert vs[..i] == vs;
    }

    /** `transform`: rewrite the entity's store and push the entity; a panic
        pushes nothing. */
    method Transform(entity: C.Entity, out: C.EntityVec) returns (panicked: bool)
      modifies out
      ensures var r := TransformStore(jgd2wgs, outputEpsg, jprZoneProj, entity.geometryStore);
        panicked == r.Panics? &&
        out.entities == if r.Panics? then old(out.entities)
                        else old(out.entities) + [entity.(geometryStore := r.value)]
    {
      var store := entity.geometryStore;
      if store.epsg == EPSG_JGD2011_GEOGRAPHIC_3D {
        if outputEpsg == EPSG_WGS84_GEOGRAPHIC_3D {
          var vs := ConvertVertices(store.vertices);
          store := store.(vertices := vs, epsg := outputEpsg);
        } else if IsJprect(outputEpsg) {
          if jprZoneProj.None? {
            return true;
          }
          var projected := ProjectVertices(jprZoneProj.value, store.vertices);
          if projected.None? {
            return true;
          }
          store := store.(vertices := projected.value, epsg := outputEpsg);
        } else {
          return true;
        }
      } else if store.epsg == EPSG_WGS84_GEOGRAPHIC_3D {
        if outputEpsg != EPSG_WGS84_GEOGRAPHIC_3D {
          return true;
        }
      } else {
        return true;
      }
      out.Push(entity.(geometryStore := store));
      return false;
    }

    /** `transform_schema`: the schema records the output code and nothing
        else changes. */
    method TransformSchema(schema: S.Schema)
      modifies schema
      ensures schema.epsg == Some(outputEpsg) && schema.types == old(schema.types)
    {
      schema.epsg := Some(outputEpsg);
    }
  }

  /** A projection error at vertex `i - 1` makes the whole projection fail. */
  lemma {:induction false} ProjectFails(proj: ZoneProjection, vs: seq<Coord3>, i: nat)
    requires 0 < i <= |vs| && !Projects(proj, vs[i - 1])
    ensures ProjectAll(proj, vs).None?
  {
    ProjectAllSpec(proj, vs);
  }
}
