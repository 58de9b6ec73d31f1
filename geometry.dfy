/** The geometry vocabulary of the converter: polygons over an arbitrary
    coordinate type (the `nusamai_geometry` containers), the per-entity
    `GeometryStore`, and the `GeometryCollector` the CityGML parser fills,
    which interns every vertex by its bit pattern. */
module Geometry {
  import opened Common
  import opened IndexSets

  /** EPSG code of JGD2011 geographic 3D (latitude, longitude, ellipsoidal height). */
  const EPSG_JGD2011_GEOGRAPHIC_3D: nat := 6697

  /** A position `[f64; 3]`. */
  datatype Coord3 = Coord3(x: F64, y: F64, z: F64)

  /** The bit patterns `[u64; 3]` of a position, the interning key. */
  datatype Bits3 = Bits3(x: u64, y: u64, z: u64)

  function ToBits(v: Coord3): Bits3 {
    Bits3(v.x.bits, v.y.bits, v.z.bits)
  }

  function FromBits(b: Bits3): Coord3 {
    Coord3(F64(b.x), F64(b.y), F64(b.z))
  }

  /** `to_bits` and `from_bits` are inverse to each other, so interning by
      bit pattern loses no information. */
  lemma {:induction false} BitsRoundTrip(v: Coord3, b: Bits3)
    ensures FromBits(ToBits(v)) == v
    ensures ToBits(FromBits(b)) == b
    ensures ToBits(v) == b <==> v == FromBits(b)
  {
  }

  function ToBitsAll(vs: seq<Coord3>): (r: seq<Bits3>)
    ensures |r| == |vs| && forall k :: 0 <= k < |vs| ==> r[k] == ToBits(vs[k])
  {
    seq(|vs|, k requires 0 <= k < |vs| => ToBits(vs[k]))
  }

  function AsU32s(s: seq<nat>): (r: seq<u32>)
    ensures |r| == |s| && forall k :: 0 <= k < |s| ==> r[k] == AsU32(s[k])
  {
    seq(|s|, k requires 0 <= k < |s| => AsU32(s[k]))
  }

  /** A polygon: one exterior ring and any number of interior rings (holes). */
  datatype Polygon<C> = Polygon(exterior: seq<C>, interiors: seq<seq<C>>)

  /** `iter_closed` of a ring: its positions, followed by the first one
      again when the ring is not empty and does not already end with it. */
  function IterClosed<C(==)>(ring: seq<C>): seq<C> {
    if |ring| > 0 && ring[|ring| - 1] != ring[0] then ring + [ring[0]] else ring
  }

  predicate IsClosed<C(==)>(ring: seq<C>) {
    |ring| > 0 ==> ring[|ring| - 1] == ring[0]
  }

  /** A closed ring starts with the given one, has at most one position
      more, is closed, and is left as it is by closing it again. */
  lemma {:induction false} IterClosedSpec<C>(ring: seq<C>)
    ensures IsClosed(IterClosed(ring))
    ensures |ring| <= |IterClosed(ring)| <= |ring| + 1 && IterClosed(ring)[..|ring|] == ring
    ensures |IterClosed(ring)| == |ring| <==> IsClosed(ring)
    ensures IterClosed(IterClosed(ring)) == IterClosed(ring)
  {
  }

  /** An open ring of four positions closes into five ending with the first;
      a ring of five that is closed already stays as it is. */
  lemma {:induction false} IterClosedExamples<C>(a: C, b: C, c: C, d: C)
    ensures a != d ==> IterClosed([a, b, c, d]) == [a, b, c, d, a]
    ensures IterClosed([a, b, c, d, a]) == [a, b, c, d, a]
  {
  }

  /** Closing commutes with a mapping of positions that tells the first and
      the last position apart exactly when they differ. */
  lemma {:induction false} IterClosedMap<C, D>(ring: seq<C>, f: C -> D)
    requires |ring| > 0 ==> (f(ring[|ring| - 1]) == f(ring[0]) <==> ring[|ring| - 1] == ring[0])
    ensures MapSeq(IterClosed(ring), f) == IterClosed(MapSeq(ring, f))
  {
  }

  /** `vertices[i as usize]`, where it exists; callers check the index. */
  function VertexAt(vertices: seq<Coord3>, i: u32): Coord3 {
    if (i as nat) < |vertices| then vertices[i] else Coord3(F64(0), F64(0), F64(0))
  }

  predicate RingInRange(ring: seq<u32>, n: nat) {
    forall j :: 0 <= j < |ring| ==> (ring[j] as nat) < n
  }

  predicate PolygonInRange(poly: Polygon<u32>, n: nat) {
    RingInRange(poly.exterior, n) && forall h :: 0 <= h < |poly.interiors| ==> RingInRange(poly.interiors[h], n)
  }

  /** The polygon of the positions an index polygon refers to. */
  function ResolvePolygon(vertices: seq<Coord3>, poly: Polygon<u32>): Polygon<Coord3> {
    MapPolygon(poly, (i: u32) => VertexAt(vertices, i))
  }

  /** The end of the range `pos..pos + len`, with the `u32` addition
      wrapping. */
  function RangeEnd(pos: u32, len: u32): nat {
    (pos as nat + len as nat) % TWO_32
  }

  /** The values `f` extracts from `items[pos..pos + len]`; a range outside
      the container panics, and so does a conversion whose result is not of
      the right kind (`unreachable!`). */
  function RangeValues<A, B>(items: seq<A>, pos: u32, len: u32, f: A -> Option<B>): (r: Outcome<seq<B>>)
    ensures r.Returns? <==>
      pos as nat <= RangeEnd(pos, len) <= |items| &&
      forall k :: pos as nat <= k < RangeEnd(pos, len) ==> f(items[k]).Some?
    ensures r.Returns? ==>
      |r.value| == RangeEnd(pos, len) - pos as nat &&
      forall j :: 0 <= j < |r.value| ==> Some(r.value[j]) == f(items[pos as nat + j])
  {
    var end := RangeEnd(pos, len);
    if !(pos as nat <= end <= |items|) then Panics
    else if exists k :: pos as nat <= k < end && f(items[k]).None? then Panics
    else Returns(seq(end - pos as nat, j requires 0 <= j < end - pos as nat => f(items[pos as nat + j]).value))
  }

  /** The loop over one entry's range. */
  method CollectRange<A, B>(items: seq<A>, pos: u32, len: u32, f: A -> Option<B>) returns (r: Outcome<seq<B>>)
    ensures r == RangeValues(items, pos, len, f)
  {
    var end := RangeEnd(pos, len);
    if !(pos as nat <= end <= |items|) {
      return Panics;
    }
    var acc: seq<B> := [];
    var k: nat := pos as nat;
    while k < end
      invariant pos as nat <= k <= end
      invariant |acc| == k - pos as nat
      invariant forall j :: 0 <= j < |acc| ==> Some(acc[j]) == f(items[pos as nat + j])
      invariant forall q :: pos as nat <= q < k ==> f(items[q]).Some?
    {
      var v := f(items[k]);
      if v.None? {
        return Panics;
      }
      acc := acc + [v.value];
      k := k + 1;
    }
    var want := RangeValues(items, pos, len, f);
    assert want.Returns?;
    assert want.value == acc by {
      forall j | 0 <= j < |acc| ensures want.value[j] == acc[j] {
        assert Some(want.value[j]) == Some(acc[j]);
      }
    }
    r := Returns(acc);
  }

  /** `nusamai_geometry::Geometry`, over positions of type `C`. */
  datatype AnyGeometry<C> =
    | AnyMultiPoint(points: seq<C>)
    | AnyLineString(coords: seq<C>)
    | AnyMultiLineString(lines: seq<seq<C>>)
    | AnyPolygon(polygon: Polygon<C>)
    | AnyMultiPolygon(polygons: seq<Polygon<C>>)

  /** The polygon with every position replaced by its image under `f`. */
  function MapPolygon<C, D>(p: Polygon<C>, f: C -> D): (r: Polygon<D>)
    ensures |r.interiors| == |p.interiors|
  {
    Polygon(MapSeq(p.exterior, f), seq(|p.interiors|, h requires 0 <= h < |p.interiors| => MapSeq(p.interiors[h], f)))
  }

  /** The kind of a geometry referenced by a feature. */
  datatype GeometryType = Unknown | Solid | Surface | Curve | Point | Triangle

  /** A feature's reference into the store: `len` consecutive members of the
      container selected by `ty`, starting at `pos`. */
  datatype GeometryRefEntry = GeometryRefEntry(ty: GeometryType, lod: byte, pos: u32, len: u32)

  /** Geometries of a city object and all its children, sharing one vertex
      buffer; polygons, line strings and points hold indices into it. */
  datatype GeometryStore = GeometryStore(
    epsg: nat,
    vertices: seq<Coord3>,
    multipolygon: seq<Polygon<u32>>,
    multilinestring: seq<seq<u32>>,
    multipoint: seq<u32>)

  /** Every index in some ring of `mp` is below `n`. */
  ghost predicate IndicesBelow(mp: seq<Polygon<u32>>, n: nat) {
    (forall p, j :: 0 <= p < |mp| && 0 <= j < |mp[p].exterior| ==> mp[p].exterior[j] < n) &&
    (forall p, h, j :: 0 <= p < |mp| && 0 <= h < |mp[p].interiors| && 0 <= j < |mp[p].interiors[h]| ==>
       mp[p].interiors[h][j] < n)
  }

  /** The ring of indices `add_exterior_ring`/`add_interior_ring` store for
      `ring` when the vertex set holds `s`, and the vertex set afterwards. */
  function InternRing(s: seq<Bits3>, ring: seq<Coord3>): (r: (seq<Bits3>, seq<u32>))
    ensures |r.1| == |ring|
  {
    var (items, idx) := InternAll(s, ToBitsAll(ring));
    (items, AsU32s(idx))
  }

  /** The stored ring indices stay inside the vertex set even when a Rust
      `as u32` cast would wrap, and as long as the vertex set has at most
      2^32 members each index leads back to exactly the coordinate given. */
  lemma {:induction false} InternRingSpec(s: seq<Bits3>, ring: seq<Coord3>)
    ensures |s| <= |InternRing(s, ring).0| && InternRing(s, ring).0[..|s|] == s
    ensures forall k :: 0 <= k < |ring| ==> InternRing(s, ring).1[k] < |InternRing(s, ring).0|
    ensures |InternRing(s, ring).0| <= TWO_32 ==>
      forall k :: 0 <= k < |ring| ==> FromBits(InternRing(s, ring).0[InternRing(s, ring).1[k]]) == ring[k]
    ensures NoDup(s) ==> NoDup(InternRing(s, ring).0)
  {
    InternAllSpec(s, ToBitsAll(ring));
    var (items, idx) := InternAll(s, ToBitsAll(ring));
    forall k | 0 <= k < |ring|
      ensures InternRing(s, ring).1[k] < |items|
      ensures |items| <= TWO_32 ==> FromBits(items[InternRing(s, ring).1[k]]) == ring[k]
    {
      assert idx[k] < |items|;
      assert AsU32(idx[k]) <= idx[k];
      BitsRoundTrip(ring[k], items[idx[k]]);
    }
  }

  /** Bit-identical positions of one ring are given the same index, and
      different positions different ones. */
  lemma {:induction false} InternRingSameIndex(s: seq<Bits3>, ring: seq<Coord3>, j: nat, k: nat)
    requires NoDup(s) && j < |ring| && k < |ring| && |InternRing(s, ring).0| <= TWO_32
    ensures InternRing(s, ring).1[j] == InternRing(s, ring).1[k] <==> ring[j] == ring[k]
  {
    var (items, idx) := InternAll(s, ToBitsAll(ring));
    InternAllSpec(s, ToBitsAll(ring));
    InternAllSameIndex(s, ToBitsAll(ring), j, k);
    BitsRoundTrip(ring[j], ToBits(ring[k]));
  }

  /** Collects the geometry of one city object while it is parsed. */
  class GeometryCollector {
    const vertices: IndexSet<Bits3>
    var multipolygon: seq<Polygon<u32>>
    var multilinestring: seq<seq<u32>>
    var multipoint: seq<u32>

    ghost predicate Valid()
      reads this, vertices
    {
      vertices.Valid() && IndicesBelow(multipolygon, |vertices.items|)
    }

    /** `GeometryCollector::default()`. */
    constructor ()
      ensures Valid() && fresh(vertices)
      ensures vertices.items == [] && multipolygon == [] && multilinestring == [] && multipoint == []
    {
      vertices := new IndexSet();
      multipolygon := [];
      multilinestring := [];
      multipoint := [];
    }

    /** Interns each position of `ring` in order; the indices handed out. */
    method InternPositions(ring: seq<Coord3>) returns (idx: seq<u32>)
      requires Valid()
      modifies vertices
      ensures Valid()
      ensures (vertices.items, idx) == InternRing(old(vertices.items), ring)
    {
      ghost var s0 := vertices.items;
      var raw: seq<nat> := [];
      var k := 0;
      while k < |ring|
        invariant 0 <= k <= |ring|
        invariant vertices.Valid()
        invariant (vertices.items, raw) == InternAll(s0, ToBitsAll(ring[..k]))
        invariant |s0| <= |vertices.items| && vertices.items[..|s0|] == s0
      {
        assert ToBitsAll(ring[..k + 1])[..k] == ToBitsAll(ring[..k]);
        var i := vertices.InsertFull(ToBits(ring[k]));
        raw := raw + [i];
        k := k + 1;
      }
      assert ring[..k] == ring;
      idx := AsU32s(raw);
      assert IndicesBelow(multipolygon, |vertices.items|);
    }

    /** `add_exterior_ring`: starts a new polygon with `ring` as exterior and
        returns its position, the polygon count minus one. */
    method AddExteriorRing(ring: seq<Coord3>) returns (index: nat)
      requires Valid()
      modifies vertices, this`multipolygon
      ensures Valid()
      ensures vertices.items == InternRing(old(vertices.items), ring).0
      ensures multipolygon == old(multipolygon) + [Polygon(InternRing(old(vertices.items), ring).1, [])]
      ensures index == |multipolygon| - 1 && multipolygon[index].exterior == InternRing(old(vertices.items), ring).1
    {
      ghost var s0 := vertices.items;
      var idx := InternPositions(ring);
      InternRingSpec(s0, ring);
      multipolygon := multipolygon + [Polygon(idx, [])];
      index := |multipolygon| - 1;
    }

    /** `add_interior_ring`: adds `ring` as a hole of the last polygon. */
    method AddInteriorRing(ring: seq<Coord3>)
      requires Valid() && |multipolygon| > 0
      modifies vertices, this`multipolygon
      ensures Valid()
      ensures vertices.items == InternRing(old(vertices.items), ring).0
      ensures |multipolygon| == |old(multipolygon)|
      ensures multipolygon[..|multipolygon| - 1] == old(multipolygon)[..|multipolygon| - 1]
      ensures var last := old(multipolygon)[|multipolygon| - 1];
        multipolygon[|multipolygon| - 1] ==
          Polygon(last.exterior, last.interiors + [InternRing(old(vertices.items), ring).1])
    {
      ghost var s0 := vertices.items;
      var idx := InternPositions(ring);
      InternRingSpec(s0, ring);
      var n := |multipolygon|;
      var last := multipolygon[n - 1];
      multipolygon := multipolygon[..n - 1] + [Polygon(last.exterior, last.interiors + [idx])];
      assert multipolygon[..n - 1] == old(multipolygon)[..n - 1];
    }

    /** `into_geometries`: the vertices in interning order, each recovered
        from its bit pattern, and the containers passed through. */
    method IntoGeometries() returns (store: GeometryStore)
      requires Valid()
      ensures store.epsg == EPSG_JGD2011_GEOGRAPHIC_3D
      ensures |store.vertices| == |vertices.items|
      ensures forall k :: 0 <= k < |store.vertices| ==> ToBits(store.vertices[k]) == vertices.items[k]
      ensures IndicesBelow(store.multipolygon, |store.vertices|)
      ensures store.multipolygon == multipolygon && store.multilinestring == multilinestring
      ensures store.multipoint == multipoint
    {
      var out: seq<Coord3> := [];
      var k := 0;
      while k < |vertices.items|
        invariant 0 <= k <= |vertices.items|
        invariant |out| == k
        invariant forall j :: 0 <= j < k ==> ToBits(out[j]) == vertices.items[j]
      {
        var vbits := vertices.items[k];
        out := out + [Coord3(F64(vbits.x), F64(vbits.y), F64(vbits.z))];
        k := k + 1;
      }
      store := GeometryStore(EPSG_JGD2011_GEOGRAPHIC_3D, out, multipolygon, multilinestring, multipoint);
    }
  }
}
