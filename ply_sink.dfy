/** The Stanford PLY sink: the triangles of every feature, their vertices
    interned relative to the centroid, written as a binary little-endian
    PLY file. */
module PlySink {
  import opened Common
  import opened IndexSets
  import G = Geometry
  import C = CityObjects

  // ---------------------------------------------------------------------
  // Collecting triangles

  /** The triangle corners of one polygon: the positions are converted to
      geocentric coordinates, projected to a plane and triangulated by
      earcut, all outside the model (`triangulate`). */
  type Triangulate = G.Polygon<G.Coord3> -> seq<G.Coord3>

  /** The corners one geometry entry contributes: solids, surfaces and
      triangles those of each of their polygons; curves and points are not
      supported and contribute nothing, nor do entries of unknown type. An
      index outside the vertex buffer panics. */
  function EntryCorners(store: G.GeometryStore, e: G.GeometryRefEntry, triangulate: Triangulate)
    : (r: Outcome<seq<G.Coord3>>)
    ensures (e.ty.Curve? || e.ty.Point? || e.ty.Unknown?) ==> r == Returns([])
  {
    if e.ty.Solid? || e.ty.Surface? || e.ty.Triangle? then
      match G.RangeValues(store.multipolygon, e.pos, e.len,
                          (p: G.Polygon<u32>) =>
                            if G.PolygonInRange(p, |store.vertices|) then Some(triangulate(G.ResolvePolygon(store.vertices, p)))
                            else None)
      case Panics => Panics
      case Returns(cs) => Returns(Flatten(cs))
    else Returns([])
  }

  /** The corners of all entries, in order. */
  function AllCorners(store: G.GeometryStore, entries: seq<G.GeometryRefEntry>, triangulate: Triangulate)
    : Outcome<seq<G.Coord3>>
  {
    if entries == [] then Returns([])
    else match AllCorners(store, entries[..|entries| - 1], triangulate)
      case Panics => Panics
      case Returns(cs) =>
        match EntryCorners(store, entries[|entries| - 1], triangulate)
        case Panics => Panics
        case Returns(more) => Returns(cs + more)
  }

  /** What the first half of `run` sends for one entity: nothing for a root
      that is not a feature, else the triangle corners of its geometry. */
  method EntityTriangles(entity: C.Entity, triangulate: Triangulate) returns (r: Outcome<Option<seq<G.Coord3>>>)
    ensures !entity.root.Object? || !entity.root.obj.stereotype.Feature? ==> r == Returns(None)
    ensures entity.root.Object? && entity.root.obj.stereotype.Feature? ==>
      match AllCorners(entity.geometryStore, entity.root.obj.stereotype.geometries, triangulate)
      case Panics => r.Panics?
      case Returns(cs) => r == Returns(Some(cs))
  {
    if !entity.root.Object? || !entity.root.obj.stereotype.Feature? {
      return Returns(None);
    }
    var store := entity.geometryStore;
    var geometries := entity.root.obj.stereotype.geometries;
    var triangles: seq<G.Coord3> := [];
    var i := 0;
    while i < |geometries|
      invariant 0 <= i <= |geometries|
      invariant AllCorners(store, geometries[..i], triangulate) == Returns(triangles)
    {
      assert geometries[..i + 1][..i] == geometries[..i];
      var more := EntryCorners(store, geometries[i], triangulate);
      if more.Panics? {
        CornersPanicPersist(store, geometries, triangulate, i + 1);
        assert geometries[..|geometries|] == geometries;
        return Panics;
      }
      triangles := triangles + more.value;
      i := i + 1;
    }
    assert geometries[..i] == geometries;
    r := Returns(Some(triangles));
  }

  lemma {:induction false} CornersPanicPersist(store: G.GeometryStore, entries: seq<G.GeometryRefEntry>,
                                              triangulate: Triangulate, n: nat)
    requires n <= |entries| && AllCorners(store, entries[..n], triangulate).Panics?
    ensures AllCorners(store, entries, triangulate).Panics?
    decreases |entries| - n
  {
    if n < |entries| {
      assert entries[..n + 1][..n] == entries[..n];
      CornersPanicPersist(store, entries, triangulate, n + 1);
    } else {
      assert entries[..n] == entries;
    }
  }

  /** Entries that are no solid, surface or triangle change nothing. */
  lemma {:induction false} CurvesAndPointsIgnored(store: G.GeometryStore, entries: seq<G.GeometryRefEntry>,
                               e: G.GeometryRefEntry, triangulate: Triangulate)
    requires !(e.ty.Solid? || e.ty.Surface? || e.ty.Triangle?)
    ensures AllCorners(store, entries + [e], triangulate) == AllCorners(store, entries, triangulate)
  {
    assert (entries + [e])[..|entries|] == entries;
    match AllCorners(store, entries, triangulate)
    case Panics =>
    case Returns(cs) => assert cs + [] == cs;
  }

  // ---------------------------------------------------------------------
  // Interning the vertices

  /** `make vertices and indices`: the bit pattern of every corner, taken
      relative to the centroid (`relative`, floating-point subtraction), is
      interned in order; each corner's index is kept as a `u32`. */
  method MakeVerticesAndIndices(allVertices: seq<G.Coord3>, relative: G.Coord3 -> G.Coord3)
      returns (vertices: seq<G.Bits3>, indices: seq<u32>)
    ensures (vertices, indices) == G.InternRing([], MapSeq(allVertices, relative))
  {
    var ring := MapSeq(allVertices, relative);
    var interned := new IndexSet<G.Bits3>();
    var raw: seq<nat> := [];
    var k := 0;
    while k < |allVertices|
      invariant 0 <= k <= |allVertices|
      invariant interned.Valid()
      invariant (interned.items, raw) == InternAll([], G.ToBitsAll(ring[..k]))
    {
      assert G.ToBitsAll(ring[..k + 1])[..k] == G.ToBitsAll(ring[..k]);
      var v := relative(allVertices[k]);
      var index := interned.InsertFull(G.ToBits(v));
      raw := raw + [index];
      k := k + 1;
    }
    assert ring[..k] == ring;
    vertices := interned.items;
    indices := G.AsU32s(raw);
  }

  /** One index per corner, each inside the vertex set, which holds no
      duplicates; while the set has at most 2^32 members, two corners share
      an index exactly when their relative positions are bit-identical, and
      each index leads back to its corner's relative position. */
  lemma {:induction false} VerticesAndIndicesSpec(allVertices: seq<G.Coord3>, relative: G.Coord3 -> G.Coord3, j: nat, k: nat)
    requires j < |allVertices| && k < |allVertices|
    ensures var (vs, idx) := G.InternRing([], MapSeq(allVertices, relative));
      |idx| == |allVertices| && NoDup(vs) && (idx[j] as nat) < |vs| &&
      (|vs| <= TWO_32 ==>
        G.FromBits(vs[idx[j]]) == relative(allVertices[j]) &&
        (idx[j] == idx[k] <==> relative(allVertices[j]) == relative(allVertices[k])))
  {
    var ring := MapSeq(allVertices, relative);
    G.InternRingSpec([], ring);
    var vs := G.InternRing([], ring).0;
    if |vs| <= TWO_32 {
      G.InternRingSameIndex([], ring, j, k);
    }
  }

  // ---------------------------------------------------------------------
  // The header

  /** The header template, line by line: the start up to `{n_verts}`, the
      middle up to `{n_faces}` and the end. */
  /** A character of the template's own text. */
  type AsciiChar = c: char | c as int < 128

  const HEADER_START: seq<AsciiChar> := "ply\n" + "format binary_little_endian 1.0\n" + "element vertex "
  const HEADER_MIDDLE: seq<AsciiChar> :=
    "\n" + "property double x\n" + "property double y\n" + "property double z\n" + "element face "
  const HEADER_END: seq<AsciiChar> := "\n" + "property list uchar uint vertex_indices\n" + "end_header\n"

  const PLY_HEADER_TEMPLATE: string :=
    HEADER_START + ("{n_verts}" + (HEADER_MIDDLE + ("{n_faces}" + HEADER_END)))

  /** The template with its two placeholders filled in. */
  function PlyHeader(nVerts: nat, nFaces: nat): string {
    Replace(Replace(PLY_HEADER_TEMPLATE, "{n_verts}", NatToString(nVerts)), "{n_faces}", NatToString(nFaces))
  }

  /** The fixed parts of the template hold no `{`, so no placeholder
      starts inside them. */
  lemma {:induction false} NoBraceOutsidePlaceholders()
    ensures '{' !in HEADER_START && '{' !in HEADER_MIDDLE && '{' !in HEADER_END && '{' !in "n_faces}"
  {
    NoBraceInStart();
    NoBraceInMiddle();
    NoBraceInEnd();
  }

  lemma {:induction false} NoBraceInStart()
    ensures '{' !in HEADER_START
  {
    assert '{' !in "format binary_little_endian 1.0\n";
  }

  lemma {:induction false} NoBraceInMiddle()
    ensures '{' !in HEADER_MIDDLE
  {
    assert '{' !in "property double x\n";
    assert '{' !in "property double y\n";
    assert '{' !in "property double z\n";
  }

  lemma {:induction false} NoBraceInEnd()
    ensures '{' !in HEADER_END
  {
    assert '{' !in "property list uchar uint vertex_indices\n";
  }

  /** `{n_faces}` is not `{n_verts}`, so the rest of the template after
      the vertex count passes through the first replacement. */
  lemma {:induction false} FacesPartUntouched(v: string)
    ensures Replace("{n_faces}" + HEADER_END, "{n_verts}", v) == "{n_faces}" + HEADER_END
  {
    NoBraceOutsidePlaceholders();
    var tail := "n_faces}" + HEADER_END;
    var rest := ['{'] + tail;
    assert rest == "{n_faces}" + HEADER_END;
    ReplaceNone(tail, "{n_verts}", v);
    assert !StartsWith(rest, "{n_verts}") by {
      assert rest[3] == 'f';
    }
    ReplaceMiss('{', tail, "{n_verts}", v);
  }

  /** Placing `{n_verts}`: the first placeholder is the only match. */
  lemma {:induction false} FirstReplacement(v: string)
    ensures Replace(PLY_HEADER_TEMPLATE, "{n_verts}", v) ==
      HEADER_START + (v + (HEADER_MIDDLE + ("{n_faces}" + HEADER_END)))
  {
    NoBraceOutsidePlaceholders();
    var rest := "{n_faces}" + HEADER_END;
    FacesPartUntouched(v);
    ReplaceSkip(HEADER_MIDDLE, rest, "{n_verts}", v);
    ReplaceHit(HEADER_MIDDLE + rest, "{n_verts}", v);
    ReplaceSkip(HEADER_START, "{n_verts}" + (HEADER_MIDDLE + rest), "{n_verts}", v);
  }

  /** Placing `{n_faces}` once the vertex count, which has no `{`, is in. */
  lemma {:induction false} SecondReplacement(v: string, f: string)
    requires '{' !in v
    ensures Replace(HEADER_START + (v + (HEADER_MIDDLE + ("{n_faces}" + HEADER_END))), "{n_faces}", f) ==
      HEADER_START + v + HEADER_MIDDLE + f + HEADER_END
  {
    NoBraceOutsidePlaceholders();
    ReplaceLastPart(HEADER_START, v, HEADER_MIDDLE, HEADER_END, "{n_faces}", f);
  }

  /** A pattern whose first character occurs only where the pattern stands
      is replaced there and nowhere else. */
  lemma {:induction false} ReplaceLastPart(a: string, b: string, c: string, d: string, pat: string, rep: string)
    requires |pat| > 0 && pat[0] !in a && pat[0] !in b && pat[0] !in c && pat[0] !in d
    ensures Replace(a + (b + (c + (pat + d))), pat, rep) == a + b + c + rep + d
  {
    ReplaceNone(d, pat, rep);
    ReplaceHit(d, pat, rep);
    ReplaceSkip(c, pat + d, pat, rep);
    ReplaceSkip(b, c + (pat + d), pat, rep);
    ReplaceSkip(a, b + (c + (pat + d)), pat, rep);
  }

  /** `{n_verts}` becomes the vertex count and `{n_faces}` the face count,
      both in decimal, and nothing else of the template changes; the counts
      read back from the digits written. */
  lemma {:induction false} PlyHeaderText(nVerts: nat, nFaces: nat)
    ensures PlyHeader(nVerts, nFaces) ==
      HEADER_START + NatToString(nVerts) + HEADER_MIDDLE + NatToString(nFaces) + HEADER_END
    ensures ParseDecimal(NatToString(nVerts)) == nVerts && ParseDecimal(NatToString(nFaces)) == nFaces
  {
    var v := NatToString(nVerts);
    FirstReplacement(v);
    assert '{' !in v by {
      forall i | 0 <= i < |v| ensures v[i] != '{' {
        assert IsDigit(v[i]);
      }
    }
    SecondReplacement(v, NatToString(nFaces));
    NatToStringRoundTrip(nVerts);
    NatToStringRoundTrip(nFaces);
  }

  // ---------------------------------------------------------------------
  // The records

  /** A vertex: its three bit patterns as little-endian `u64`s. */
  function VertexRecord(b: G.Bits3): (r: seq<byte>)
    ensures |r| == 24
  {
    U64Le(b.x) + U64Le(b.y) + U64Le(b.z)
  }

  /** A face: the count 3, then its three indices as little-endian `u32`s. */
  function FaceRecord(i: u32, j: u32, k: u32): (r: seq<byte>)
    ensures |r| == 13
  {
    [3] + U32Le(i) + U32Le(j) + U32Le(k)
  }

  /** The faces `chunks_exact(3)` gives: a trailing incomplete chunk is
      dropped. */
  function Faces(indices: seq<u32>): (r: seq<seq<byte>>)
    ensures |r| == |indices| / 3
  {
    seq(|indices| / 3, f requires 0 <= f < |indices| / 3 => FaceRecord(indices[3 * f], indices[3 * f + 1], indices[3 * f + 2]))
  }

  /** The body of the file: every vertex record, then every face record. */
  method WriteRecords(vertices: seq<G.Bits3>, indices: seq<u32>) returns (out: seq<byte>)
    ensures out == Flatten(MapSeq(vertices, VertexRecord)) + Flatten(Faces(indices))
  {
    out := WriteVertexRecords(vertices);
    var body := WriteFaceRecords(indices);
    out := out + body;
  }

  /** The vertex loop: one 24-byte record per vertex, in order. */
  method WriteVertexRecords(vertices: seq<G.Bits3>) returns (out: seq<byte>)
    ensures out == Flatten(MapSeq(vertices, VertexRecord))
  {
    ghost var vrecs := MapSeq(vertices, VertexRecord);
    out := [];
    var k := 0;
    while k < |vertices|
      invariant 0 <= k <= |vertices|
      invariant out == Flatten(vrecs[..k])
    {
      FlattenPrefixStep(vrecs, k);
      out := out + VertexRecord(vertices[k]);
      k := k + 1;
    }
    assert vrecs[..k] == vrecs;
  }

  /** The face loop: one 13-byte record per complete triple of indices;
      `chunks_exact` drops a trailing incomplete one. */
  method WriteFaceRecords(indices: seq<u32>) returns (body: seq<byte>)
    ensures body == Flatten(Faces(indices))
  {
    ghost var frecs := Faces(indices);
    body := [];
    var f := 0;
    while f < |indices| / 3
      invariant 0 <= f <= |indices| / 3
      invariant body == Flatten(frecs[..f])
    {
      FlattenPrefixStep(frecs, f);
      body := body + FaceRecord(indices[3 * f], indices[3 * f + 1], indices[3 * f + 2]);
      f := f + 1;
    }
    assert frecs[..f] == frecs;
  }

  /** The body is 24 bytes per vertex and 13 per complete face; vertex `k`
      reads back from its three words at `24 * k`. */
  lemma {:induction false} VertexRecordAt(vertices: seq<G.Bits3>, indices: seq<u32>, k: nat)
    requires k < |vertices|
    ensures var out := Flatten(MapSeq(vertices, VertexRecord)) + Flatten(Faces(indices));
      |out| == 24 * |vertices| + 13 * (|indices| / 3) &&
      ReadU64Le(out[24 * k..24 * k + 8]) == vertices[k].x &&
      ReadU64Le(out[24 * k + 8..24 * k + 16]) == vertices[k].y &&
      ReadU64Le(out[24 * k + 16..24 * k + 24]) == vertices[k].z
  {
    var out := Flatten(MapSeq(vertices, VertexRecord)) + Flatten(Faces(indices));
    VertexRecordPlaced(vertices, indices, k);
    VertexFieldsAt(out, 24 * k, vertices[k]);
  }

  /** The three words of a vertex record found at offset `o`. */
  lemma {:induction false} VertexFieldsAt(out: seq<byte>, o: nat, b: G.Bits3)
    requires o + 24 <= |out| && out[o..o + 24] == VertexRecord(b)
    ensures ReadU64Le(out[o..o + 8]) == b.x && ReadU64Le(out[o + 8..o + 16]) == b.y &&
      ReadU64Le(out[o + 16..o + 24]) == b.z
  {
    VertexRecordFields(b);
    SliceOfSlice(out, o, 24, 0, 8);
    SliceOfSlice(out, o, 24, 8, 16);
    SliceOfSlice(out, o, 24, 16, 24);
  }

  lemma {:induction false} VertexRecordPlaced(vertices: seq<G.Bits3>, indices: seq<u32>, k: nat)
    requires k < |vertices|
    ensures var out := Flatten(MapSeq(vertices, VertexRecord)) + Flatten(Faces(indices));
      |out| == 24 * |vertices| + 13 * (|indices| / 3) &&
      out[24 * k..24 * k + 24] == VertexRecord(vertices[k])
  {
    var vrecs := MapSeq(vertices, VertexRecord);
    var a := Flatten(vrecs);
    var b := Flatten(Faces(indices));
    FlattenAt(vrecs, 24, k);
    FlattenLength(Faces(indices), 13);
    assert (a + b)[24 * k..24 * k + 24] == a[24 * k..24 * k + 24];
  }

  /** Face `f` starts with the byte 3 after all vertex records and `13 * f`
      bytes of earlier faces, followed by indices `3f`, `3f + 1`, `3f + 2`. */
  lemma {:induction false} FaceRecordAt(vertices: seq<G.Bits3>, indices: seq<u32>, f: nat)
    requires 3 * f + 3 <= |indices|
    ensures var out := Flatten(MapSeq(vertices, VertexRecord)) + Flatten(Faces(indices));
      var o := 24 * |vertices| + 13 * f;
      o + 13 <= |out| && out[o] == 3 &&
      ReadU32Le(out[o + 1..o + 5]) == indices[3 * f] &&
      ReadU32Le(out[o + 5..o + 9]) == indices[3 * f + 1] &&
      ReadU32Le(out[o + 9..o + 13]) == indices[3 * f + 2]
  {
    var out := Flatten(MapSeq(vertices, VertexRecord)) + Flatten(Faces(indices));
    var o := 24 * |vertices| + 13 * f;
    var i0, i1, i2 := indices[3 * f], indices[3 * f + 1], indices[3 * f + 2];
    FaceRecordPlaced(vertices, indices, f);
    assert o + 13 <= |out| && out[o..o + 13] == FaceRecord(i0, i1, i2);
    FaceFieldsAt(out, o, i0, i1, i2);
  }

  /** The fields of a face record found at offset `o`. */
  lemma {:induction false} FaceFieldsAt(out: seq<byte>, o: nat, i: u32, j: u32, k: u32)
    requires o + 13 <= |out| && out[o..o + 13] == FaceRecord(i, j, k)
    ensures out[o] == 3 && ReadU32Le(out[o + 1..o + 5]) == i &&
      ReadU32Le(out[o + 5..o + 9]) == j && ReadU32Le(out[o + 9..o + 13]) == k
  {
    FaceRecordFields(i, j, k);
    SliceOfSlice(out, o, 13, 1, 5);
    SliceOfSlice(out, o, 13, 5, 9);
    SliceOfSlice(out, o, 13, 9, 13);
  }

  lemma {:induction false} FaceRecordPlaced(vertices: seq<G.Bits3>, indices: seq<u32>, f: nat)
    requires 3 * f + 3 <= |indices|
    ensures var out := Flatten(MapSeq(vertices, VertexRecord)) + Flatten(Faces(indices));
      var o := 24 * |vertices| + 13 * f;
      o + 13 <= |out| && out[o..o + 13] == FaceRecord(indices[3 * f], indices[3 * f + 1], indices[3 * f + 2])
  {
    var vrecs := MapSeq(vertices, VertexRecord);
    var frecs := Faces(indices);
    FlattenLength(vrecs, 24);
    var a := Flatten(vrecs);
    assert f < |frecs| by {
      assert |frecs| == |indices| / 3;
    }
    FlattenAtAfter(a, frecs, 13, f);
    assert frecs[f] == FaceRecord(indices[3 * f], indices[3 * f + 1], indices[3 * f + 2]);
  }

  lemma {:induction false} VertexRecordFields(b: G.Bits3)
    ensures var r := VertexRecord(b);
      ReadU64Le(r[..8]) == b.x && ReadU64Le(r[8..16]) == b.y && ReadU64Le(r[16..]) == b.z
  {
    var r := VertexRecord(b);
    assert r[..8] == U64Le(b.x) && r[8..16] == U64Le(b.y) && r[16..] == U64Le(b.z);
    U64LeRoundTrip(b.x);
    U64LeRoundTrip(b.y);
    U64LeRoundTrip(b.z);
  }

  lemma {:induction false} FaceRecordFields(i: u32, j: u32, k: u32)
    ensures var r := FaceRecord(i, j, k);
      r[0] == 3 && ReadU32Le(r[1..5]) == i && ReadU32Le(r[5..9]) == j && ReadU32Le(r[9..13]) == k
  {
    var r := FaceRecord(i, j, k);
    assert r[1..5] == U32Le(i) && r[5..9] == U32Le(j) && r[9..13] == U32Le(k);
    U32LeRoundTrip(i);
    U32LeRoundTrip(j);
    U32LeRoundTrip(k);
  }

  // ---------------------------------------------------------------------
  // The file

  /** The receiver loop: the corners of every batch of triangles received,
      one batch after another. */
  method CollectVertices(received: seq<seq<G.Coord3>>) returns (allVertices: seq<G.Coord3>)
    ensures allVertices == Flatten(received)
  {
    allVertices := [];
    var i := 0;
    while i < |received|
      invariant 0 <= i <= |received|
      invariant allVertices == Flatten(received[..i])
    {
      FlattenPrefixStep(received, i);
      var triangles := received[i];
      ghost var before := allVertices;
      var j := 0;
      while j < |triangles|
        invariant 0 <= j <= |triangles|
        invariant allVertices == before + triangles[..j]
      {
        assert triangles[..j + 1] == triangles[..j] + [triangles[j]];
        allVertices := allVertices + [triangles[j]];
        j := j + 1;
      }
      assert triangles[..j] == triangles;
      i := i + 1;
    }
    assert received[..i] == received;
  }

  /** Every corner received is kept: as many as all batches hold, and batch
      `b`'s corners sit right after those of the batches before it. */
  lemma {:induction false} CollectedCorners(received: seq<seq<G.Coord3>>, b: nat)
    requires b < |received|
    ensures |Flatten(received)| == SumLengths(received)
    ensures var o := SumLengths(received[..b]);
      o + |received[b]| <= |Flatten(received)| && Flatten(received)[o..o + |received[b]|] == received[b]
    decreases |received|
  {
    var n := |received| - 1;
    var init := received[..n];
    assert Flatten(received) == Flatten(init) + received[n];
    assert SumLengths(received) == SumLengths(init) + |received[n]|;
    if b < n {
      CollectedCorners(init, b);
      assert init[..b] == received[..b];
      var o := SumLengths(received[..b]);
      PrefixSlice(Flatten(init), received[n], o, o + |received[b]|);
    } else {
      if n > 0 {
        CollectedCorners(init, 0);
      }
      assert received[..b] == init;
      AppendSlice(Flatten(init), received[n], 0, |received[n]|);
      assert received[n][0..|received[n]|] == received[n];
    }
  }

  predicate IsAscii(s: string) {
    forall c :: c in s ==> c as int < 128
  }

  lemma {:induction false} AsciiAppend(a: string, b: string)
    requires IsAscii(a) && IsAscii(b)
    ensures IsAscii(a + b)
  {
    forall c | c in a + b ensures c as int < 128 {
      assert c in a || c in b;
    }
  }

  lemma {:induction false} DigitsAreAscii(n: nat)
    ensures IsAscii(NatToString(n))
  {
    var v := NatToString(n);
    forall c | c in v ensures c as int < 128 {
      var i :| 0 <= i < |v| && v[i] == c;
      assert IsDigit(v[i]);
    }
  }

  /** The header is plain ASCII: digits and the template's own text. */
  lemma {:induction false} HeaderIsAscii(nVerts: nat, nFaces: nat)
    ensures forall i :: 0 <= i < |PlyHeader(nVerts, nFaces)| ==> PlyHeader(nVerts, nFaces)[i] as int < 128
  {
    PlyHeaderText(nVerts, nFaces);
    var v, f := NatToString(nVerts), NatToString(nFaces);
    DigitsAreAscii(nVerts);
    DigitsAreAscii(nFaces);
    assert IsAscii(HEADER_START) && IsAscii(HEADER_MIDDLE) && IsAscii(HEADER_END);
    AsciiAppend(HEADER_START, v);
    AsciiAppend(HEADER_START + v, HEADER_MIDDLE);
    AsciiAppend(HEADER_START + v + HEADER_MIDDLE, f);
    AsciiAppend(HEADER_START + v + HEADER_MIDDLE + f, HEADER_END);
    var h := PlyHeader(nVerts, nFaces);
    forall i | 0 <= i < |h| ensures h[i] as int < 128 {
      assert h[i] in h;
    }
  }

  /** The header as written: one byte per character. */
  function HeaderBytes(nVerts: nat, nFaces: nat): (r: seq<byte>)
    ensures |r| == |PlyHeader(nVerts, nFaces)|
    ensures forall i :: 0 <= i < |r| ==> r[i] as int == PlyHeader(nVerts, nFaces)[i] as int
  {
    HeaderIsAscii(nVerts, nFaces);
    Ascii(PlyHeader(nVerts, nFaces))
  }

  /** The bytes written to the output file: the filled-in header, then the
      vertex and face records. */
  function PlyFile(vertices: seq<G.Bits3>, indices: seq<u32>): seq<byte> {
    HeaderBytes(|vertices|, |indices| / 3) + (Flatten(MapSeq(vertices, VertexRecord)) + Flatten(Faces(indices)))
  }

  /** The file's length: the header, 24 bytes per vertex and 13 per face;
      the header's bytes come first. */
  lemma {:induction false} PlyFileHeader(vertices: seq<G.Bits3>, indices: seq<u32>)
    ensures var header := PlyHeader(|vertices|, |indices| / 3);
      var file := PlyFile(vertices, indices);
      |file| == |header| + 24 * |vertices| + 13 * (|indices| / 3) &&
      forall i :: 0 <= i < |header| ==> file[i] as int == header[i] as int
  {
    FlattenLength(MapSeq(vertices, VertexRecord), 24);
    FlattenLength(Faces(indices), 13);
  }

  /** A record found at offset `o` of the body is found `|head|` bytes
      further on once the header is in front. */
  lemma {:induction false} RecordAfterHeader(head: seq<byte>, body: seq<byte>, o: nat, rec: seq<byte>)
    requires o + |rec| <= |body| && body[o..o + |rec|] == rec
    ensures |head| + o + |rec| <= |head + body| && (head + body)[|head| + o..|head| + o + |rec|] == rec
  {
    AppendSlice(head, body, o, o + |rec|);
  }

  /** Vertex record `k` sits `24 * k` bytes after any header. */
  lemma {:induction false} VertexAfterHeader(head: seq<byte>, vertices: seq<G.Bits3>, indices: seq<u32>, k: nat)
    requires k < |vertices|
    ensures var file := head + (Flatten(MapSeq(vertices, VertexRecord)) + Flatten(Faces(indices)));
      |head| + 24 * k + 24 <= |file| && file[|head| + 24 * k..|head| + 24 * k + 24] == VertexRecord(vertices[k])
  {
    VertexRecordPlaced(vertices, indices, k);
    RecordAfterHeader(head, Flatten(MapSeq(vertices, VertexRecord)) + Flatten(Faces(indices)), 24 * k, VertexRecord(vertices[k]));
  }

  /** Face record `f` sits after any header and all vertex records, at
      offset `o`. */
  lemma {:induction false} FaceAfterHeader(head: seq<byte>, vertices: seq<G.Bits3>, indices: seq<u32>, f: nat, o: nat)
    requires f < |indices| / 3 && o == |head| + 24 * |vertices| + 13 * f
    ensures var file := head + (Flatten(MapSeq(vertices, VertexRecord)) + Flatten(Faces(indices)));
      o + 13 <= |file| && file[o..o + 13] == FaceRecord(indices[3 * f], indices[3 * f + 1], indices[3 * f + 2])
  {
    FaceRecordPlaced(vertices, indices, f);
    RecordAfterHeader(head, Flatten(MapSeq(vertices, VertexRecord)) + Flatten(Faces(indices)), 24 * |vertices| + 13 * f,
      FaceRecord(indices[3 * f], indices[3 * f + 1], indices[3 * f + 2]));
  }

  lemma {:induction false} PlyFileVertex(vertices: seq<G.Bits3>, indices: seq<u32>, k: nat)
    requires k < |vertices|
    ensures var h := |PlyHeader(|vertices|, |indices| / 3)|;
      var file := PlyFile(vertices, indices);
      h + 24 * k + 24 <= |file| && file[h + 24 * k..h + 24 * k + 24] == VertexRecord(vertices[k])
  {
    VertexAfterHeader(HeaderBytes(|vertices|, |indices| / 3), vertices, indices, k);
  }

  lemma {:induction false} PlyFileFace(vertices: seq<G.Bits3>, indices: seq<u32>, f: nat)
    requires f < |indices| / 3
    ensures var o := |PlyHeader(|vertices|, |indices| / 3)| + 24 * |vertices| + 13 * f;
      var file := PlyFile(vertices, indices);
      o + 13 <= |file| && file[o..o + 13] == FaceRecord(indices[3 * f], indices[3 * f + 1], indices[3 * f + 2])
  {
    var head := HeaderBytes(|vertices|, |indices| / 3);
    FaceAfterHeader(head, vertices, indices, f, |head| + 24 * |vertices| + 13 * f);
  }

  /** The file holds the header naming `|vertices|` vertices and
      `|indices| / 3` faces, then exactly that many 24-byte vertex records
      and 13-byte face records, in order, and nothing more. */
  lemma {:induction false} PlyFileLayout(vertices: seq<G.Bits3>, indices: seq<u32>)
    ensures PlyHeader(|vertices|, |indices| / 3) ==
      HEADER_START + NatToString(|vertices|) + HEADER_MIDDLE + NatToString(|indices| / 3) + HEADER_END
    ensures var h := |PlyHeader(|vertices|, |indices| / 3)|;
      var file := PlyFile(vertices, indices);
      |file| == h + 24 * |vertices| + 13 * (|indices| / 3) &&
      (forall k :: 0 <= k < |vertices| ==> file[h + 24 * k..h + 24 * k + 24] == VertexRecord(vertices[k])) &&
      (forall f :: 0 <= f < |indices| / 3 ==>
        file[h + 24 * |vertices| + 13 * f..h + 24 * |vertices| + 13 * f + 13] ==
          FaceRecord(indices[3 * f], indices[3 * f + 1], indices[3 * f + 2]))
  {
    PlyHeaderText(|vertices|, |indices| / 3);
    PlyFileHeader(vertices, indices);
    forall k | 0 <= k < |vertices|
      ensures var h := |PlyHeader(|vertices|, |indices| / 3)|;
        PlyFile(vertices, indices)[h + 24 * k..h + 24 * k + 24] == VertexRecord(vertices[k])
    {
      PlyFileVertex(vertices, indices, k);
    }
    forall f | 0 <= f < |indices| / 3
      ensures var o := |PlyHeader(|vertices|, |indices| / 3)| + 24 * |vertices| + 13 * f;
        PlyFile(vertices, indices)[o..o + 13] == FaceRecord(indices[3 * f], indices[3 * f + 1], indices[3 * f + 2])
    {
      PlyFileFace(vertices, indices, f);
    }
  }

  /** The second half of `run` once the batches are in: the corners are
      collected, moved by the centroid and interned, and the file holds the
      header and records of the result. */
  method WritePly(received: seq<seq<G.Coord3>>, relative: G.Coord3 -> G.Coord3) returns (file: seq<byte>)
    ensures var (vs, idx) := G.InternRing([], MapSeq(Flatten(received), relative));
      file == PlyFile(vs, idx)
  {
    var allVertices := CollectVertices(received);
    var vertices, indices := MakeVerticesAndIndices(allVertices, relative);
    var header := HeaderBytes(|vertices|, |indices| / 3);
    var body := WriteRecords(vertices, indices);
    file := header + body;
  }

  // ---------------------------------------------------------------------
  // The result of `run`

  /** What `run` does with the results of its two halves: a cancellation or
      success is ignored, any other error is reported as fatal, in the
      order of the halves; `run` itself returns `Ok` whatever happened. */
  function RunOutcome(ra: Result<(), PipelineError>, rb: Result<(), PipelineError>)
    : (r: (seq<PipelineError>, Result<(), PipelineError>))
    ensures r.1 == Ok(())
    ensures forall e :: e in r.0 <==> (ra == Err(e) || rb == Err(e)) && !e.Canceled?
    ensures ra.Err? && rb.Err? && !ra.error.Canceled? && !rb.error.Canceled? ==> r.0 == [ra.error, rb.error]
    ensures |r.0| <= 2
  {
    var fa := if ra.Err? && !ra.error.Canceled? then [ra.error] else [];
    var fb := if rb.Err? && !rb.error.Canceled? then [rb.error] else [];
    (fa + fb, Ok(()))
  }
}
