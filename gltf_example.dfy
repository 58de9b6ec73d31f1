/** The output half of the CityGML-to-glTF example program: interning of
    triangle vertices by their single-precision bit patterns, the binary
    buffer of indices and vertices, the buffer/bufferView/accessor sizes of
    the glTF document, and the GLB container of section 4 ("GLB File Format
    Specification") of the glTF 2.0 specification. */
module GltfExample {
  import opened Common
  import opened IndexSets

  // ---------------------------------------------------------------------
  // GLB container

  const GLB_MAGIC: u32 := 0x46546C67
  const GLB_VERSION: u32 := 2
  const CHUNK_TYPE_JSON: u32 := 0x4E4F534A
  const CHUNK_TYPE_BIN: u32 := 0x004E4942

  /** The length of the JSON chunk after zero padding to a 4-byte boundary. */
  function PaddedLength(n: nat): (r: nat)
    ensures r % 4 == 0 && n <= r < n + 4
  {
    if n % 4 == 0 then n else n + (4 - n % 4)
  }

  function Zeros(k: nat): (r: seq<byte>)
    ensures |r| == k && forall i :: 0 <= i < k ==> r[i] == 0
  {
    seq(k, i => 0)
  }

  /** The bytes `make_glb` writes for a JSON document and a binary buffer. */
  function Glb(json: seq<byte>, bin: seq<byte>): seq<byte> {
    var padded := json + Zeros(PaddedLength(|json|) - |json|);
    var total := 12 + 8 + |padded| + 8 + |bin|;
    U32Le(GLB_MAGIC) + U32Le(GLB_VERSION) + U32Le(AsU32(total)) +
    U32Le(AsU32(|json|)) + U32Le(CHUNK_TYPE_JSON) + padded +
    U32Le(AsU32(|bin|)) + U32Le(CHUNK_TYPE_BIN) + bin
  }

  /** The padding loop of `make_glb`: zero bytes until the length is a
      multiple of four. */
  method PadWithZeros(json: seq<byte>) returns (padded: seq<byte>)
    ensures padded == json + Zeros(PaddedLength(|json|) - |json|)
  {
    padded := json;
    while |padded| % 4 != 0
      invariant |json| <= |padded| <= PaddedLength(|json|)
      invariant padded == json + Zeros(|padded| - |json|)
      decreases PaddedLength(|json|) - |padded|
    {
      padded := padded + [0];
    }
  }

  /** `make_glb`: pads the JSON chunk, then writes the header, the JSON chunk
      and the binary chunk one after another. */
  method MakeGlb(gltfString: seq<byte>, binaryBuffer: seq<byte>) returns (glb: seq<byte>)
    ensures glb == Glb(gltfString, binaryBuffer)
  {
    var jsonChunkLen := |gltfString|;
    var padded := PadWithZeros(gltfString);
    var jsonHeader := [AsU32(jsonChunkLen), CHUNK_TYPE_JSON];
    var binaryLen := |binaryBuffer|;
    var binHeader := [AsU32(binaryLen), CHUNK_TYPE_BIN];
    var totalLength := 12 + 8 + |padded| + 8 + binaryLen;
    var header := [GLB_MAGIC, GLB_VERSION, AsU32(totalLength)];
    glb := U32Le(header[0]) + U32Le(header[1]) + U32Le(header[2]) +
      U32Le(jsonHeader[0]) + U32Le(jsonHeader[1]) + padded +
      U32Le(binHeader[0]) + U32Le(binHeader[1]) + binaryBuffer;
  }

  /** The fields of any container laid out as a 12-byte header followed by
      two chunks, each with a length and a type word. */
  lemma {:induction false} ContainerFields(g: seq<byte>, w0: u32, w1: u32, w2: u32, l0: u32, t0: u32, d0: seq<byte>,
                        l1: u32, t1: u32, d1: seq<byte>)
    requires g == U32Le(w0) + U32Le(w1) + U32Le(w2) + U32Le(l0) + U32Le(t0) + d0 +
        U32Le(l1) + U32Le(t1) + d1
    ensures var p := |d0|;
      |g| == 28 + p + |d1| &&
      ReadU32Le(g[0..4]) == w0 && ReadU32Le(g[4..8]) == w1 && ReadU32Le(g[8..12]) == w2 &&
      ReadU32Le(g[12..16]) == l0 && ReadU32Le(g[16..20]) == t0 && g[20..20 + p] == d0 &&
      ReadU32Le(g[20 + p..24 + p]) == l1 && ReadU32Le(g[24 + p..28 + p]) == t1 && g[28 + p..] == d1
  {
    var p := |d0|;
    assert g[0..4] == U32Le(w0);
    assert g[4..8] == U32Le(w1);
    assert g[8..12] == U32Le(w2);
    assert g[12..16] == U32Le(l0);
    assert g[16..20] == U32Le(t0);
    assert g[20..20 + p] == d0;
    assert g[20 + p..24 + p] == U32Le(l1);
    assert g[24 + p..28 + p] == U32Le(t1);
    assert g[28 + p..] == d1;
    U32LeRoundTrip(w0);
    U32LeRoundTrip(w1);
    U32LeRoundTrip(w2);
    U32LeRoundTrip(l0);
    U32LeRoundTrip(t0);
    U32LeRoundTrip(l1);
    U32LeRoundTrip(t1);
  }

  /** Where everything sits in a container `g` for `json` and `bin`: a
      12-byte header (magic, version 2, total length), the JSON chunk header
      holding the UNPADDED JSON length and the JSON type, the JSON bytes
      followed by zero bytes up to a 4-byte boundary, then the binary chunk
      header and the binary bytes, unpadded. The total-length field is the
      container length as long as that fits in 32 bits. */
  ghost predicate GlbFields(g: seq<byte>, json: seq<byte>, bin: seq<byte>) {
    var p := PaddedLength(|json|);
    |g| == 12 + 8 + p + 8 + |bin| &&
    ReadU32Le(g[0..4]) == GLB_MAGIC && ReadU32Le(g[4..8]) == GLB_VERSION &&
    ReadU32Le(g[8..12]) == |g| % TWO_32 &&
    ReadU32Le(g[12..16]) == |json| % TWO_32 && ReadU32Le(g[16..20]) == CHUNK_TYPE_JSON &&
    g[20..20 + |json|] == json &&
    (forall i :: 20 + |json| <= i < 20 + p ==> g[i] == 0) &&
    ReadU32Le(g[20 + p..24 + p]) == |bin| % TWO_32 &&
    ReadU32Le(g[24 + p..28 + p]) == CHUNK_TYPE_BIN &&
    g[28 + p..] == bin
  }

  /** The container `make_glb` writes has that layout. */
  lemma {:induction false} GlbLayout(json: seq<byte>, bin: seq<byte>)
    ensures GlbFields(Glb(json, bin), json, bin)
  {
    var p := PaddedLength(|json|);
    var padded := json + Zeros(p - |json|);
    var total := 12 + 8 + |padded| + 8 + |bin|;
    var g := Glb(json, bin);
    ContainerFields(g, GLB_MAGIC, GLB_VERSION, AsU32(total), AsU32(|json|), CHUNK_TYPE_JSON, padded,
                    AsU32(|bin|), CHUNK_TYPE_BIN, bin);
    PaddedWithin(g, 20, json, p - |json|);
  }

  /** A JSON document followed by `k` zero bytes, found at offset `at`. */
  lemma {:induction false} PaddedWithin(g: seq<byte>, at: nat, json: seq<byte>, k: nat)
    requires at + |json| + k <= |g| && g[at..at + |json| + k] == json + Zeros(k)
    ensures g[at..at + |json|] == json
    ensures forall i :: at + |json| <= i < at + |json| + k ==> g[i] == 0
  {
    var d := g[at..at + |json| + k];
    assert g[at..at + |json|] == d[..|json|];
    forall i | at + |json| <= i < at + |json| + k ensures g[i] == 0 {
      assert g[i] == d[i - at] == Zeros(k)[i - at - |json|];
    }
  }

  /** A reader that follows section 4 of the glTF 2.0 specification: the
      header, then a JSON chunk whose `chunkLength` counts its data bytes,
      then the binary chunk right after that data. It yields the two chunk
      payloads. */
  function ReadGlb(g: seq<byte>): Option<(seq<byte>, seq<byte>)> {
    if |g| < 20 || ReadU32Le(g[0..4]) != GLB_MAGIC || ReadU32Le(g[4..8]) != GLB_VERSION then None
    else if ReadU32Le(g[8..12]) != |g| || ReadU32Le(g[16..20]) != CHUNK_TYPE_JSON then None
    else
      var jsonLen := ReadU32Le(g[12..16]);
      var binAt := 20 + jsonLen;
      if binAt + 8 > |g| || ReadU32Le(g[binAt + 4..binAt + 8]) != CHUNK_TYPE_BIN then None
      else
        var binLen := ReadU32Le(g[binAt..binAt + 4]);
        if binAt + 8 + binLen != |g| then None
        else Some((g[20..binAt], g[binAt + 8..]))
  }

  /** The as-written container is misread by a reader that follows the
      standard whenever the JSON length is not a multiple of four: for a
      one-byte JSON document the binary chunk header is looked for inside
      the padding. */
  lemma {:induction false} GlbMisreadWhenUnaligned()
    ensures ReadGlb(Glb([0x7B], [])) == None
  {
    var g := Glb([0x7B], []);
    GlbLayout([0x7B], []);
    var binLen, misread := g[24..28], g[25..29];
    assert misread[0] == binLen[1] && misread[1] == binLen[2] && misread[2] == binLen[3];
    ReadGlbWrongBinType(g);
  }

  /** A container whose word where the binary chunk type should be is not
      that type is rejected, whatever its other fields hold. */
  lemma {:induction false} ReadGlbWrongBinType(g: seq<byte>)
    requires |g| >= 20 && 20 + ReadU32Le(g[12..16]) + 8 <= |g|
    requires var binAt := 20 + ReadU32Le(g[12..16]);
      ReadU32Le(g[binAt + 4..binAt + 8]) != CHUNK_TYPE_BIN
    ensures ReadGlb(g) == None
  {
  }

  /** The container as section 4 of the glTF 2.0 specification defines it:
      the JSON chunk padded with spaces (0x20) and the binary chunk with
      zeros, each chunk length counting its padding. */
  function ConformingGlb(json: seq<byte>, bin: seq<byte>): seq<byte> {
    var jsonData := json + seq(PaddedLength(|json|) - |json|, i => 0x20);
    var binData := bin + Zeros(PaddedLength(|bin|) - |bin|);
    var total := 12 + 8 + |jsonData| + 8 + |binData|;
    U32Le(GLB_MAGIC) + U32Le(GLB_VERSION) + U32Le(AsU32(total)) +
    U32Le(AsU32(|jsonData|)) + U32Le(CHUNK_TYPE_JSON) + jsonData +
    U32Le(AsU32(|binData|)) + U32Le(CHUNK_TYPE_BIN) + binData
  }

  /** A conforming container reads back: the JSON payload followed only by
      spaces, the binary payload followed only by zeros. */
  lemma {:induction false} ConformingGlbRoundTrip(json: seq<byte>, bin: seq<byte>)
    requires 28 + PaddedLength(|json|) + PaddedLength(|bin|) < TWO_32
    ensures ReadGlb(ConformingGlb(json, bin)).Some?
    ensures var (j, b) := ReadGlb(ConformingGlb(json, bin)).value;
      |j| == PaddedLength(|json|) && j[..|json|] == json && (forall i :: |json| <= i < |j| ==> j[i] == 0x20) &&
      |b| == PaddedLength(|bin|) && b[..|bin|] == bin && (forall i :: |bin| <= i < |b| ==> b[i] == 0)
  {
    var jsonData := json + seq(PaddedLength(|json|) - |json|, i => 0x20);
    var binData := bin + Zeros(PaddedLength(|bin|) - |bin|);
    var total := 12 + 8 + |jsonData| + 8 + |binData|;
    var g := ConformingGlb(json, bin);
    ContainerFields(g, GLB_MAGIC, GLB_VERSION, AsU32(total), AsU32(|jsonData|), CHUNK_TYPE_JSON, jsonData,
                    AsU32(|binData|), CHUNK_TYPE_BIN, binData);
    ReadGlbAccepts(g, jsonData, binData);
    assert jsonData[..|json|] == json;
    assert binData[..|bin|] == bin;
  }

  /** A container whose header and chunk headers agree with its length and
      whose chunk types are right yields its two payloads. */
  lemma {:induction false} ReadGlbAccepts(g: seq<byte>, jsonData: seq<byte>, binData: seq<byte>)
    requires |g| == 28 + |jsonData| + |binData|
    requires ReadU32Le(g[0..4]) == GLB_MAGIC && ReadU32Le(g[4..8]) == GLB_VERSION
    requires ReadU32Le(g[8..12]) == |g| && ReadU32Le(g[16..20]) == CHUNK_TYPE_JSON
    requires ReadU32Le(g[12..16]) == |jsonData| && g[20..20 + |jsonData|] == jsonData
    requires var p := |jsonData|;
      ReadU32Le(g[20 + p..24 + p]) == |binData| && ReadU32Le(g[24 + p..28 + p]) == CHUNK_TYPE_BIN &&
      g[28 + p..] == binData
    ensures ReadGlb(g) == Some((jsonData, binData))
  {
  }

  // ---------------------------------------------------------------------
  // Triangles and their binary buffer

  /** The `[u32; 3]` bit patterns of an `f32` position, the interning key. */
  datatype Bits32x3 = Bits32x3(x: u32, y: u32, z: u32)

  /** `Triangles`: an index list and the distinct vertices it refers to. */
  datatype Triangles = Triangles(indices: seq<u32>, vertices: seq<Bits32x3>)

  /** The vertex components in buffer order. */
  function VertexWords(vs: seq<Bits32x3>): (r: seq<u32>)
    ensures |r| == 3 * |vs|
    ensures forall j :: 0 <= j < |vs| ==> r[3 * j] == vs[j].x && r[3 * j + 1] == vs[j].y && r[3 * j + 2] == vs[j].z
  {
    if vs == [] then []
    else
      var r := VertexWords(vs[..|vs| - 1]) + [vs[|vs| - 1].x, vs[|vs| - 1].y, vs[|vs| - 1].z];
      assert forall j :: 0 <= j < |vs| - 1 ==> vs[..|vs| - 1][j] == vs[j];
      r
  }

  /** `make_binary_buffer`: every index as a little-endian u32, then every
      vertex component; `write_f32(f32::from_bits(b))` writes the bytes of
      the bit pattern `b`. */
  method MakeBinaryBuffer(triangles: Triangles) returns (buf: seq<byte>)
    ensures buf == U32sLe(triangles.indices) + U32sLe(VertexWords(triangles.vertices))
  {
    var indices := triangles.indices;
    var vertices := triangles.vertices;
    var indicesBuf: seq<byte> := [];
    var verticesBuf: seq<byte> := [];
    var k := 0;
    while k < |indices|
      invariant 0 <= k <= |indices|
      invariant indicesBuf == U32sLe(indices[..k])
    {
      U32sLeAppend(indices[..k], indices[k]);
      assert indices[..k + 1] == indices[..k] + [indices[k]];
      indicesBuf := indicesBuf + U32Le(indices[k]);
      k := k + 1;
    }
    assert indices[..k] == indices;
    var j := 0;
    while j < |vertices|
      invariant 0 <= j <= |vertices|
      invariant verticesBuf == U32sLe(VertexWords(vertices[..j]))
    {
      var v := vertices[j];
      var w := VertexWords(vertices[..j]);
      assert vertices[..j + 1][..j] == vertices[..j];
      assert VertexWords(vertices[..j + 1]) == w + [v.x] + [v.y] + [v.z];
      U32sLeAppend(w, v.x);
      U32sLeAppend(w + [v.x], v.y);
      U32sLeAppend(w + [v.x] + [v.y], v.z);
      verticesBuf := verticesBuf + U32Le(v.x);
      verticesBuf := verticesBuf + U32Le(v.y);
      verticesBuf := verticesBuf + U32Le(v.z);
      j := j + 1;
    }
    assert vertices[..j] == vertices;
    buf := indicesBuf + verticesBuf;
  }

  /** The buffer holds 4 bytes per index and 12 per vertex, and index `k`
      is read back at byte `4k`. */
  lemma {:induction false} BinaryBufferIndex(t: Triangles, k: nat)
    ensures var buf := U32sLe(t.indices) + U32sLe(VertexWords(t.vertices));
      |buf| == 4 * |t.indices| + 12 * |t.vertices| &&
      (k < |t.indices| ==> ReadU32Le(buf[4 * k .. 4 * k + 4]) == t.indices[k])
  {
    var a := U32sLe(t.indices);
    var buf := a + U32sLe(VertexWords(t.vertices));
    if k < |t.indices| {
      U32sLeAt(t.indices, k);
      assert buf[4 * k .. 4 * k + 4] == a[4 * k .. 4 * k + 4];
    }
  }

  /** Component `c` of vertex `j` is read back after the indices, at byte
      `12j + 4c` of the vertex part. */
  lemma {:induction false} BinaryBufferVertex(t: Triangles, j: nat, c: nat)
    requires j < |t.vertices| && c < 3
    ensures var buf := U32sLe(t.indices) + U32sLe(VertexWords(t.vertices));
      var at := 4 * |t.indices| + 12 * j + 4 * c;
      var v := t.vertices[j];
      ReadU32Le(buf[at .. at + 4]) == (if c == 0 then v.x else if c == 1 then v.y else v.z)
  {
    var a := U32sLe(t.indices);
    var w := VertexWords(t.vertices);
    var buf := a + U32sLe(w);
    var m := 3 * j + c;
    U32sLeAt(w, m);
    assert |a| + 4 * m == 4 * |t.indices| + 12 * j + 4 * c;
    assert buf[|a| + 4 * m .. |a| + 4 * m + 4] == U32sLe(w)[4 * m .. 4 * m + 4];
  }

  // ---------------------------------------------------------------------
  // Buffer, buffer views and accessors of the glTF document

  datatype BufferViewTarget = ArrayBuffer | ElementArrayBuffer
  datatype ComponentType = UnsignedInt | Float
  datatype AccessorType = Scalar | Vec3

  datatype Buffer = Buffer(byteLength: u32, uri: Option<string>)
  datatype BufferView = BufferView(buffer: nat, byteOffset: u32, byteLength: u32, target: Option<BufferViewTarget>)
  datatype Accessor = Accessor(bufferView: Option<nat>, byteOffset: u32, componentType: ComponentType,
                               count: u32, accessorType: AccessorType)
  datatype MeshPrimitive = MeshPrimitive(indices: Option<nat>, position: nat)

  /** The sizing part of the document `make_gltf_json` serialises (the
      min/max bounds of the vertex accessor are float computations and are
      not modelled). */
  datatype GltfLayout = GltfLayout(
    buffers: seq<Buffer>, bufferViews: seq<BufferView>, accessors: seq<Accessor>,
    primitive: MeshPrimitive, sceneNodes: seq<nat>, nodeMesh: nat, scene: nat)

  /** u32 multiplication and addition as a release build performs them. */
  function MulU32(a: u32, b: u32): u32 { (a * b) % TWO_32 }
  function AddU32(a: u32, b: u32): u32 { (a + b) % TWO_32 }

  /** The layout `make_gltf_json` builds for `triangles`. */
  function MakeGltfLayout(triangles: Triangles): GltfLayout {
    var indicesByteLength := MulU32(AsU32(|triangles.indices|), 4);
    var verticesByteLength := MulU32(AsU32(|triangles.vertices|), 12);
    GltfLayout(
      [Buffer(AddU32(indicesByteLength, verticesByteLength), Some("data.bin"))],
      [BufferView(0, 0, indicesByteLength, Some(ElementArrayBuffer)),
       BufferView(0, indicesByteLength, verticesByteLength, Some(ArrayBuffer))],
      [Accessor(Some(0), 0, UnsignedInt, AsU32(|triangles.indices|), Scalar),
       Accessor(Some(1), 0, Float, AsU32(|triangles.vertices|), Vec3)],
      MeshPrimitive(Some(0), 1), [0], 0, 0)
  }

  /** When the binary buffer is smaller than 4 GiB the document describes it
      exactly: one buffer as long as the binary buffer, a first view over
      the index bytes, a second view starting where the indices end and
      covering the vertex bytes, and accessors counting indices and
      vertices; the primitive reads its indices through accessor 0 and its
      positions through accessor 1. */
  lemma {:induction false} LayoutMatchesBinary(t: Triangles)
    requires 4 * |t.indices| + 12 * |t.vertices| < TWO_32
    ensures var l := MakeGltfLayout(t);
      var buf := U32sLe(t.indices) + U32sLe(VertexWords(t.vertices));
      var v0 := l.bufferViews[0];
      var v1 := l.bufferViews[1];
      |l.buffers| == 1 && l.buffers[0].byteLength == |buf| &&
      |l.bufferViews| == 2 && v0.byteOffset == 0 && v0.byteLength + v1.byteLength == |buf| &&
      buf[v0.byteOffset .. v0.byteOffset + v0.byteLength] == U32sLe(t.indices) &&
      v1.byteOffset == v0.byteLength && buf[v1.byteOffset..] == U32sLe(VertexWords(t.vertices)) &&
      l.accessors[0].count == |t.indices| && l.accessors[1].count == |t.vertices| &&
      l.accessors[l.primitive.indices.value].bufferView == Some(0) &&
      l.accessors[l.primitive.position].bufferView == Some(1)
  {
    var a, b := U32sLe(t.indices), U32sLe(VertexWords(t.vertices));
    SmallByteLengths(|t.indices|, |t.vertices|);
    assert |a| == 4 * |t.indices| && |b| == 12 * |t.vertices|;
    ConcatParts(a, b);
  }

  /** Below 4 GiB the wrapping products and sum are the exact ones. */
  lemma {:induction false} SmallByteLengths(ni: nat, nv: nat)
    requires 4 * ni + 12 * nv < TWO_32
    ensures MulU32(AsU32(ni), 4) == 4 * ni && MulU32(AsU32(nv), 12) == 12 * nv
    ensures AddU32(MulU32(AsU32(ni), 4), MulU32(AsU32(nv), 12)) == 4 * ni + 12 * nv
  {
  }

  lemma {:induction false} ConcatParts<T>(a: seq<T>, b: seq<T>)
    ensures (a + b)[0..|a|] == a && (a + b)[|a|..] == b
  {
  }

  // ---------------------------------------------------------------------
  // Vertex interning in `tessellate`

  /** One polygon after the float steps of `tessellate`: skipped when it has
      no normal (`project3d_to_2d` fails), otherwise its scaled 3D
      coordinates `buf3d` and the corner indices earcut produced. */
  datatype PolygonTriangles = Skipped | Triangulated(buf3d: seq<F64>, triangles: seq<nat>)

  /** Earcut only hands out indices of vertices that exist. */
  ghost predicate EarcutIndicesInRange(polys: seq<PolygonTriangles>) {
    forall p, k :: 0 <= p < |polys| && polys[p].Triangulated? && 0 <= k < |polys[p].triangles| ==>
      3 * polys[p].triangles[k] + 2 < |polys[p].buf3d|
  }

  /** The key of triangle corner `idx`: its three coordinates cast to `f32`. */
  function CornerBits(buf3d: seq<F64>, idx: nat, toF32: F64 -> F32): Bits32x3
    requires 3 * idx + 2 < |buf3d|
  {
    Bits32x3(toF32(buf3d[3 * idx]).bits, toF32(buf3d[3 * idx + 1]).bits, toF32(buf3d[3 * idx + 2]).bits)
  }

  function PolygonCorners(p: PolygonTriangles, toF32: F64 -> F32): (r: seq<Bits32x3>)
    requires p.Triangulated? ==> forall k :: 0 <= k < |p.triangles| ==> 3 * p.triangles[k] + 2 < |p.buf3d|
    ensures p.Skipped? ==> r == []
    ensures p.Triangulated? ==> |r| == |p.triangles|
  {
    match p
    case Skipped => []
    case Triangulated(buf3d, triangles) =>
      seq(|triangles|, k requires 0 <= k < |triangles| => CornerBits(buf3d, triangles[k], toF32))
  }

  /** All triangle corners of all polygons, in the order earcut lists them. */
  function AllCorners(polys: seq<PolygonTriangles>, toF32: F64 -> F32): seq<Bits32x3>
    requires EarcutIndicesInRange(polys)
  {
    if polys == [] then []
    else AllCorners(polys[..|polys| - 1], toF32) + PolygonCorners(polys[|polys| - 1], toF32)
  }

  /** The result of interning `corners` in order into an empty set, each
      index cast `as u32`. */
  function InternedTriangles(corners: seq<Bits32x3>): Triangles {
    var (items, idx) := InternAll([], corners);
    Triangles(seq(|idx|, k requires 0 <= k < |idx| => AsU32(idx[k])), items)
  }

  /** The inner loop of `tessellate` over the triangle corners of one polygon. */
  method InternPolygon(vertices: IndexSet<Bits32x3>, p: PolygonTriangles, toF32: F64 -> F32)
      returns (idx: seq<nat>)
    requires vertices.Valid()
    requires p.Triangulated? ==> forall k :: 0 <= k < |p.triangles| ==> 3 * p.triangles[k] + 2 < |p.buf3d|
    modifies vertices
    ensures vertices.Valid()
    ensures (vertices.items, idx) == InternAll(old(vertices.items), PolygonCorners(p, toF32))
  {
    ghost var s0 := vertices.items;
    ghost var corners := PolygonCorners(p, toF32);
    idx := [];
    if p.Triangulated? {
      var buf3d := p.buf3d;
      var triangles := p.triangles;
      var k := 0;
      while k < |triangles|
        invariant 0 <= k <= |triangles|
        invariant vertices.Valid()
        invariant (vertices.items, idx) == InternAll(s0, corners[..k])
      {
        assert corners[..k + 1][..k] == corners[..k];
        var i := triangles[k];
        var vbits := Bits32x3(toF32(buf3d[i * 3]).bits, toF32(buf3d[i * 3 + 1]).bits,
                              toF32(buf3d[i * 3 + 2]).bits);
        assert vbits == corners[k] == corners[..k + 1][k];
        ghost var before := vertices.items;
        var index := vertices.InsertFull(vbits);
        assert InternAll(s0, corners[..k + 1]) == (vertices.items, idx + [index]) by {
          assert InternAll(s0, corners[..k]) == (before, idx);
        }
        idx := idx + [index];
        k := k + 1;
      }
      assert corners[..k] == corners;
    }
  }

  lemma {:induction false} PrefixInRange(polys: seq<PolygonTriangles>, n: nat)
    requires EarcutIndicesInRange(polys) && n <= |polys|
    ensures EarcutIndicesInRange(polys[..n])
  {
    assert forall p :: 0 <= p < n ==> polys[..n][p] == polys[p];
  }

  /** The corners of one more polygon follow those of the ones before. */
  lemma {:induction false} AllCornersStep(polys: seq<PolygonTriangles>, p: nat, toF32: F64 -> F32)
    requires EarcutIndicesInRange(polys) && p < |polys|
    ensures EarcutIndicesInRange(polys[..p]) && EarcutIndicesInRange(polys[..p + 1])
    ensures AllCorners(polys[..p + 1], toF32) == AllCorners(polys[..p], toF32) + PolygonCorners(polys[p], toF32)
  {
    PrefixInRange(polys, p + 1);
    PrefixInRange(polys, p);
    assert polys[..p + 1][..p] == polys[..p];
    assert polys[..p + 1][p] == polys[p];
  }

  /** `tessellate` after triangulation: each corner is interned and its
      index appended, so the result is the corners interned in order. */
  method Tessellate(polys: seq<PolygonTriangles>, toF32: F64 -> F32) returns (t: Triangles)
    requires EarcutIndicesInRange(polys)
    ensures t == InternedTriangles(AllCorners(polys, toF32))
  {
    var vertices := new IndexSet<Bits32x3>();
    var raw: seq<nat> := [];
    var p := 0;
    while p < |polys|
      invariant 0 <= p <= |polys|
      invariant vertices.Valid()
      invariant (vertices.items, raw) == InternAll([], AllCorners(polys[..p], toF32))
    {
      AllCornersStep(polys, p, toF32);
      InternAllAppend([], AllCorners(polys[..p], toF32), PolygonCorners(polys[p], toF32));
      var idx := InternPolygon(vertices, polys[p], toF32);
      raw := raw + idx;
      p := p + 1;
    }
    assert polys[..p] == polys;
    PrefixInRange(polys, p);
    t := Triangles(seq(|raw|, k requires 0 <= k < |raw| => AsU32(raw[k])), vertices.items);
  }

  /** What `tessellate` yields: one index per triangle corner, every index
      inside the vertex list (the `as u32` cast cannot push it out), no
      vertex twice, and as long as there are at most 2^32 vertices each
      index leads back to its corner and two corners share an index exactly
      when their bit patterns agree. */
  lemma {:induction false} TessellateSpec(corners: seq<Bits32x3>, j: nat, k: nat)
    ensures var t := InternedTriangles(corners);
      |t.indices| == |corners| && NoDup(t.vertices) &&
      (forall i :: 0 <= i < |t.indices| ==> t.indices[i] < |t.vertices|) &&
      (|t.vertices| <= TWO_32 ==> forall i :: 0 <= i < |t.indices| ==> t.vertices[t.indices[i]] == corners[i]) &&
      (|t.vertices| <= TWO_32 && j < |corners| && k < |corners| ==>
        (t.indices[j] == t.indices[k] <==> corners[j] == corners[k]))
  {
    InternAllSpec([], corners);
    var (items, idx) := InternAll([], corners);
    var t := InternedTriangles(corners);
    forall i | 0 <= i < |idx|
      ensures t.indices[i] < |items|
      ensures |items| <= TWO_32 ==> t.indices[i] == idx[i]
    {
      assert AsU32(idx[i]) <= idx[i];
    }
    if |items| <= TWO_32 && j < |corners| && k < |corners| {
      InternAllSameIndex([], corners, j, k);
    }
  }
}
