# nusamai core, modelled in Dafny

This project models the core of the PLATEAU GIS converter (nusamai). The
converter reads CityGML city models, passes each city object through a
pipeline of transforms, and writes it out through one of several sinks.
The model covers these parts:

- **Geometry.** The per-object geometry store and the collector that
  interns every vertex by its bit pattern (`nusamai-citygml`).
- **Transforms.**
  - The attribute-tree flattener, which splits nested features into
    entities of their own.
  - The CRS projection.
  - The builder that assembles the transform pipeline from the user's
    requirements.
- **GeoJSON and KML conversion.** Polygons, multipolygons and multipoints,
  both plain and indexed into a vertex buffer.
- **Sinks.**
  - GeoJSON.
  - Stanford PLY.
  - GeoPackage, together with its database handler.
  - The sorting stage of 3D Tiles.
  - The feature metadata, materials, textures and images of glTF.
- **The CityGML-to-glTF example program.**
  - XML walk with level-of-detail selection.
  - Tessellation and vertex interning.
  - Binary buffer and document sizing.
  - GLB container.
- **Front ends.**
  - The command line: `KEY=value` options and the choice of sink.
  - The desktop application's option tables.

The model has one Dafny module per source file, plus three shared
modules:

- `common.dfy`: little-endian words, strings and `Outcome`, which is
  `Returns(value)` or `Panics` for a Rust panic.
- `indexset.dfy`: the insertion-ordered `IndexSet` and `IndexMap`.
- `object.dfy`: attribute values, entities and the schema.

Some things are represented rather than computed:

- **Floating-point numbers** are carried as their IEEE-754 bit patterns
  (`F64(bits)`, `F32(bits)`). `to_bits`/`from_bits` are then exact
  inverses.
- **Float maths is a function parameter.** This covers earcut, the
  geocentric and projection formulas, the JGD2011-to-WGS 84 converter,
  `f64 -> f32` casts and bounding-box merging.
- **Serialisation** through serde, and the SQL engine, are parameters or
  are left out.
- **Rust integer casts and additions** (`as u32`, `pos + len`) are written
  out with wrap-around modulo 2^32, which is what a release build does.
- **Panics** (`unwrap` on `None`, out-of-range indexing, `unimplemented!`,
  `todo!`) are modelled as the `Panics` outcome rather than as
  preconditions. The one exception is the indices earcut returns, which
  are assumed to be in range (see "Left out").

Where the source files disagree with each other, each side is modelled
as written:

- The GeoPackage sink calls `insert_feature` with four arguments, but the
  handler declares two.
- The pipeline builder calls `ProjectionTransform::new` with one argument,
  but `projection.rs` declares two.
- The GeoJSON sink's `SinkInfo` has no `id_name`.

The model also makes these choices:

- **`iter_closed`** comes from `nusamai-geometry`, which is not part of
  this model. It is modelled as "append the first position when the ring
  is non-empty and its last position differs from its first". This agrees
  with the expectations in `nusamai-geojson/src/conversion.rs`.
- **`GeometryType::Unknown`.** `geometry.rs` declares this variant, but
  the sinks' `match entry.ty` has no arm for it. The model lets it
  contribute nothing.
- **Option names.** The flattening options' `None` variants are called
  `NoFeatures`, `NoData` and `NoObjects`, and `All` is called
  `AllFeatures`/`AllData`/`AllObjects`. This keeps them apart from
  `Option.None`.

## Model

| member | source | states |
|---|---|---|
| Geometry.BitsRoundTrip | nusamai-citygml/src/geometry.rs:64-70 | bit patterns and positions are inverse to each other, so interning by `to_bits` loses no information and two positions share a key exactly when they are equal |
| Geometry.IterClosedSpec | nusamai-kml/src/conversion.rs:36-38 | a closed ring is closed, extends the ring by at most one position, keeps the ring as its prefix, equals the ring exactly when the ring was already closed, and closing twice changes nothing |
| Geometry.IterClosedExamples | nusamai-geojson/src/conversion.rs:32-43 | an open four-position ring closes into five positions ending with the first; an already closed ring is unchanged |
| Geometry.IterClosedMap | nusamai-kml/src/conversion.rs:36-45 | closing then mapping positions equals mapping then closing, for a mapping that tells the first and last positions apart exactly when they differ |
| Geometry.RangeValues | nusamai/src/sink/geojson/mod.rs:156-159 | `iter_range(pos..pos+len)` with the `u32` sum wrapping: panics exactly when the range is reversed or past the end, otherwise yields the values of exactly those members, in order |
| Geometry.CollectRange | nusamai/src/sink/geojson/mod.rs:154-166 | the loop over one entry's range computes `RangeValues` |
| Geometry.MapPolygon | nusamai/src/sink/ply/mod.rs:122-130 | `transform` keeps the ring structure: same number of interiors, each ring the same length with every position mapped |
| Geometry.InternRing | nusamai-citygml/src/geometry.rs:64-82 | one `u32` index per ring position |
| Geometry.InternRingSpec | nusamai-citygml/src/geometry.rs:64-82 | interning only appends, keeps the vertex set duplicate-free, and every stored index is inside the vertex set; below 2^32 vertices each index leads back to its position |
| Geometry.InternRingSameIndex | nusamai-citygml/src/geometry.rs:64-82 | two positions of a ring receive the same index exactly when they are bit-identical |
| Geometry.GeometryCollector.constructor | nusamai-citygml/src/geometry.rs:55-61 | `default()`: empty vertex set and empty geometries |
| Geometry.GeometryCollector.InternPositions | nusamai-citygml/src/geometry.rs:65-70 | interning each position in order through `insert_full` yields `InternRing` of the old vertex set |
| Geometry.GeometryCollector.AddExteriorRing | nusamai-citygml/src/geometry.rs:64-73 | appends a new polygon whose exterior is the interned ring and returns its position |
| Geometry.GeometryCollector.AddInteriorRing | nusamai-citygml/src/geometry.rs:75-82 | adds the interned ring as a hole of the last polygon; every other polygon and that polygon's exterior are unchanged |
| Geometry.GeometryCollector.IntoGeometries | nusamai-citygml/src/geometry.rs:84-100 | the store has EPSG 6697, one position per interned key recovered from its bit pattern, every polygon index inside the vertex list, and the collected geometries unchanged |
| IndexSets.IndexOf | nusamai/src/sink/ply/mod.rs:201 | `get_index_of`: absent exactly when the value is not there, otherwise its first position |
| IndexSets.Inserted | nusamai-citygml/src/geometry.rs:68 | `insert_full`: returns the index of the value; a present value leaves the set unchanged, a new one is appended at index `len`; distinctness is kept |
| IndexSets.InternAll | nusamai/src/sink/ply/mod.rs:192-204 | `insert_full` over a sequence hands out one index per value |
| IndexSets.InternAllSpec | nusamai/src/sink/ply/mod.rs:192-204 | the contents only grow at the end, every index points back to its value, nothing but the inputs is added, and distinctness is kept |
| IndexSets.InternAllAppend | nusamai-gltf/examples/geometry_to_gltf.rs:245-274 | interning `a + b` is interning `a` and then `b` into the result |
| IndexSets.InternAllSameIndex | nusamai-gltf/examples/geometry_to_gltf.rs:266-274 | over distinct contents, two values receive the same index exactly when they are equal |
| IndexSets.IndexSet.constructor | nusamai-citygml/src/geometry.rs:57 | a new set is empty |
| IndexSets.IndexSet.InsertFull | nusamai-citygml/src/geometry.rs:68 | the set and the index become `Inserted` of the old contents, and the set stays duplicate-free |
| IndexMaps.Keys | nusamai-gpkg/src/handler.rs:163-166 | the keys in insertion order |
| IndexMaps.FindKey | nusamai/src/transformer/transform/flatten.rs:149 | the position of the first entry with the key, absent exactly when no entry has it |
| IndexMaps.InsertSpec | nusamai/src/transformer/transform/flatten.rs:144-152 | `insert` maps the key to the new value and leaves every other key unchanged; an existing key keeps its position, a new key is appended; unique keys stay unique |
| IndexMaps.InsertEntries | nusamai/src/sink/gpkg/mod.rs:225 | every entry after `insert` is the inserted one or was there before |
| CityObjects.StereotypeId | nusamai/src/transformer/transform/flatten.rs:138 | `stereotype.id()` is absent exactly for data objects, and is the object's id otherwise |
| CityObjects.EntityVec.constructor | nusamai/src/transformer/transform/flatten.rs:92-96 | the output vector starts empty |
| CityObjects.EntityVec.Push | nusamai/src/transformer/transform/flatten.rs:166-171 | pushing onto `out` appends the entity and nothing else |
| Schemas.Schema.constructor | nusamai/src/transformer/transform/projection.rs:99-101 | a schema holds the given type definitions and CRS |
| Flatten.IsSplitTarget | nusamai/src/transformer/transform/flatten.rs:197-212 | only features are split; never under `None`; every feature under `All`; under `AllExceptThematicSurfaces` exactly the features whose typename does not end in `Surface`, `:Window`, `:Door` or `TrafficArea` |
| Flatten.ThematicSurfaceExamples | nusamai/src/transformer/transform/flatten.rs:202-207 | under `AllExceptThematicSurfaces`, `bldg:WallSurface`, `bldg:Window`, `bldg:Door`, `tran:TrafficArea` and `tran:AuxiliaryTrafficArea` are not split |
| Flatten.SplitTargetExamples | nusamai/src/transformer/transform/flatten.rs:202-207 | under `AllExceptThematicSurfaces`, `bldg:Building` is split; the suffix test is case-sensitive and needs the colon, so `bldg:surface` and a bare `Door` are split too |
| Flatten.NewParent | nusamai/src/transformer/transform/flatten.rs:138-141 | an object's children get the object as parent exactly when it has an id, carrying its id and typename |
| Flatten.FlattenValueFlat | nusamai/src/transformer/transform/flatten.rs:128-195 | whatever stays in place holds no split target and no empty array, and every pushed entity is a split target whose own attributes are flat |
| Flatten.FlattenAttrsFlat | nusamai/src/transformer/transform/flatten.rs:143-152 | the rebuilt attribute map is flat and what it pushes are flat split roots |
| Flatten.FlattenItemsFlat | nusamai/src/transformer/transform/flatten.rs:178-192 | the rebuilt array's elements are flat and what it pushes are flat split roots |
| Flatten.NoFeaturesPushesNothing | nusamai/src/transformer/transform/flatten.rs:199-200 | with feature flattening off, nothing is pushed |
| Flatten.FlattenScalar | nusamai/src/transformer/transform/flatten.rs:193 | scalars are kept unchanged and push nothing |
| Flatten.SplitFeature | nusamai/src/transformer/transform/flatten.rs:155-173 | a split feature is removed from its place and pushed last, after its descendants, with its attributes flattened and, when it has a parent, `parentId` and `parentType` set to the parent's id and typename |
| Flatten.ParentNotInherited | nusamai/src/transformer/transform/flatten.rs:138-147 | what stays in place and what the descendants push do not depend on the parent given; only the object's own pushed entry does, and only when it is split |
| Flatten.FlattenItemsKept | nusamai/src/transformer/transform/flatten.rs:178-192 | an array flattens to nothing exactly when every element does, and never grows |
| Flatten.FlattenValueOrder | nusamai/src/transformer/transform/flatten.rs:128-195 | every split target of the tree, however deep, is pushed exactly once, in post-order (the features split out of an object's attributes before the object), as an object of the same typename and stereotype |
| Flatten.FlattenAttrsOrder | nusamai/src/transformer/transform/flatten.rs:145-151 | the attribute loop pushes one entity per split target the attributes hold, in attribute order |
| Flatten.FlattenItemsOrder | nusamai/src/transformer/transform/flatten.rs:180-186 | the array loop pushes one entity per split target the elements hold, in element order |
| Flatten.Emitted | nusamai/src/transformer/transform/flatten.rs:166-171 | one entity per pushed root, with that root, base URL `file:///dummy` and the shared stores |
| Flatten.WithParentAttributesSpec | nusamai/src/transformer/transform/flatten.rs:98-119 | every feature type gains optional single string attributes `parentId` and `parentType` and keeps all others; other types are unchanged |
| Flatten.FlattenTreeTransform.constructor | nusamai/src/transformer/transform/flatten.rs:51-64 | `new()`/`default()` flatten nothing |
| Flatten.FlattenTreeTransform.WithOptions | nusamai/src/transformer/transform/flatten.rs:66-76 | stores the three options given |
| Flatten.FlattenTreeTransform.SetFeatureOption | nusamai/src/transformer/transform/flatten.rs:78-80 | sets the feature option and keeps the other two |
| Flatten.FlattenTreeTransform.SetDataOption | nusamai/src/transformer/transform/flatten.rs:82-84 | sets the data option and keeps the other two |
| Flatten.FlattenTreeTransform.SetObjectOption | nusamai/src/transformer/transform/flatten.rs:86-88 | sets the object option and keeps the other two |
| Flatten.FlattenTreeTransform.Transform | nusamai/src/transformer/transform/flatten.rs:92-96 | flattens the root with no parent and appends exactly the entities of the split roots to `out`, discarding the flattened root |
| Flatten.FlattenTreeTransform.FlattenFeature | nusamai/src/transformer/transform/flatten.rs:128-195 | returns `FlattenValue` and appends the entities of its pushed roots to `out` |
| Flatten.FlattenTreeTransform.FlattenObject | nusamai/src/transformer/transform/flatten.rs:137-177 | the object arm returns `FlattenValue` of the object and appends its pushed roots |
| Flatten.FlattenTreeTransform.FlattenAttributes | nusamai/src/transformer/transform/flatten.rs:143-152 | the attribute loop rebuilds the attributes as `FlattenAttrs` does, appending the entities of the roots its values push |
| Flatten.FlattenTreeTransform.FlattenElements | nusamai/src/transformer/transform/flatten.rs:179-186 | the element loop keeps the elements as `FlattenItems` does, appending the entities of the roots its elements push |
| Flatten.FlattenTreeTransform.FlattenArray | nusamai/src/transformer/transform/flatten.rs:178-192 | the array arm returns `FlattenValue` of the array and appends its pushed roots |
| Flatten.FlattenTreeTransform.TransformSchema | nusamai/src/transformer/transform/flatten.rs:98-119 | each type definition is replaced by its version with the two parent attributes; the CRS is unchanged |
| GltfExample.PaddedLength | nusamai-gltf/examples/geometry_to_gltf.rs:294-300 | the padded length is a multiple of four, at least the length and less than four above it |
| GltfExample.Zeros | nusamai-gltf/examples/geometry_to_gltf.rs:297 | `k` zero bytes |
| GltfExample.PadWithZeros | nusamai-gltf/examples/geometry_to_gltf.rs:294-300 | the padding loop appends exactly the zero bytes up to the next multiple of four |
| GltfExample.MakeGlb | nusamai-gltf/examples/geometry_to_gltf.rs:290-347 | `make_glb` writes the header, the JSON chunk and the binary chunk as `Glb` lays them out |
| GltfExample.ContainerFields | nusamai-gltf/examples/geometry_to_gltf.rs:331-342 | every little-endian word and payload of a header-plus-two-chunks container reads back at its offset |
| GltfExample.GlbLayout | nusamai-gltf/examples/geometry_to_gltf.rs:290-347 | the container: magic, version 2, total length (mod 2^32), the unpadded JSON length, the JSON type, the JSON bytes and zero padding, then the binary length, type and bytes |
| GltfExample.GlbMisreadWhenUnaligned | nusamai-gltf/examples/geometry_to_gltf.rs:302-307 | with a one-byte JSON document, a reader following section 4 of the glTF 2.0 specification does not find the binary chunk, because the chunk length excludes the padding |
| GltfExample.ConformingGlbRoundTrip | nusamai-gltf/examples/geometry_to_gltf.rs:290-347 | a container whose chunk lengths count the padding (spaces for JSON, zeros for binary) reads back as the padded payloads |
| GltfExample.VertexWords | nusamai-gltf/examples/geometry_to_gltf.rs:498-504 | the x, y and z words of vertex `j` sit at `3j`, `3j+1` and `3j+2` |
| GltfExample.MakeBinaryBuffer | nusamai-gltf/examples/geometry_to_gltf.rs:486-507 | every index as a little-endian `u32`, then every vertex component |
| GltfExample.BinaryBufferIndex | nusamai-gltf/examples/geometry_to_gltf.rs:494-496 | the buffer is 4 bytes per index plus 12 per vertex, and index `k` reads back at byte `4k` |
| GltfExample.BinaryBufferVertex | nusamai-gltf/examples/geometry_to_gltf.rs:498-506 | component `c` of vertex `j` reads back at byte `4n + 12j + 4c`, where `n` is the number of indices |
| GltfExample.LayoutMatchesBinary | nusamai-gltf/examples/geometry_to_gltf.rs:359-428 | below 4 GiB the document describes the binary buffer exactly: one buffer of its length, views over the index bytes and then the vertex bytes, accessors counting indices and vertices, and the primitive reading indices and positions through them |
| GltfExample.PolygonCorners | nusamai-gltf/examples/geometry_to_gltf.rs:262-277 | a polygon without a normal contributes no corners; otherwise one corner per earcut index |
| GltfExample.InternPolygon | nusamai-gltf/examples/geometry_to_gltf.rs:266-274 | the inner loop interns the polygon's corners in order, giving `InternAll` of the old set |
| GltfExample.AllCornersStep | nusamai-gltf/examples/geometry_to_gltf.rs:245-279 | the corners of one more polygon follow those of the polygons before |
| GltfExample.Tessellate | nusamai-gltf/examples/geometry_to_gltf.rs:232-282 | after triangulation, `tessellate` returns the corners interned in order into an empty set, each index cast `as u32` |
| GltfExample.TessellateSpec | nusamai-gltf/examples/geometry_to_gltf.rs:232-282 | one index per corner, every index inside the vertex list, no vertex twice; below 2^32 vertices each index leads back to its corner, and two corners share an index exactly when their bit patterns agree |
| GltfExampleParse.EventReader.constructor | nusamai-gltf/examples/geometry_to_gltf.rs:66-74 | a reader positioned at the first event |
| GltfExampleParse.EventReader.ReadResolvedEvent | nusamai-gltf/examples/geometry_to_gltf.rs:74 | yields the next event and advances by one, or reports the end without advancing |
| GltfExampleParse.CoordRing | nusamai-gltf/examples/geometry_to_gltf.rs:97-100 | `chunks_exact(3)` drops an incomplete trailing chunk: one position per whole triple |
| GltfExampleParse.PosListOf | nusamai-gltf/examples/geometry_to_gltf.rs:97-100 | three numbers per position |
| GltfExampleParse.CoordRingSwapsBack | nusamai-gltf/examples/geometry_to_gltf.rs:97-100 | swapping each position back gives the posList numbers up to the last whole triple: longitude and latitude are exchanged, and nothing else changes |
| GltfExampleParse.MultiPolygon3.constructor | nusamai-gltf/examples/geometry_to_gltf.rs:137 | a new multipolygon is empty |
| GltfExampleParse.MultiPolygon3.AddExterior | nusamai-gltf/examples/geometry_to_gltf.rs:100 | appends a polygon with the ring as exterior |
| GltfExampleParse.MultiPolygon3.AddInterior | nusamai-gltf/examples/geometry_to_gltf.rs:97 | adds the ring as a hole of the last polygon and keeps everything else |
| GltfExampleParse.MultiPolygon3.Clear | nusamai-gltf/examples/geometry_to_gltf.rs:152 | empties the multipolygon |
| GltfExampleParse.TextRingsStep | nusamai-gltf/examples/geometry_to_gltf.rs:86-103 | one more event adds at most its own ring |
| GltfExampleParse.RingsAddExterior | nusamai-gltf/examples/geometry_to_gltf.rs:100 | after `add_exterior`, the rings are the old ones plus the new one |
| GltfExampleParse.RingsAddInterior | nusamai-gltf/examples/geometry_to_gltf.rs:97 | after `add_interior`, the rings are the old ones plus the new one |
| GltfExampleParse.WithRing | nusamai-gltf/examples/geometry_to_gltf.rs:96-102 | an exterior appends a new polygon with no holes and leaves the others as they were; a hole is appended to the last polygon's holes and nothing else changes; either way the rings grow by exactly the new one |
| GltfExampleParse.AddRing | nusamai-gltf/examples/geometry_to_gltf.rs:96-102 | a hole before any exterior is reported and changes nothing; otherwise the polygons become `WithRing` of the old ones: an exterior starts a new polygon, a hole joins the last one |
| GltfExampleParse.PolygonStep | nusamai-gltf/examples/geometry_to_gltf.rs:74-106 | one event of `parse_polygon`: it stops successfully exactly at `</gml:Polygon>` and with an error exactly at a malformed event; otherwise it never drops a polygon |
| GltfExampleParse.PolygonRunExample | nusamai-gltf/examples/geometry_to_gltf.rs:71-107 | exterior then interior posList text inside `gml:Polygon` gives one polygon with one hole, and the loop stops right after `</gml:Polygon>` leaving the next event unread |
| GltfExampleParse.PolygonRunEnds | nusamai-gltf/examples/geometry_to_gltf.rs:73-107 | `parse_polygon` returns right after the first `</gml:Polygon>` it reads, fails exactly after a malformed event, or never returns when the events run out with no `</gml:Polygon>` |
| GltfExampleParse.PolygonRunKeeps | nusamai-gltf/examples/geometry_to_gltf.rs:86-103 | the polygons already collected keep their exteriors, and every ring added comes from posList text among the events read |
| GltfExampleParse.ParsePolygon | nusamai-gltf/examples/geometry_to_gltf.rs:66-108 | status, reader position and polygons after the loop are exactly those of the event-by-event run `PolygonRun` from the starting position, starting as an exterior outside any posList |
| GltfExampleParse.LodRunEnds | nusamai-gltf/examples/geometry_to_gltf.rs:116-130 | `parse_lod_geometry` returns right after an end tag, fails right after a malformed event, or never returns when the events run out |
| GltfExampleParse.LodRunKeeps | nusamai-gltf/examples/geometry_to_gltf.rs:116-130 | collected polygons keep their exteriors, and every ring added, also inside a nested `gml:Polygon` (line 119), comes from posList text among the events read |
| GltfExampleParse.BalanceSplit | nusamai-gltf/examples/geometry_to_gltf.rs:115-126 | the start/end tag balance of adjacent event spans adds up |
| GltfExampleParse.LodRunCloses | nusamai-gltf/examples/geometry_to_gltf.rs:115-126 | when every polygon element is closed, the events read up to a successful return hold `depth + 1` more end tags than start tags: the loop returns at the end tag of the element it was called inside |
| GltfExampleParse.ParseLodGeometry | nusamai-gltf/examples/geometry_to_gltf.rs:110-131 | status, reader position and polygons after the loop are exactly those of `LodRun` from the starting position at depth 0, a `gml:Polygon` start tag handing over to `ParsePolygon` |
| GltfExampleParse.TextRingsGrow | nusamai-gltf/examples/geometry_to_gltf.rs:110-131 | the rings of two adjacent event spans are the rings of their union |
| GltfExampleParse.LodLevel | nusamai-gltf/examples/geometry_to_gltf.rs:149-192 | the LOD properties name levels 1 to 4 |
| GltfExampleParse.LodDecisionSpec | nusamai-gltf/examples/geometry_to_gltf.rs:149-192 | the highest level becomes the larger of the two; a higher level clears the polygons, and a level is parsed exactly when it equals the new highest |
| GltfExampleParse.HighestLodKept | nusamai-gltf/examples/geometry_to_gltf.rs:133-204 | the final level is the highest level met (0 when none), and exactly the LOD properties of that level keep their polygons |
| GltfExampleParse.LodStepRun | nusamai-gltf/examples/geometry_to_gltf.rs:149-191 | a level that is not parsed reads nothing and keeps the polygons |
| GltfExampleParse.LodStepKeeps | nusamai-gltf/examples/geometry_to_gltf.rs:149-191 | after a clearing level every ring held was read inside this property; otherwise the rings are the old ones plus rings read inside it |
| GltfExampleParse.EnterLod | nusamai-gltf/examples/geometry_to_gltf.rs:149-191 | the new highest level is `LodDecision`'s; status, position and polygons are those of `LodStepRun`: cleared first when the level is higher, then `parse_lod_geometry` exactly when the level is the highest |
| GltfExampleParse.CityObjStep | nusamai-gltf/examples/geometry_to_gltf.rs:141-202 | one event of `parse_cityobj`: it returns successfully exactly at an end tag read at depth 0, and a malformed event fails at once with the state unchanged |
| GltfExampleParse.CityObjRunEnds | nusamai-gltf/examples/geometry_to_gltf.rs:140-203 | `parse_cityobj` returns right after an end tag, fails right after a malformed event, or never returns when the events run out |
| GltfExampleParse.CityStepLevels | nusamai-gltf/examples/geometry_to_gltf.rs:148-192 | a step records at most one level, that of the LOD property start tag it reads, and the highest level agrees with `MaxLodAfter` of the levels met |
| GltfExampleParse.CityObjRunLevels | nusamai-gltf/examples/geometry_to_gltf.rs:140-203 | the levels recorded are those of LOD property start tags read, at their positions, and the highest level is `MaxLodAfter` of them and at most 4 |
| GltfExampleParse.CityObjRunStartsInOrder | nusamai-gltf/examples/geometry_to_gltf.rs:140-203 | the LOD property start tags are recorded in reading order |
| GltfExampleParse.CityLodStepKeeps | nusamai-gltf/examples/geometry_to_gltf.rs:149-191 | the LOD arm keeps every ring read after the start tag of a property of the highest level |
| GltfExampleParse.CityStepKeeps | nusamai-gltf/examples/geometry_to_gltf.rs:141-202 | every step keeps that property |
| GltfExampleParse.CityObjRunKeeps | nusamai-gltf/examples/geometry_to_gltf.rs:140-203 | the whole loop keeps that property |
| GltfExampleParse.CityStepCloses | nusamai-gltf/examples/geometry_to_gltf.rs:195-199 | each step moves the depth by the start/end tag balance of the events it read |
| GltfExampleParse.CityObjRunCloses | nusamai-gltf/examples/geometry_to_gltf.rs:140-203 | when every polygon element is closed, the events read up to a successful return hold `depth + 1` more end tags than start tags |
| GltfExampleParse.CityObjKeepsHighestLod | nusamai-gltf/examples/geometry_to_gltf.rs:133-204 | for one city object: the LOD properties read are recorded in order, the final level is the largest of them (0 if none), every ring kept was read after the start tag of a property of that level, and with no LOD property the multipolygon is empty |
| GltfExampleParse.CityObjEvent | nusamai-gltf/examples/geometry_to_gltf.rs:141-202 | one pass of the `parse_cityobj` loop is exactly `CityObjStep` on the event read; at the end of the events it never returns |
| GltfExampleParse.ParseCityObj | nusamai-gltf/examples/geometry_to_gltf.rs:133-204 | status, reader position, multipolygon and highest level are exactly those of `CityObjRun` from the starting position with nothing collected |
| GltfExampleParse.ObjectRun | nusamai-gltf/examples/geometry_to_gltf.rs:223 | `parse_cityobj` for a city object starts after its start tag and reads at least one event |
| GltfExampleParse.BodyRunEnds | nusamai-gltf/examples/geometry_to_gltf.rs:209-229 | `parse_body` succeeds only after reading every event, fails right after a malformed event, and never returns only at the end of the events |
| GltfExampleParse.BodyRunObjects | nusamai-gltf/examples/geometry_to_gltf.rs:212-223 | one multipolygon per city object start tag reached, in reading order: each is what `parse_cityobj` returned for the recorded start tag |
| GltfExampleParse.BodyRunObjectsApart | nusamai-gltf/examples/geometry_to_gltf.rs:209-229 | the recorded city objects do not overlap: each later start tag comes after the earlier object's `parse_cityobj` returned |
| GltfExampleParse.BodyRunCovers | nusamai-gltf/examples/geometry_to_gltf.rs:209-229 | when `parse_body` succeeds, every city object start tag is either recorded or read inside a recorded city object |
| GltfExampleParse.ParseBody | nusamai-gltf/examples/geometry_to_gltf.rs:206-230 | status, reader position and multipolygons are exactly those of `BodyRun` from the starting position with nothing collected |
| GltfAttributes.ToGltfSchema | nusamai/src/sink/gltf/attributes.rs:29-120 | panics exactly on `Unknown`; textual types become `String`, integers `Int64`, non-negative integers `UInt64`, doubles and measures `Float64` scalars, booleans `Boolean`, points `Vec3` of `Float64`; names stay empty |
| GltfAttributes.ToGltfClass | nusamai/src/sink/gltf/attributes.rs:122-169 | panics for data and property types and for unknown attribute types; otherwise one class named and keyed by the class name, with one property per attribute, keyed and described by the attribute name |
| GltfAttributes.PropertyTypesOf | nusamai/src/sink/gltf/attributes.rs:129-136 | the first loop gives a property type per attribute, in order, carrying the class and attribute names, and panics on an unknown type |
| GltfAttributes.ClassProperties | nusamai/src/sink/gltf/attributes.rs:142-154 | the second loop gives exactly one property per attribute name |
| GltfAttributes.KeysByIndex | nusamai/src/sink/gltf/attributes.rs:143-153 | the keys reached by position are the keys of the entries |
| GltfAttributes.Wrap | nusamai/src/sink/gltf/attributes.rs:206 | the counter as a wrapping `u32` |
| GltfAttributes.WrapAdd | nusamai/src/sink/gltf/attributes.rs:206-226 | wrapping after each addition equals wrapping once at the end |
| GltfAttributes.ToGltfPropertyTable | nusamai/src/sink/gltf/attributes.rs:171-238 | panics for non-feature types, for unknown types and for points; otherwise a table of the class and feature count with one property per attribute, where string properties take two consecutive buffer views (values, offsets) and scalars and booleans one, numbered on from the given length; the new length is returned |
| GltfAttributes.TableProperties | nusamai/src/sink/gltf/attributes.rs:190-231 | the attribute loop gives each attribute its table entry at its running buffer-view number, and returns the final counter |
| GltfAttributes.TableStateStep | nusamai/src/sink/gltf/attributes.rs:192-229 | one iteration keeps the loop state: entries for the attributes so far and the counter at the next slot |
| GltfAttributes.AddTableProperty | nusamai/src/sink/gltf/attributes.rs:196-228 | one attribute adds its entry and advances the counter by its number of views, or panics on an unknown type or a point |
| GltfAttributes.ViewsBeforeStep | nusamai/src/sink/gltf/attributes.rs:206-226 | the views before attribute `i+1` are those before `i` plus `i`'s |
| GltfAttributes.ViewsAreDisjoint | nusamai/src/sink/gltf/attributes.rs:196-229 | without wrap-around the views of two attributes never overlap and all lie below the total |
| GltfAttributes.ViewsBeforeMonotone | nusamai/src/sink/gltf/attributes.rs:196-229 | buffer-view numbers never decrease along the attributes |
| GltfMaterial.MaterialToGltf | nusamai/src/sink/gltf/material.rs:29-53 | metallic 0.2, roughness 0.5, the base colour widened; a base texture is interned and referenced by its index at texture coordinate 0, otherwise there is no texture and the set is unchanged |
| GltfMaterial.TextureIndexRefersBack | nusamai/src/sink/gltf/material.rs:33-39 | the texture index refers back to the texture; an equal texture reuses its index, a new one takes the next |
| GltfMaterial.TextureToGltf | nusamai/src/sink/gltf/material.rs:62-73 | interns the image of the texture's URL and refers to it by its index |
| GltfMaterial.LastIndexOf | nusamai/src/sink/gltf/material.rs:115 | the last occurrence of a character, absent exactly when it does not occur |
| GltfMaterial.LastIndexOfAt | nusamai/src/sink/gltf/material.rs:115 | a character found at `k` and nowhere after is last found at `k` |
| GltfMaterial.TrimTrailing | nusamai/src/sink/gltf/material.rs:115 | the path with its trailing `/` and `/.` components dropped is a prefix of it |
| GltfMaterial.FileName | nusamai/src/sink/gltf/material.rs:115 | the file name is the last component: slash-free, and never empty, `.` or `..` |
| GltfMaterial.TrimSeparator | nusamai/src/sink/gltf/material.rs:115 | appending `/` or `/.` to a non-empty path leaves its trimmed form unchanged |
| GltfMaterial.FileNameOfJoin | nusamai/src/sink/gltf/material.rs:115 | for any directory, the file name of `dir/name` is `name` when `name` is a plain component |
| GltfMaterial.Extension | nusamai/src/sink/gltf/material.rs:115 | an extension is dot-free and exists only when the file name exists and has a dot; no file name, or one without a dot, gives none |
| GltfMaterial.ExtensionOfName | nusamai/src/sink/gltf/material.rs:115 | a file named `stem.ext` with a non-empty stem and a dot-free `ext` has extension `ext` |
| GltfMaterial.ExtensionIgnoresTrailingSeparator | nusamai/src/sink/gltf/material.rs:115 | a trailing `/` or `/.` does not change the extension of a non-empty path |
| GltfMaterial.ClassifyExtension | nusamai/src/sink/gltf/material.rs:116-144 | `tif`, `tiff` and `png` are re-encoded as PNG, `jpg` and `jpeg` embedded, everything else refused (both directions) |
| GltfMaterial.ClassifyPng | nusamai/src/sink/gltf/material.rs:117 | in any directory, `a.png` is re-encoded as PNG |
| GltfMaterial.ClassifyJpegAfterLastDot | nusamai/src/sink/gltf/material.rs:135 | in any directory, `a.b.jpeg` is embedded as JPEG: the extension is after the last dot |
| GltfMaterial.ClassifyCaseSensitive | nusamai/src/sink/gltf/material.rs:139-143 | in any directory, `a.PNG` is refused |
| GltfMaterial.ClassifyHiddenFile | nusamai/src/sink/gltf/material.rs:145-148 | in any directory, `.png` has no extension and is refused |
| GltfMaterial.ClassifyDotInDirectory | nusamai/src/sink/gltf/material.rs:145-148 | a dot in the directory name (`dir.d/png`) is no extension, so the file is refused |
| GltfMaterial.ClassifyTrailingSeparator | nusamai/src/sink/gltf/material.rs:115-117 | `dir/a.png/` and `dir/a.png/.` are still re-encoded as PNG |
| GltfMaterial.ClassifyParentDirectory | nusamai/src/sink/gltf/material.rs:145-148 | a path ending in `..` has no extension |
| GltfMaterial.LoadImage | nusamai/src/sink/gltf/material.rs:114-150 | an unsupported or missing extension is `InvalidData`; a PNG-like extension gives the re-encoded PNG bytes, or `InvalidData` when decoding fails; a JPEG extension gives the file's bytes as JPEG, or the read error; and a PNG or JPEG result comes only from the matching extension |
| GltfMaterial.ImageToGltf | nusamai/src/sink/gltf/material.rs:82-110 | a non-file URL is kept as a URI; a load error is passed on with nothing changed; a loaded image gets a new view at the end of the binary content and is referenced by the last view index |
| GltfMaterial.EmbeddedImageView | nusamai/src/sink/gltf/material.rs:91-101 | below 2^32 views, the embedded image refers to the view just pushed, which covers exactly its bytes |
| GeoJsonTypes.NewGeometry | nusamai/src/sink/geojson/mod.rs:196 | `Geometry::new` / `.into()`: the value, with no bbox and no foreign members |
| GeoJsonConversion.PolygonToRings | nusamai-geojson/src/conversion.rs:32-43 | one ring per input ring |
| GeoJsonConversion.InputRings | nusamai-geojson/src/conversion.rs:32-43 | the exterior first, then the interiors in order |
| GeoJsonConversion.PolygonToRingsSpec | nusamai-geojson/src/conversion.rs:32-43 | output ring `k` is input ring `k`, closed and converted: same start, at most one more position, last equal to first |
| GeoJsonConversion.PolygonToGeoJsonGeometry | nusamai-geojson/src/conversion.rs:17-22 | a Polygon geometry with one ring per input ring, no bbox and no foreign members |
| GeoJsonConversion.MultiPolygonToGeoJsonGeometry | nusamai-geojson/src/conversion.rs:24-30 | a MultiPolygon geometry with the rings of each polygon, in order |
| GeoJsonConversion.NusamaiToGeoJsonGeometry | nusamai-geojson/src/conversion.rs:5-15 | polygons and multipolygons are converted; every other geometry panics (`unimplemented!`) |
| GeoJsonConversion.OpenSquareCloses | nusamai-geojson/src/conversion.rs:51-83 | an open square with an open hole comes out as two rings of five positions, each ending with its first |
| GeoJsonLib.GeoJsonGeometryToFeature | nusamai-geojson/src/lib.rs:7-15 | a feature holding the geometry as given, with no id, properties, bbox or foreign members |
| GeoJsonSink.ExtractProperties | nusamai/src/sink/geojson/mod.rs:126-134 | panics unless the root is an object whose attribute JSON is a JSON object; then the properties are that object's members |
| GeoJsonSink.AddEntry | nusamai/src/sink/geojson/mod.rs:154-191 | solids, surfaces and triangles add their polygons, curves their line strings, points their positions, each taken over the entry's range; an out-of-range entry panics; unknown entries add nothing |
| GeoJsonSink.CollectAllPrefix | nusamai/src/sink/geojson/mod.rs:154-191 | what the first entries collect is a prefix of what all of them collect |
| GeoJsonSink.FeaturesOfSpec | nusamai/src/sink/geojson/mod.rs:193-226 | at most three features, of strictly increasing kind (MultiPolygon, MultiLineString, MultiPoint), one exactly for each non-empty kind, each with the object's id and properties |
| GeoJsonSink.ToplevelFeaturesCases | nusamai/src/sink/geojson/mod.rs:138-148 | a root that is not an object panics, a non-feature object gives no features, and returned features carry the feature's id |
| GeoJsonSink.ToplevelCityobjToGeojsonFeatures | nusamai/src/sink/geojson/mod.rs:138-227 | the loop over the entries computes `ToplevelFeatures` |
| GeoJsonSink.AddEntryStep | nusamai/src/sink/geojson/mod.rs:154-191 | the `match entry.ty` body computes `AddEntry` |
| GeoJsonSink.PanicsPersist | nusamai/src/sink/geojson/mod.rs:154-191 | once an entry panics, any longer list of entries panics |
| GeoJsonSink.ResolvedRing | nusamai/src/sink/geojson/mod.rs:160 | an index ring resolved into coordinate lists, one per index |
| GeoJsonSink.SolidSquareExample | nusamai/src/sink/geojson/mod.rs:238-303 | one Solid entry over a closed square gives a single MultiPolygon feature with id `dummy` and the square's five positions |
| GeoJsonSink.WriteFeatureCollection | nusamai/src/sink/geojson/mod.rs:105-120 | the header, the features separated by commas, then `]}` and a newline |
| GeoJsonSink.CollectionLayout | nusamai/src/sink/geojson/mod.rs:105-120 | the output starts with the header, ends with the footer, and feature `k` sits after the earlier features and their commas |
| KmlConversion.ClosedRing | nusamai-kml/src/conversion.rs:32-54 | a ring written with extrude on, tessellate off and absolute altitude |
| KmlConversion.InnerBoundary | nusamai-kml/src/conversion.rs:56-79 | one linear ring per interior |
| KmlConversion.PolygonToKmlPolygon | nusamai-kml/src/conversion.rs:81-96 | a polygon with extrude on, tessellate off and absolute altitude |
| KmlConversion.ClosedRingSpec | nusamai-kml/src/conversion.rs:32-79 | a ring comes out closed, starts with the given positions mapped, has at most one more, and each coordinate carries its height |
| KmlConversion.PolygonToKmlSpec | nusamai-kml/src/conversion.rs:99-111 | exactly one geometry, a polygon whose outer ring is the exterior and whose inner rings are the interiors in order |
| KmlConversion.MultipointToKmlSpec | nusamai-kml/src/conversion.rs:124-140 | one point per position, in order, with its third coordinate as altitude |
| KmlConversion.MultipolygonToKmlSpec | nusamai-kml/src/conversion.rs:18-30 | one nested multi-geometry per polygon, in order |
| KmlConversion.IndexedPolygonToKml | nusamai-kml/src/conversion.rs:119-121 | panics exactly when an index is outside the vertex buffer |
| KmlConversion.IndexedMultipolygonToKml | nusamai-kml/src/conversion.rs:11-16 | panics exactly when some polygon has an index outside the vertex buffer |
| KmlConversion.IndexedMultipointToKml | nusamai-kml/src/conversion.rs:143-148 | panics exactly when an index is outside the vertex buffer |
| KmlConversion.ClosedRingResolved | nusamai-kml/src/conversion.rs:32-79 | over distinct vertices, closing an index ring then resolving it equals resolving then closing |
| KmlConversion.IndexedPolygonMatchesPlain | nusamai-kml/src/conversion.rs:114-121 | over distinct vertices and in-range indices, the indexed conversion is the plain one on the resolved polygon |
| KmlConversion.IndexedMultipolygonMatchesPlain | nusamai-kml/src/conversion.rs:7-16 | the same for multipolygons, polygon by polygon |
| KmlConversion.IndexedMultipointMatchesPlain | nusamai-kml/src/conversion.rs:143-153 | the indexed multipoint conversion is the plain one on the resolved positions |
| KmlConversion.IndexedClosesByIndex | nusamai-kml/src/conversion.rs:36-38 | over a buffer with a repeated vertex, the indexed conversion closes by index and can add a position the plain conversion does not |
| PlySink.EntryCorners | nusamai/src/sink/ply/mod.rs:115-160 | solids, surfaces and triangles give the triangle corners of their polygons over the entry's range; curves, points and unknown entries give none |
| PlySink.EntityTriangles | nusamai/src/sink/ply/mod.rs:96-167 | nothing is sent for a root that is not a feature object; otherwise the corners of all entries, or a panic |
| PlySink.CornersPanicPersist | nusamai/src/sink/ply/mod.rs:115-160 | once an entry panics, every longer list of entries panics |
| PlySink.CurvesAndPointsIgnored | nusamai/src/sink/ply/mod.rs:157-159 | curve, point and unknown entries change nothing |
| PlySink.MakeVerticesAndIndices | nusamai/src/sink/ply/mod.rs:191-204 | the corners, moved by the centroid, interned in order by their bit patterns, each index cast `as u32` |
| PlySink.VerticesAndIndicesSpec | nusamai/src/sink/ply/mod.rs:191-204 | one index per corner, each inside a duplicate-free vertex set; below 2^32 vertices each index leads back to its corner, and two corners share an index exactly when bit-identical |
| PlySink.PlyHeaderText | nusamai/src/sink/ply/mod.rs:22-31 | for any two counts, `{n_verts}` becomes the first and `{n_faces}` the second in decimal, the rest of the template is kept, and both numbers read back from their digits (PlySink.PlyFileLayout applies it to `vertices.len()` and `indices.len() / 3`) |
| PlySink.VertexRecord | nusamai/src/sink/ply/mod.rs:219-223 | 24 bytes per vertex |
| PlySink.FaceRecord | nusamai/src/sink/ply/mod.rs:224-229 | 13 bytes per face |
| PlySink.Faces | nusamai/src/sink/ply/mod.rs:225 | `chunks_exact(3)`: one face per whole triple of indices |
| PlySink.WriteRecords | nusamai/src/sink/ply/mod.rs:219-229 | every vertex record, then every face record |
| PlySink.WriteVertexRecords | nusamai/src/sink/ply/mod.rs:219-223 | the vertex loop writes each vertex's 24-byte record, in order |
| PlySink.WriteFaceRecords | nusamai/src/sink/ply/mod.rs:224-229 | the face loop writes one 13-byte record per complete triple of indices, in order, and none for a trailing incomplete one |
| PlySink.VertexRecordAt | nusamai/src/sink/ply/mod.rs:219-223 | vertex `k`'s record starts at byte `24k` |
| PlySink.VertexRecordPlaced | nusamai/src/sink/ply/mod.rs:219-223 | vertex `k`'s record is at byte `24k` and holds its bit patterns |
| PlySink.FaceRecordAt | nusamai/src/sink/ply/mod.rs:224-229 | face `f` starts after all vertex records, at `13f` |
| PlySink.FaceRecordPlaced | nusamai/src/sink/ply/mod.rs:224-229 | face `f`'s record holds the count 3 and its three indices |
| PlySink.VertexRecordFields | nusamai/src/sink/ply/mod.rs:221 | the three `u64` words of a vertex record read back |
| PlySink.FaceRecordFields | nusamai/src/sink/ply/mod.rs:226-227 | a face record starts with 3 and its three `u32` words read back |
| PlySink.CollectVertices | nusamai/src/sink/ply/mod.rs:174-186 | the receiver loop keeps every corner of every batch, batch after batch, in order |
| PlySink.CollectedCorners | nusamai/src/sink/ply/mod.rs:174-186 | as many corners as the batches hold, and each batch's corners sit right after those of the batches before it |
| PlySink.HeaderIsAscii | nusamai/src/sink/ply/mod.rs:22-31 | the filled-in header is plain ASCII, so each character is written as one byte |
| PlySink.HeaderBytes | nusamai/src/sink/ply/mod.rs:212-217 | the header bytes are the header text, one byte per character |
| PlySink.PlyFileHeader | nusamai/src/sink/ply/mod.rs:212-229 | the file is the header, 24 bytes per vertex and 13 per face long, and starts with the header's bytes |
| PlySink.PlyFileVertex | nusamai/src/sink/ply/mod.rs:219-223 | vertex `k`'s 24-byte record follows the header at `24k` |
| PlySink.PlyFileFace | nusamai/src/sink/ply/mod.rs:224-229 | face `f`'s 13-byte record follows the header and all vertex records at `13f` |
| PlySink.PlyFileLayout | nusamai/src/sink/ply/mod.rs:212-229 | the header names `|vertices|` vertices and `|indices| / 3` faces, and exactly that many 24-byte vertex records and 13-byte face records follow it, in order, and nothing else |
| PlySink.WritePly | nusamai/src/sink/ply/mod.rs:174-229 | the file written is `PlyFile` of the corners received, moved by the centroid and interned |
| PlySink.RunOutcome | nusamai/src/sink/ply/mod.rs:237-245 | the errors reported are exactly those of the two halves that are not cancellations, in order, and `run` returns `Ok` |
| GpkgSink.DatabaseTarget | nusamai/src/sink/gpkg/mod.rs:89-106 | a `sqlite:` path is used as given and an existing file is not removed; any other path becomes `sqlite://` plus the path, and an existing file is removed |
| GpkgSink.EntryPolygons | nusamai/src/sink/gpkg/mod.rs:138-150 | curves and points panic (`unimplemented!`), unknown entries add nothing, and solids, surfaces and triangles add the polygons of their range |
| GpkgSink.AllPolygonsSpec | nusamai/src/sink/gpkg/mod.rs:136-154 | building the multipolygon panics exactly when an entry does, and is empty exactly when every entry adds nothing |
| GpkgSink.CollectPolygons | nusamai/src/sink/gpkg/mod.rs:138-150 | the loop over a feature's entries computes `AllPolygons` |
| GpkgSink.PanicsPersist | nusamai/src/sink/gpkg/mod.rs:138-150 | once a prefix of the entries panics, the whole list does |
| GpkgSink.EntityRecordSpec | nusamai/src/sink/gpkg/mod.rs:127-198 | a feature record goes to the object's own table with its id, encoding, bbox and attributes; a data object gives an attribute record; an empty multipolygon, a non-object root and an object stereotype give nothing |
| GpkgSink.InsertOp | nusamai/src/sink/gpkg/mod.rs:215-230 | a feature record becomes `insert_feature` into its table with its id and geometry; an attribute record becomes `insert_attribute`; both carry the attributes |
| GpkgSink.UpdateOps | nusamai/src/sink/gpkg/mod.rs:233-235 | one `update_bbox` per table, in map order |
| GpkgSink.ConsumeTables | nusamai/src/sink/gpkg/mod.rs:209-213 | the tables created are exactly those records went to, each created once and before any insert into it |
| GpkgSink.ConsumeInserts | nusamai/src/sink/gpkg/mod.rs:206-231 | every record is inserted once, into its own table, in the order received |
| GpkgSink.ConsumePanics | nusamai/src/sink/gpkg/mod.rs:210 | the loop panics exactly when some record names a table the schema lacks |
| GpkgSink.MergedBboxPresent | nusamai/src/sink/gpkg/mod.rs:225 | a table has a merged bbox exactly when some feature record went to it |
| GpkgSink.ConsumeBboxes | nusamai/src/sink/gpkg/mod.rs:225 | `table_bboxes` ends with unique keys, each table holding its merged bbox |
| GpkgSink.UpdateOpsSpec | nusamai/src/sink/gpkg/mod.rs:233-235 | over distinct keys, the `update_bbox` statements name each table once with its box |
| GpkgSink.FinishUpdates | nusamai/src/sink/gpkg/mod.rs:233-237 | after the loop, `update_bbox` is issued once for each table that received a feature, with its merged bbox |
| GpkgSink.GpkgWriter.constructor | nusamai/src/sink/gpkg/mod.rs:109-111 | no tables created, no bboxes, no statements |
| GpkgSink.GpkgWriter.Receive | nusamai/src/sink/gpkg/mod.rs:206-231 | one iteration: panics exactly when `Step` does, otherwise the state becomes `Step` of the old state |
| GpkgSink.GpkgWriter.UpdateBboxesAndCommit | nusamai/src/sink/gpkg/mod.rs:233-237 | issues the `update_bbox` statements after the earlier ones and keeps the tables and bboxes |
| GpkgSink.WriteAll | nusamai/src/sink/gpkg/mod.rs:205-237 | the whole second half panics exactly when the loop does, and otherwise issues the statements of `Consume` and then the updates |
| GpkgSink.ConsumePanicsPersist | nusamai/src/sink/gpkg/mod.rs:206-231 | once a prefix of the records panics, the whole sequence does |
| GpkgSink.RunResult | nusamai/src/sink/gpkg/mod.rs:239-242 | `Ok` when the producers succeeded or were cancelled, their error otherwise |
| GpkgHandler.FromPath | nusamai-gpkg/src/handler.rs:23-29 | an existing path is refused with `DatabaseExists` and its debug rendering; otherwise the URL is `sqlite://` followed by the path |
| GpkgHandler.AlterColumnLayout | nusamai-gpkg/src/handler.rs:56-59 | the statement is `ALTER TABLE mpoly3d ADD COLUMN`, the name, a space, the type and `;` |
| GpkgHandler.AddColumnsAllSucceed | nusamai-gpkg/src/handler.rs:51-63 | when every statement succeeds, one is issued per column, in order, and the result is `Ok` |
| GpkgHandler.AddColumnsStopsAtFailure | nusamai-gpkg/src/handler.rs:55-61 | at the first failing column the loop stops, having issued the statements up to it, and returns its error |
| GpkgHandler.AddColumns | nusamai-gpkg/src/handler.rs:51-63 | the loop issues the statements `AddColumnsRun` describes and returns its result |
| GpkgHandler.KeyNames | nusamai-gpkg/src/handler.rs:163-166 | the column names in map order |
| GpkgHandler.Placeholders | nusamai-gpkg/src/handler.rs:168 | `n` question marks |
| GpkgHandler.InsertFeatureBinds | nusamai-gpkg/src/handler.rs:170-173 | the geometry bytes first, then each attribute value in map order |
| GpkgHandler.InsertFeatureQueryShape | nusamai-gpkg/src/handler.rs:153-169 | with no attributes, the geometry-only statement; otherwise the columns `geometry` and the keys, and one placeholder more than there are keys |
| GpkgHandler.PlaceholderMarks | nusamai-gpkg/src/handler.rs:168 | `n` placeholders joined with `, ` hold `n` question marks |
| GpkgHandler.NamesHaveNoMarks | nusamai-gpkg/src/handler.rs:163-167 | names without `?`, joined, hold no question mark |
| GpkgHandler.InsertFeaturePlaceholders | nusamai-gpkg/src/handler.rs:153-175 | unless a key holds `?`, the statement has exactly as many placeholders as values are bound |
| GpkgHandler.StrLeTotal | nusamai-gpkg/src/handler.rs:99 | the string order is total |
| GpkgHandler.InsertNameSorted | nusamai-gpkg/src/handler.rs:99 | inserting a name into sorted names keeps them sorted |
| GpkgHandler.InsertNameMultiset | nusamai-gpkg/src/handler.rs:99 | inserting adds that name exactly once and keeps every other name |
| GpkgHandler.TableNamesSpec | nusamai-gpkg/src/handler.rs:84-101 | the names come back sorted, and as a permutation of the rows |
| GpkgHandler.HandlerExamples | nusamai-gpkg/src/handler.rs:154-162 | the geometry-only statement, a one-attribute statement and an `ALTER TABLE` statement, spelled out |
| GpkgHandler.FreshDatabaseOrder | nusamai-gpkg/src/handler.rs:197-202 | how the four table names of a fresh database compare |
| GpkgHandler.TableNamesExample | nusamai-gpkg/src/handler.rs:194-203 | the tables of a fresh database come back as `gpkg_contents`, `gpkg_geometry_columns`, `gpkg_spatial_ref_sys`, `mpoly3d` |
| CesiumTiles.InsertByTileSorted | nusamai/src/sink/cesiumtiles/mod.rs:180-184 | inserting into a sequence sorted by tile id keeps it sorted |
| CesiumTiles.InsertByTileMultiset | nusamai/src/sink/cesiumtiles/mod.rs:180-184 | inserting adds the feature once and keeps every other feature |
| CesiumTiles.SortByTileSpec | nusamai/src/sink/cesiumtiles/mod.rs:180-184 | the sort yields the features received, as a permutation, ordered by tile id |
| CesiumTiles.GroupByTileMembers | nusamai/src/sink/cesiumtiles/mod.rs:186-190 | the groups' features, in order, are the input; the last group has the last feature's id |
| CesiumTiles.GroupByTileWellFormed | nusamai/src/sink/cesiumtiles/mod.rs:186-190 | every group is non-empty and its features carry its id |
| CesiumTiles.GroupByTileIncreasing | nusamai/src/sink/cesiumtiles/mod.rs:186-190 | over features sorted by id, group ids strictly increase |
| CesiumTiles.GroupIdsDistinct | nusamai/src/sink/cesiumtiles/mod.rs:180-190 | after sorting, no two groups share an id |
| CesiumTiles.SortingStageSpec | nusamai/src/sink/cesiumtiles/mod.rs:180-190 | the groups hold exactly the features received, each feature under its own id, each id once, in increasing order |
| CesiumTiles.SentGroups | nusamai/src/sink/cesiumtiles/mod.rs:186-195 | the groups sent are a prefix of the groups, cut at the first refused send |
| CesiumTiles.FeatureSortingStage | nusamai/src/sink/cesiumtiles/mod.rs:164-196 | sends the sorted groups in order until a send fails, with one attempt more than the groups sent when one fails |
| CesiumTiles.GroupingExample | nusamai/src/sink/cesiumtiles/mod.rs:180-190 | with the sort taken as stable: features with ids 5, 3, 5 become the groups 3 and 5, the latter holding both id-5 features in their received order |
| Builder.DefaultLodFilter | nusamai/src/transformer/builder.rs:64-71 | every level, keeping the highest |
| Builder.DefaultRequirements | nusamai/src/transformer/builder.rs:21-33 | no shortening, no mapping rules, no flattening, no appearance, remove descendant features, JSONify, the default LOD filter |
| Builder.RequestOf | nusamai/src/transformer/builder.rs:45-57 | every field carries over, `resolve_appearance` becoming `apply_appearance` |
| Builder.RequestOfInjective | nusamai/src/transformer/builder.rs:45-57 | the conversion loses nothing: distinct requirements give distinct requests |
| Builder.SerialTransform.constructor | nusamai/src/transformer/builder.rs:117 | no transforms |
| Builder.SerialTransform.Push | nusamai/src/transformer/builder.rs:121-179 | `push` appends the step |
| Builder.FieldRenamer.constructor | nusamai/src/transformer/builder.rs:129 | an empty rename map |
| Builder.FieldRenamer.LoadDefaultMapForShape | nusamai/src/transformer/builder.rs:130-132 | adds the shapefile defaults over the current map |
| Builder.FieldRenamer.ExtendRenameMap | nusamai/src/transformer/builder.rs:135-137 | adds the user's renames, replacing entries with the same name |
| Builder.RenameMapSpec | nusamai/src/transformer/builder.rs:128-139 | a user rule wins over a shapefile default; a default survives where there is no rule and shortening was asked for; no other name is renamed |
| Builder.MakeRenamer | nusamai/src/transformer/builder.rs:128-139 | the renamer holds `RenameMap` of the request |
| Builder.PushTail | nusamai/src/transformer/builder.rs:146-179 | appends the flattening, mergedown and key-value steps the request names |
| Builder.Build | nusamai/src/transformer/builder.rs:116-182 | the serial transform holds exactly `Pipeline` of the request |
| Builder.PipelineOrder | nusamai/src/transformer/builder.rs:116-182 | the steps come in the fixed order projection, appearance, renaming, LOD filter, flattening, mergedown, key-value, each at most once |
| Builder.PipelineContents | nusamai/src/transformer/builder.rs:116-182 | projection, renaming and the LOD filter always appear; appearance, flattening, mergedown and key-value appear exactly when requested |
| Builder.PipelineHead | nusamai/src/transformer/builder.rs:121-144 | appearance appears exactly when requested; the renamer with the request's rename map and the LOD filter with the request's mask and mode always appear |
| Builder.PipelineFlattening | nusamai/src/transformer/builder.rs:146-157 | a tree-flattening step appears exactly when `Flatten` is requested, and with the requested options |
| Builder.PipelineMergedown | nusamai/src/transformer/builder.rs:159-167 | removing descendants gives the mergedown step without them, retaining gives it with them, and `NoMergedown` gives neither |
| Builder.PipelineKeyValue | nusamai/src/transformer/builder.rs:169-179 | the JSON-ify step appears exactly for `Jsonify`, the dot-notation step exactly for `DotNotation` |
| Builder.DefaultPipeline | nusamai/src/transformer/builder.rs:21-33 | the default requirements give projection, renaming with no renames, the default LOD filter, mergedown removing descendants, and JSONify |
| Projections.ProjectAllSpec | nusamai/src/transformer/transform/projection.rs:52-61 | projection succeeds exactly when every vertex projects; then vertex `k` takes the projected x and y of its (lng, lat) and keeps its height |
| Projections.TransformStoreShape | nusamai/src/transformer/transform/projection.rs:21-97 | when the transform returns, the store has the output code, the same number of vertices and the same geometries |
| Projections.TransformStorePanics | nusamai/src/transformer/transform/projection.rs:27-94 | panics exactly outside the supported pairs (JGD2011 to WGS 84, JGD2011 to a plane rectangular zone with a projection that succeeds, WGS 84 to WGS 84) |
| Projections.ToWgs84Vertices | nusamai/src/transformer/transform/projection.rs:28-38 | JGD2011 to WGS 84: vertex `k` becomes the conversion of (lng, lat, height), with latitude and longitude swapped from the stored order |
| Projections.ToJprectVertices | nusamai/src/transformer/transform/projection.rs:39-62 | JGD2011 to a zone: vertex `k` takes the projected x and y and keeps its height |
| Projections.Wgs84Unchanged | nusamai/src/transformer/transform/projection.rs:67-70 | WGS 84 to WGS 84 leaves the store as it was |
| Projections.ProjectionTransform.constructor | nusamai/src/transformer/transform/projection.rs:104-114 | stores the converter, the output code and the zone projection for that code |
| Projections.ProjectionTransform.ProjectVertices | nusamai/src/transformer/transform/projection.rs:53-60 | the vertex loop computes `ProjectAll` |
| Projections.ProjectionTransform.ConvertVertices | nusamai/src/transformer/transform/projection.rs:29-37 | the vertex loop converts each vertex, swapped, to WGS 84 |
| Projections.ProjectionTransform.Transform | nusamai/src/transformer/transform/projection.rs:21-97 | rewrites the store as `TransformStore` does and pushes the entity, or panics and pushes nothing |
| Projections.ProjectionTransform.TransformSchema | nusamai/src/transformer/transform/projection.rs:99-101 | the schema records the output code and keeps its types |
| Projections.ProjectFails | nusamai/src/transformer/transform/projection.rs:59 | one vertex that fails to project makes the whole projection fail (the `unwrap` panics) |
| MainCli.ParseKeyVal | nusamai/src/main.rs:51-56 | fails exactly when there is no `=`, with the source's message; otherwise key, `=` and value rebuild the input, and the key holds no `=` |
| MainCli.ParseKeyValUnique | nusamai/src/main.rs:51-56 | the split is at the first `=`: any key free of `=` that, with the value, rebuilds the input is the one returned |
| MainCli.ParseKeyValExamples | nusamai/src/main.rs:51-56 | `=x` has an empty key, `k=` an empty value, `a=b=c` has the value `b=c`, and `abc` is refused |
| MainCli.ValueVariants | nusamai/src/main.rs:64-72 | one choice per provider, in order, carrying its id name |
| MainCli.FirstWithId | nusamai/src/main.rs:74-93 | the first provider with the id name, absent exactly when none has it |
| MainCli.CreateSink | nusamai/src/main.rs:86-93 | returns the first provider with the chosen id name, and panics exactly when none has it |
| MainCli.VariantsAreCreatable | nusamai/src/main.rs:64-93 | every choice offered leads `create_sink` to a provider with that id name, without a panic |
| MainCli.ToPossibleValue | nusamai/src/main.rs:74-82 | the chosen provider's id name with its display name as help, absent exactly when no provider has the id |
| MainCli.BuiltinIdsDistinct | nusamai/src/lib.rs:7-20 | the built-in sinks' id names are distinct |
| MainCli.CreateBuiltinSink | nusamai/src/lib.rs:7-20 | over the built-in providers, `ply` is the ninth and `shp` matches none |
| MainCli.Args.constructor | nusamai/src/main.rs:21-49 | the parsed output path and sink options |
| MainCli.Args.InjectOutput | nusamai/src/main.rs:102-107 | appends `("@output", output)` to the sink options |
| MainCli.SinkOptions | nusamai/src/main.rs:43-44 | parsing fails exactly when some option has no `=`; otherwise the parsed options in order, then `@output` |
| Settings.Keys | app/src/lib/settings.ts:1-42 | a record's keys in declaration order |
| Settings.Lookup | app/src/lib/settings.ts:1-42 | finds an entry with the key, absent exactly when no entry has it |
| Settings.FiletypeKeys | app/src/lib/settings.ts:1-42 | exactly the ten output kinds, in order, each once |
| Settings.FiletypeLabelsAndExtensions | app/src/lib/settings.ts:1-42 | every label is non-empty and no extension starts with a dot |
| Settings.LookupAt | app/src/lib/settings.ts:1-42 | with distinct keys, looking up a key finds its entry |
| Settings.FiletypeLookup | app/src/lib/settings.ts:1-42 | every file type is what looking up its key finds |
| Settings.FiletypeExtensions | app/src/lib/settings.ts:2-41 | GeoJSON lists no extension; vector tiles, 3D Tiles, glTF and Serde list the empty extension; the others list one real extension |
| Settings.UnknownFiletype | app/src/lib/settings.ts:1-42 | a kind not among the ten has no entry |
| Settings.CrsOptionValues | app/src/lib/settings.ts:44-48 | EPSG 6678, 4326 and 3857 in that order, distinct, each with a label |
| Settings.CrsCodes | app/src/lib/settings.ts:44-48 | each value is `EPSG:` followed by a code that reads back as 6678, 4326 or 3857 |

## Left out

**Left out as I/O, concurrency, floating point or code outside the model:**

- Floating-point arithmetic is a function parameter, and the model only
  records where it is applied. This covers earcut and `project3d_to_2d`,
  the geocentric conversion, the centroid, the projection and JGD2011
  formulas, `f64 -> f32` casts, bounding boxes and `calc_center`.
- The min/max bounds of the vertex accessor in `make_gltf_json` are float
  computations and are not modelled.
- The XML reader is a sequence of resolved events. Text is carried as the
  numbers it holds, and parsing a number never fails (the source
  `unwrap`s each parse).
- `nusamai-geometry` (`iter_closed`, `iter_range`, `transform`, `push`)
  is not part of this model. Its operations are modelled from how the
  core uses them.
- `indexed_polygon_to_value`, `indexed_linestring_to_value` and
  `indexed_point_to_value` are imported from a version of
  `nusamai-geojson` that is not part of this model. They are a parameter
  of the GeoJSON sink.
- serde serialisation is a parameter: `to_attribute_json`, the glTF JSON
  text, feature bytes and bincode.
- `prepare_object_attributes`, `write_indexed_multipolygon`,
  `get_indexed_multipolygon_bbox` and `schema_to_table_infos` are
  parameters of the GeoPackage sink.
- The database engine itself is not modelled: the SQL it runs, `from_url`,
  `begin`, `commit`, `add_table`, `insert_attribute` and `update_bbox`.
  The model records the statements issued, and execution results are a
  parameter. `application_id`, `user_version` and `table_info` are only
  pragmas read back and are left out.
- Threads, channels and rayon are not modelled (`par_bridge`,
  `rayon::join`, the producer/consumer split). Each half of a sink is
  modelled sequentially over the messages it receives. Cancellation
  checks (`ensure_not_canceled`) are left out.
- Feedback and logging are left out.
- File creation and writing are left out. The model produces the bytes
  written instead.
- Image decoding and re-encoding are left out, as are `to_file_path` and
  `std::fs::read`. These are parameters of `LoadImage` and `ImageToGltf`.
- In the 3D Tiles sink, the geometry slicing and tile writing stages and
  the on-disk external sort are left out. The sort is modelled by its
  result.
- In `main.rs`, `main` beyond the option handling and `run` are left out:
  logging, globbing, the pipeline runner and the canceller.
- The transforms the builder names but does not define (appearance, field
  renaming internals, LOD filter, mergedown, key-value) are modelled as
  pipeline steps only.
- The default transform-builder `transform_schema` is left out. It only
  calls each step's own `transform_schema`, and only the flattening and
  projection steps are part of this model.
- `NusamaiTransformBuilder::new` is left out. It stores the request and a
  default converter, and `Build` takes those as arguments.
- The `Data` and `Object` flattening options are stored but not used. The
  source does not read them either.

**Members whose contract is narrower than the source:**

- Geometry.GeometryCollector.AddInteriorRing: requires a non-empty
  multipolygon. The source's `add_interior` on an empty multipolygon is
  in `nusamai-geometry`, which is not part of this model. The example
  program's `AddRing` models that case as an error status.
- Geometry.RangeValues: models `pos + len` with `u32` wrap-around (release
  builds). A debug build would panic on overflow instead.
- GltfAttributes.ToGltfPropertyTable: the buffer-view counter wraps
  modulo 2^32 as in a release build. A debug build would panic on
  overflow.
- GltfExample.LayoutMatchesBinary: stated only below 4 GiB. Above that,
  the `u32` casts and products wrap and the document no longer describes
  the buffer.
- GltfExample.PolygonCorners: requires that every index earcut returns
  names a vertex of the polygon (`3 * idx + 2 < |buf3d|`). earcut is a
  float-computing parameter here, so its guarantee is assumed rather than
  proved. Without it, `buf3d[*idx as usize * 3]`
  (nusamai-gltf/examples/geometry_to_gltf.rs:267-269) would panic.
- GltfExample.AllCorners: requires `EarcutIndicesInRange`, the same
  earcut assumption as GltfExample.PolygonCorners for every polygon.
- GltfExample.TessellateSpec: the index-leads-back property is stated
  only below 2^32 vertices, where the `as u32` cast is exact.
- PlySink.WritePly: the cancellation checks (every 10000 batches and
  before writing), file creation, write and `flush` errors, and the
  `println!` of the counts are not modelled. The centroid is computed in
  floating point, so it comes in through the `relative` parameter.
- PlySink.VerticesAndIndicesSpec: same limit as
  GltfExample.TessellateSpec.
- GltfMaterial.Extension: models `Path::extension` for paths separated
  by `/` whose names are valid UTF-8. Windows separators and prefixes are
  not modelled. Neither are non-UTF-8 names, for which `to_str` fails and
  the source refuses the image.
- CesiumTiles.SortByTile: the multi-threaded `ExternalSorter::sort_by`
  is modelled as a stable insertion sort by tile id. The source promises
  no order among features with equal ids. CesiumTiles.SortingStageSpec
  states only what is promised: the groups' ids strictly increase, and
  the groups hold the features received up to a multiset.
- CesiumTiles.GroupingExample: the order of the two id-5 features
  within their group follows from the stable sort assumed in
  CesiumTiles.SortByTile. The source does not promise it.
- Builder.ALL_LODS: `LodMask::all()` is defined in `nusamai-citygml`,
  which is not part of this model. It is taken as the CityGML levels of
  detail 0 to 4.
- GltfMaterial.EmbeddedImageView: stated only below 2^32 buffer views and
  bytes, where the casts are exact.
- GpkgHandler.InsertFeaturePlaceholders: holds only when no column name
  contains `?`. The source does not check this.
- KmlConversion.IndexedPolygonMatchesPlain: holds only over a vertex
  buffer without repeated positions.
  KmlConversion.IndexedClosesByIndex shows the difference otherwise.
- KmlConversion.IndexedMultipolygonMatchesPlain: has the same condition
  as KmlConversion.IndexedPolygonMatchesPlain.
- GltfExampleParse.ParsePolygon: the inner XML loops do not stop at `Eof`
  in the source. The model reports `NeverReturns` when the events run out
  there, instead of looping forever.
- GltfExampleParse.ParseLodGeometry: the same `Eof` behaviour as
  GltfExampleParse.ParsePolygon.
- GltfExampleParse.ParseCityObj: the same `Eof` behaviour as
  GltfExampleParse.ParsePolygon.
- MainCli.CreateBuiltinSink: the id names of the built-in providers are
  given as constants. The providers' `info()` for the sinks outside this
  model (mvt, czml, kml, shapefile, serde, noop and the experimental
  ones) is not part of it, so those names are inferred from the module
  names.

**Documented behaviour of the source rather than a narrower contract:**

- The GLB container written by `make_glb` (geometry_to_gltf.rs:302-307)
  puts the unpadded JSON length in the chunk header and pads with zero
  bytes. Section 4 of the glTF 2.0 specification requires the padded
  length and space padding. The source does this deliberately, so it is
  modelled as written. GltfExample.GlbMisreadWhenUnaligned states the
  consequence. GltfExample.ConformingGlbRoundTrip states the round trip
  of the standard layout for comparison.
