/** The GeoPackage sink: where the database goes, the record the first half
    of `run_async` makes from each entity, and the loop of the second half
    that creates each table once, inserts every record into its table and
    keeps one bounding box per table that received a feature. */
module GpkgSink {
  import opened Common
  import opened IndexMaps
  import G = Geometry
  import C = CityObjects

  // ---------------------------------------------------------------------
  // The output path

  /** The URL the handler opens for the output path, and whether an existing
      file at that path is deleted first (`fileExists` is what the file system
      reports). A path that is already a `sqlite:` URL is used as it is and
      never cleared; any other path is prefixed with `sqlite://`. */
  function DatabaseTarget(path: string, fileExists: bool): (r: (string, bool))
    ensures StartsWith(r.0, "sqlite:")
    ensures r.0 == path <==> StartsWith(path, "sqlite:")
    ensures !StartsWith(path, "sqlite:") ==> |r.0| == |path| + 9 && r.0[9..] == path
    ensures r.1 <==> fileExists && !StartsWith(path, "sqlite:")
  {
    if StartsWith(path, "sqlite:") then (path, false)
    else
      var url := "sqlite://" + path;
      assert url[..7] == "sqlite:";
      (url, fileExists)
  }

  // ---------------------------------------------------------------------
  // The first half: one record per entity

  /** `Record`: a row of a feature table, with the encoded geometry and its
      bounding box, or a row of a table of data objects. */
  datatype Record<B> =
    | FeatureRecord(objId: string, geometry: seq<byte>, bbox: B, attributes: seq<Entry<string>>)
    | AttributeRecord(attributes: seq<Entry<string>>)

  /** What the first half calls into and this model does not look inside:
      `write_indexed_multipolygon` (with code 4326, its error ignored),
      `get_indexed_multipolygon_bbox` and `prepare_object_attributes`. */
  datatype Encoders<B> = Encoders(
    geometry: (seq<G.Coord3>, seq<G.Polygon<u32>>) -> seq<byte>,
    bbox: (seq<G.Coord3>, seq<G.Polygon<u32>>) -> B,
    attributes: C.Obj -> seq<Entry<string>>)

  function Keep(p: G.Polygon<u32>): Option<G.Polygon<u32>> {
    Some(p)
  }

  /** The indexed polygons one geometry entry pushes onto the multipolygon:
      solids, surfaces and triangles their range of the store (a range the
      store does not hold panics), curves and points panic
      (`unimplemented!`), entries of unknown type push nothing. */
  function EntryPolygons(store: G.GeometryStore, e: G.GeometryRefEntry): (r: Outcome<seq<G.Polygon<u32>>>)
    ensures (e.ty.Curve? || e.ty.Point?) ==> r.Panics?
    ensures e.ty.Unknown? ==> r == Returns([])
    ensures (e.ty.Solid? || e.ty.Surface? || e.ty.Triangle?) ==>
      (r.Returns? <==> e.pos as nat <= G.RangeEnd(e.pos, e.len) <= |store.multipolygon|)
    ensures (e.ty.Solid? || e.ty.Surface? || e.ty.Triangle?) && r.Returns? ==>
      r.value == store.multipolygon[e.pos..G.RangeEnd(e.pos, e.len)]
  {
    match e.ty
    case Solid | Surface | Triangle =>
      var r := G.RangeValues(store.multipolygon, e.pos, e.len, Keep);
      assert r.Returns? ==> r.value == store.multipolygon[e.pos..G.RangeEnd(e.pos, e.len)];
      r
    case Curve | Point => Panics
    case Unknown => Returns([])
  }

  /** The multipolygon a feature's entries build, in entry order. */
  function AllPolygons(store: G.GeometryStore, entries: seq<G.GeometryRefEntry>): Outcome<seq<G.Polygon<u32>>>
  {
    if entries == [] then Returns([])
    else match AllPolygons(store, entries[..|entries| - 1])
      case Panics => Panics
      case Returns(ps) =>
        match EntryPolygons(store, entries[|entries| - 1])
        case Panics => Panics
        case Returns(more) => Returns(ps + more)
  }

  /** Building the multipolygon panics exactly when one of the entries does;
      otherwise it is empty exactly when every entry contributes nothing. */
  lemma {:induction false} AllPolygonsSpec(store: G.GeometryStore, entries: seq<G.GeometryRefEntry>)
    ensures AllPolygons(store, entries).Panics? <==>
      exists k :: 0 <= k < |entries| && EntryPolygons(store, entries[k]).Panics?
    ensures AllPolygons(store, entries) == Returns([]) <==>
      forall k :: 0 <= k < |entries| ==> EntryPolygons(store, entries[k]) == Returns([])
  {
    if entries != [] {
      var n := |entries|;
      var init := entries[..n - 1];
      AllPolygonsSpec(store, init);
      assert forall k :: 0 <= k < n - 1 ==> init[k] == entries[k];
      if AllPolygons(store, init).Returns? && EntryPolygons(store, entries[n - 1]).Returns? {
        var ps := AllPolygons(store, init).value;
        var more := EntryPolygons(store, entries[n - 1]).value;
        assert ps + more == [] <==> ps == [] && more == [];
      }
    }
  }

  /** The loop over a feature's geometry entries. */
  method CollectPolygons(store: G.GeometryStore, entries: seq<G.GeometryRefEntry>)
    returns (r: Outcome<seq<G.Polygon<u32>>>)
    ensures r == AllPolygons(store, entries)
  {
    var mpoly: seq<G.Polygon<u32>> := [];
    var i := 0;
    while i < |entries|
      invariant 0 <= i <= |entries|
      invariant AllPolygons(store, entries[..i]) == Returns(mpoly)
    {
      assert entries[..i + 1][..i] == entries[..i];
      var more := EntryPolygons(store, entries[i]);
      if more.Panics? {
        PanicsPersist(store, entries, i + 1);
        return Panics;
      }
      mpoly := mpoly + more.value;
      i := i + 1;
    }
    assert entries[..|entries|] == entries;
    return Returns(mpoly);
  }

  /** Once a prefix of the entries panics, the whole list does. */
  lemma {:induction false} PanicsPersist(store: G.GeometryStore, entries: seq<G.GeometryRefEntry>, i: nat)
    requires i <= |entries| && AllPolygons(store, entries[..i]).Panics?
    ensures AllPolygons(store, entries).Panics?
  {
    if i < |entries| {
      var n := |entries|;
      assert entries[..n][..i] == entries[..i];
      PanicsPersist(store, entries[..n - 1], i) by {
        assert entries[..n - 1][..i] == entries[..i];
      }
    } else {
      assert entries[..i] == entries;
    }
  }

  /** What the first half sends for one entity: nothing for a root that is
      not an object, for a plain object and for a feature without polygons;
      a feature record into the table named after the typename; an attribute
      record for a data object. */
  function EntityRecord<B>(entity: C.Entity, enc: Encoders<B>): Outcome<Option<(string, Record<B>)>>
  {
    if !entity.root.Object? then Returns(None)
    else
      var obj := entity.root.obj;
      match obj.stereotype
      case Feature(id, geometries) =>
        (match AllPolygons(entity.geometryStore, geometries)
         case Panics => Panics
         case Returns(mpoly) =>
           if mpoly == [] then Returns(None)
           else
             var vs := entity.geometryStore.vertices;
             Returns(Some((obj.typename,
                           FeatureRecord(id, enc.geometry(vs, mpoly), enc.bbox(vs, mpoly), enc.attributes(obj))))))
      case Data => Returns(Some((obj.typename, AttributeRecord(enc.attributes(obj)))))
      case Object(_) => Returns(None)
  }

  /** The cases of the first half: a record goes to the object's own table,
      a feature record exactly when the object is a feature, and it carries
      the feature's id; a feature panics exactly when one of its entries
      does, and sends nothing exactly when none of its entries has a
      polygon; plain objects and non-object roots send nothing. */
  lemma {:induction false} EntityRecordSpec<B>(entity: C.Entity, enc: Encoders<B>)
    ensures var r := EntityRecord(entity, enc);
      (!entity.root.Object? || entity.root.obj.stereotype.Object? ==> r == Returns(None)) &&
      (r.Returns? && r.value.Some? ==>
        entity.root.Object? && r.value.value.0 == entity.root.obj.typename &&
        (r.value.value.1.FeatureRecord? <==> entity.root.obj.stereotype.Feature?) &&
        (r.value.value.1.FeatureRecord? ==> r.value.value.1.objId == entity.root.obj.stereotype.id) &&
        r.value.value.1.attributes == enc.attributes(entity.root.obj))
    ensures entity.root.Object? && entity.root.obj.stereotype.Data? ==> EntityRecord(entity, enc).Returns?
    ensures entity.root.Object? && entity.root.obj.stereotype.Feature? ==>
      var store, entries := entity.geometryStore, entity.root.obj.stereotype.geometries;
      (EntityRecord(entity, enc).Panics? <==>
        exists k :: 0 <= k < |entries| && EntryPolygons(store, entries[k]).Panics?) &&
      (EntityRecord(entity, enc) == Returns(None) <==>
        forall k :: 0 <= k < |entries| ==> EntryPolygons(store, entries[k]) == Returns([]))
  {
    if entity.root.Object? && entity.root.obj.stereotype.Feature? {
      AllPolygonsSpec(entity.geometryStore, entity.root.obj.stereotype.geometries);
    }
  }

  // ---------------------------------------------------------------------
  // The second half: the receive loop

  /** The statements the second half issues inside its transaction. */
  datatype TxOp<B> =
    | AddTable(table: string)
    | InsertFeature(table: string, objId: string, geometry: seq<byte>, attributes: seq<Entry<string>>)
    | InsertAttribute(table: string, attributes: seq<Entry<string>>)
    | UpdateBbox(table: string, bbox: B)
    | Commit

  /** `Bbox::default()` and `Bbox::merge`, taken as given. */
  datatype BboxOps<!B> = BboxOps(default: B, merge: (B, B) -> B)

  /** `created_tables`, `table_bboxes` and the statements issued so far. */
  datatype SinkState<B> = SinkState(created: set<string>, bboxes: seq<Entry<B>>, ops: seq<TxOp<B>>)

  /** The insert statement for one received record. */
  function InsertOp<B>(msg: (string, Record<B>)): (r: TxOp<B>)
    ensures r.InsertFeature? <==> msg.1.FeatureRecord?
    ensures (r.InsertFeature? || r.InsertAttribute?) && r.table == msg.0 && r.attributes == msg.1.attributes
    ensures r.InsertFeature? ==> r.objId == msg.1.objId && r.geometry == msg.1.geometry
  {
    match msg.1
    case FeatureRecord(id, geometry, _, attributes) => InsertFeature(msg.0, id, geometry, attributes)
    case AttributeRecord(attributes) => InsertAttribute(msg.0, attributes)
  }

  function BboxOrDefault<B>(b: Option<B>, bb: BboxOps<B>): B {
    if b.Some? then b.value else bb.default
  }

  /** One received record: its table is added first if it has not been (the
      table must be one the schema defines, or `unwrap` panics), the record
      is inserted, and a feature's bounding box is merged into its table's. */
  function Step<B>(s: SinkState<B>, msg: (string, Record<B>), tables: set<string>, bb: BboxOps<B>)
    : Outcome<SinkState<B>>
  {
    var name := msg.0;
    if name !in s.created && name !in tables then Panics
    else Returns(SinkState(s.created + {name}, StepBboxes(s.bboxes, msg, bb), StepOps(s.ops, s.created, msg)))
  }

  /** The statements one record issues: the table's creation the first time
      it is named, then the insert. */
  function StepOps<B>(ops: seq<TxOp<B>>, created: set<string>, msg: (string, Record<B>)): seq<TxOp<B>> {
    ops + (if msg.0 in created then [] else [AddTable(msg.0)]) + [InsertOp(msg)]
  }

  /** A feature's bounding box merged into its table's. */
  function StepBboxes<B>(bboxes: seq<Entry<B>>, msg: (string, Record<B>), bb: BboxOps<B>): seq<Entry<B>> {
    if msg.1.FeatureRecord? then Insert(bboxes, msg.0, bb.merge(BboxOrDefault(Get(bboxes, msg.0), bb), msg.1.bbox))
    else bboxes
  }

  /** The state after receiving `msgs` in order. */
  function Consume<B>(msgs: seq<(string, Record<B>)>, tables: set<string>, bb: BboxOps<B>): Outcome<SinkState<B>>
  {
    if msgs == [] then Returns(SinkState({}, [], []))
    else match Consume(msgs[..|msgs| - 1], tables, bb)
      case Panics => Panics
      case Returns(s) => Step(s, msgs[|msgs| - 1], tables, bb)
  }

  /** The statements after the loop: one `update_bbox` per entry of
      `table_bboxes`, in its order, then the commit. */
  function UpdateOps<B>(m: seq<Entry<B>>): (r: seq<TxOp<B>>)
    ensures |r| == |m|
    ensures forall k :: 0 <= k < |m| ==> r[k] == UpdateBbox(m[k].key, m[k].value)
  {
    seq(|m|, k requires 0 <= k < |m| => UpdateBbox(m[k].key, m[k].value))
  }

  function FinalOps<B>(s: SinkState<B>): seq<TxOp<B>> {
    s.ops + UpdateOps(s.bboxes) + [Commit]
  }

  /** The tables records were sent to. */
  function TablesOf<B>(msgs: seq<(string, Record<B>)>): set<string> {
    set k | 0 <= k < |msgs| :: msgs[k].0
  }

  /** The insert statements among `ops`, in order. */
  function Inserts<B>(ops: seq<TxOp<B>>): seq<TxOp<B>> {
    if ops == [] then []
    else
      var last := ops[|ops| - 1];
      Inserts(ops[..|ops| - 1]) + (if last.InsertFeature? || last.InsertAttribute? then [last] else [])
  }

  lemma {:induction false} InsertsAppend<B>(ops: seq<TxOp<B>>, op: TxOp<B>)
    ensures Inserts(ops + [op]) == Inserts(ops) + (if op.InsertFeature? || op.InsertAttribute? then [op] else [])
  {
    assert (ops + [op])[..|ops|] == ops;
  }

  /** A table is added at most once. */
  ghost predicate TablesAddedOnce<B>(ops: seq<TxOp<B>>) {
    forall i, j :: 0 <= i < j < |ops| && ops[i].AddTable? && ops[j].AddTable? ==> ops[i].table != ops[j].table
  }

  /** Every insert comes after the statement that adds its table. */
  ghost predicate CreatedBeforeInsert<B>(ops: seq<TxOp<B>>) {
    forall j :: 0 <= j < |ops| && (ops[j].InsertFeature? || ops[j].InsertAttribute?) ==>
      exists i :: 0 <= i < j && ops[i].AddTable? && ops[i].table == ops[j].table
  }

  /** What the loop keeps true: the created tables are those records went
      to, each added by exactly one statement issued before any insert into
      it. */
  ghost predicate TablesInvariant<B>(s: SinkState<B>, msgs: seq<(string, Record<B>)>) {
    s.created == TablesOf(msgs) &&
    (forall i :: 0 <= i < |s.ops| && s.ops[i].AddTable? ==> s.ops[i].table in s.created) &&
    (forall t :: t in s.created ==> exists i :: 0 <= i < |s.ops| && s.ops[i].AddTable? && s.ops[i].table == t) &&
    TablesAddedOnce(s.ops) && CreatedBeforeInsert(s.ops)
  }

  lemma {:induction false} TablesOfSnoc<B>(msgs: seq<(string, Record<B>)>, msg: (string, Record<B>))
    ensures TablesOf(msgs + [msg]) == TablesOf(msgs) + {msg.0}
  {
    forall t | t in TablesOf(msgs + [msg]) ensures t in TablesOf(msgs) + {msg.0} {
      var k :| 0 <= k < |msgs| + 1 && (msgs + [msg])[k].0 == t;
      if k < |msgs| {
        assert msgs[k].0 == t;
      }
    }
    forall t | t in TablesOf(msgs) ensures t in TablesOf(msgs + [msg]) {
      var k :| 0 <= k < |msgs| && msgs[k].0 == t;
      assert (msgs + [msg])[k].0 == t;
    }
    assert (msgs + [msg])[|msgs|].0 == msg.0;
  }

  lemma {:induction false} StepKeepsTables<B>(s: SinkState<B>, msgs: seq<(string, Record<B>)>, tables: set<string>, bb: BboxOps<B>)
    requires msgs != [] && TablesInvariant(s, msgs[..|msgs| - 1]) && Step(s, msgs[|msgs| - 1], tables, bb).Returns?
    ensures TablesInvariant(Step(s, msgs[|msgs| - 1], tables, bb).value, msgs)
  {
    var n := |msgs|;
    assert msgs == msgs[..n - 1] + [msgs[n - 1]];
    TablesOfSnoc(msgs[..n - 1], msgs[n - 1]);
    StepOpsKeepTables(s.ops, s.created, msgs[n - 1]);
  }

  lemma {:induction false} StepOpsKeepTables<B>(ops: seq<TxOp<B>>, created: set<string>, msg: (string, Record<B>))
    requires forall i :: 0 <= i < |ops| && ops[i].AddTable? ==> ops[i].table in created
    requires forall t :: t in created ==> exists i :: 0 <= i < |ops| && ops[i].AddTable? && ops[i].table == t
    requires TablesAddedOnce(ops) && CreatedBeforeInsert(ops)
    ensures var ops' := StepOps(ops, created, msg);
      var created' := created + {msg.0};
      (forall i :: 0 <= i < |ops'| && ops'[i].AddTable? ==> ops'[i].table in created') &&
      (forall t :: t in created' ==> exists i :: 0 <= i < |ops'| && ops'[i].AddTable? && ops'[i].table == t) &&
      TablesAddedOnce(ops') && CreatedBeforeInsert(ops')
  {
    var ops' := StepOps(ops, created, msg);
    var name := msg.0;
    var n := |ops|;
    assert forall i :: 0 <= i < n ==> ops'[i] == ops[i];
    if name in created {
      assert ops' == ops + [InsertOp(msg)];
      var i :| 0 <= i < n && ops[i].AddTable? && ops[i].table == name;
      assert ops'[i].AddTable? && ops'[i].table == ops'[n].table;
    } else {
      assert ops' == ops + [AddTable(name), InsertOp(msg)];
      assert ops'[n] == AddTable(name);
      assert ops'[n + 1].table == name;
    }
  }

  /** The tables the loop creates are exactly those records were sent to;
      each is added by one statement, before the first insert into it. */
  lemma {:induction false} ConsumeTables<B>(msgs: seq<(string, Record<B>)>, tables: set<string>, bb: BboxOps<B>)
    requires Consume(msgs, tables, bb).Returns?
    ensures TablesInvariant(Consume(msgs, tables, bb).value, msgs)
  {
    if msgs == [] {
      assert TablesOf(msgs) == {};
    } else {
      var n := |msgs|;
      ConsumeLast(msgs, tables, bb);
      ConsumeTables(msgs[..n - 1], tables, bb);
      StepKeepsTables(Consume(msgs[..n - 1], tables, bb).value, msgs, tables, bb);
    }
  }

  /** Every record is inserted once, into its own table, in the order
      received, with the same id, geometry and attributes. */
  lemma {:induction false} ConsumeInserts<B>(msgs: seq<(string, Record<B>)>, tables: set<string>, bb: BboxOps<B>)
    requires Consume(msgs, tables, bb).Returns?
    ensures Inserts(Consume(msgs, tables, bb).value.ops) == MapSeq(msgs, InsertOp)
  {
    if msgs != [] {
      var n := |msgs|;
      var init, msg := msgs[..n - 1], msgs[n - 1];
      ConsumeLast(msgs, tables, bb);
      ConsumeInserts(init, tables, bb);
      StepInserts(Consume(init, tables, bb).value, msg, tables, bb);
      MapSeqLast(msgs, InsertOp);
    }
  }

  /** A loop that returns has returned on all records but the last. */
  lemma {:induction false} ConsumeLast<B>(msgs: seq<(string, Record<B>)>, tables: set<string>, bb: BboxOps<B>)
    requires msgs != [] && Consume(msgs, tables, bb).Returns?
    ensures var c := Consume(msgs[..|msgs| - 1], tables, bb);
      c.Returns? && Consume(msgs, tables, bb) == Step(c.value, msgs[|msgs| - 1], tables, bb)
  {
  }

  /** One step adds exactly the record's insert statement to the inserts. */
  lemma {:induction false} StepInserts<B>(s: SinkState<B>, msg: (string, Record<B>), tables: set<string>, bb: BboxOps<B>)
    requires Step(s, msg, tables, bb).Returns?
    ensures Inserts(Step(s, msg, tables, bb).value.ops) == Inserts(s.ops) + [InsertOp(msg)]
  {
    StepOpsInserts(s.ops, s.created, msg);
  }

  lemma {:induction false} StepOpsInserts<B>(ops: seq<TxOp<B>>, created: set<string>, msg: (string, Record<B>))
    ensures Inserts(StepOps(ops, created, msg)) == Inserts(ops) + [InsertOp(msg)]
  {
    var op := InsertOp(msg);
    if msg.0 in created {
      assert StepOps(ops, created, msg) == ops + [op];
    } else {
      assert StepOps(ops, created, msg) == (ops + [AddTable(msg.0)]) + [op];
      InsertsAppend(ops, AddTable(msg.0));
      InsertsAppend(ops + [AddTable(msg.0)], op);
      return;
    }
    InsertsAppend(ops, op);
  }

  /** The loop panics exactly when some record names a table the schema does
      not define. */
  lemma {:induction false} ConsumePanics<B>(msgs: seq<(string, Record<B>)>, tables: set<string>, bb: BboxOps<B>)
    ensures Consume(msgs, tables, bb).Panics? <==> exists k :: 0 <= k < |msgs| && msgs[k].0 !in tables
    ensures Consume(msgs, tables, bb).Returns? ==> Consume(msgs, tables, bb).value.created <= tables
  {
    if msgs != [] {
      var n := |msgs|;
      var init := msgs[..n - 1];
      ConsumePanics(init, tables, bb);
      assert forall k :: 0 <= k < n - 1 ==> init[k] == msgs[k];
      if Consume(init, tables, bb).Returns? {
        ConsumeTables(init, tables, bb);
      }
    }
  }

  /** The bounding box the loop holds for table `t` after `msgs`: none
      before the first feature record for `t`, then the default merged with
      each of the feature records' boxes in turn. Attribute records do not
      count. */
  function MergedBbox<B>(msgs: seq<(string, Record<B>)>, t: string, bb: BboxOps<B>): Option<B> {
    if msgs == [] then None
    else
      var prev := MergedBbox(msgs[..|msgs| - 1], t, bb);
      var last := msgs[|msgs| - 1];
      if last.0 == t && last.1.FeatureRecord? then Some(bb.merge(BboxOrDefault(prev, bb), last.1.bbox))
      else prev
  }

  /** A table has a merged box exactly when some feature record went to it. */
  lemma {:induction false} MergedBboxPresent<B>(msgs: seq<(string, Record<B>)>, t: string, bb: BboxOps<B>)
    ensures MergedBbox(msgs, t, bb).Some? <==>
      exists k :: 0 <= k < |msgs| && msgs[k].0 == t && msgs[k].1.FeatureRecord?
  {
    if msgs != [] {
      var n := |msgs|;
      MergedBboxPresent(msgs[..n - 1], t, bb);
      assert forall k :: 0 <= k < n - 1 ==> msgs[..n - 1][k] == msgs[k];
    }
  }

  /** `table_bboxes` after the loop holds each table's merged box, under
      distinct keys. */
  lemma {:induction false} ConsumeBboxes<B>(msgs: seq<(string, Record<B>)>, tables: set<string>, bb: BboxOps<B>)
    requires Consume(msgs, tables, bb).Returns?
    ensures UniqueKeys(Consume(msgs, tables, bb).value.bboxes)
    ensures forall t :: Get(Consume(msgs, tables, bb).value.bboxes, t) == MergedBbox(msgs, t, bb)
  {
    if msgs != [] {
      var n := |msgs|;
      var s := Consume(msgs[..n - 1], tables, bb).value;
      ConsumeBboxes(msgs[..n - 1], tables, bb);
      var last := msgs[n - 1];
      if last.1.FeatureRecord? {
        InsertSpec(s.bboxes, last.0, bb.merge(BboxOrDefault(Get(s.bboxes, last.0), bb), last.1.bbox));
      }
    }
  }

  /** Over a map with distinct keys, the `update_bbox` statements name each
      key once, with the value the map holds for it. */
  lemma {:induction false} UpdateOpsSpec<B>(m: seq<Entry<B>>, t: string)
    requires UniqueKeys(m)
    ensures var ups := UpdateOps(m);
      ((exists k :: 0 <= k < |ups| && ups[k].table == t) <==> Get(m, t).Some?) &&
      (forall i, j :: 0 <= i < j < |ups| ==> ups[i].table != ups[j].table) &&
      (forall k :: 0 <= k < |ups| && ups[k].table == t ==> Some(ups[k].bbox) == Get(m, t))
  {
    var ups := UpdateOps(m);
    if Get(m, t).Some? {
      var i := FindKey(m, t).value;
      assert ups[i].table == t;
    }
    forall k | 0 <= k < |ups| && ups[k].table == t
      ensures Some(ups[k].bbox) == Get(m, t)
    {
      assert m[k].key == t;
      var i := FindKey(m, t).value;
      assert i <= k;
    }
  }

  /** After the loop, `update_bbox` is issued once for each table that
      received a feature record and for no other, with that table's merged
      box; those statements follow every insert and the commit comes last. */
  lemma {:induction false} FinishUpdates<B>(msgs: seq<(string, Record<B>)>, tables: set<string>, bb: BboxOps<B>, t: string)
    requires Consume(msgs, tables, bb).Returns?
    ensures var s := Consume(msgs, tables, bb).value;
      var ups := UpdateOps(s.bboxes);
      FinalOps(s) == s.ops + ups + [Commit] &&
      ((exists k :: 0 <= k < |ups| && ups[k].table == t) <==>
        exists k :: 0 <= k < |msgs| && msgs[k].0 == t && msgs[k].1.FeatureRecord?) &&
      (forall i, j :: 0 <= i < j < |ups| ==> ups[i].table != ups[j].table) &&
      (forall k :: 0 <= k < |ups| && ups[k].table == t ==> Some(ups[k].bbox) == MergedBbox(msgs, t, bb))
  {
    var s := Consume(msgs, tables, bb).value;
    ConsumeBboxes(msgs, tables, bb);
    MergedBboxPresent(msgs, t, bb);
    UpdateOpsSpec(s.bboxes, t);
  }

  /** The second half of `run_async`, with the receive loop and the loop over
      `table_bboxes`: the statements issued, or a panic. */
  class GpkgWriter<B> {
    var createdTables: set<string>
    var tableBboxes: seq<Entry<B>>
    var ops: seq<TxOp<B>>

    constructor ()
      ensures createdTables == {} && tableBboxes == [] && ops == []
    {
      createdTables := {};
      tableBboxes := [];
      ops := [];
    }

    function State(): SinkState<B>
      reads this
    {
      SinkState(createdTables, tableBboxes, ops)
    }

    /** One iteration of the receive loop. */
    method Receive(name: string, record: Record<B>, tables: set<string>, bb: BboxOps<B>) returns (panicked: bool)
      modifies this
      ensures panicked <==> Step(old(State()), (name, record), tables, bb).Panics?
      ensures !panicked ==> State() == Step(old(State()), (name, record), tables, bb).value
    {
      if name !in createdTables {
        if name !in tables {
          return true;
        }
        ops := ops + [AddTable(name)];
        createdTables := createdTables + {name};
      }
      match record {
        case FeatureRecord(id, geometry, bbox, attributes) =>
          ops := ops + [InsertFeature(name, id, geometry, attributes)];
          var current := BboxOrDefault(Get(tableBboxes, name), bb);
          tableBboxes := Insert(tableBboxes, name, bb.merge(current, bbox));
        case AttributeRecord(attributes) =>
          ops := ops + [InsertAttribute(name, attributes)];
      }
      return false;
    }

    /** The loop over `table_bboxes`, then the commit. */
    method UpdateBboxesAndCommit()
      modifies this
      ensures ops == old(FinalOps(State()))
      ensures createdTables == old(createdTables) && tableBboxes == old(tableBboxes)
    {
      var i := 0;
      while i < |tableBboxes|
        invariant 0 <= i <= |tableBboxes|
        invariant createdTables == old(createdTables) && tableBboxes == old(tableBboxes)
        invariant ops == old(ops) + UpdateOps(tableBboxes[..i])
      {
        assert UpdateOps(tableBboxes[..i + 1]) == UpdateOps(tableBboxes[..i]) + [UpdateBbox(tableBboxes[i].key, tableBboxes[i].value)];
        ops := ops + [UpdateBbox(tableBboxes[i].key, tableBboxes[i].value)];
        i := i + 1;
      }
      assert tableBboxes[..i] == tableBboxes;
      ops := ops + [Commit];
    }
  }

  /** The whole second half over the records received. */
  method WriteAll<B>(msgs: seq<(string, Record<B>)>, tables: set<string>, bb: BboxOps<B>)
    returns (r: Outcome<seq<TxOp<B>>>)
    ensures Consume(msgs, tables, bb).Panics? ==> r == Panics
    ensures Consume(msgs, tables, bb).Returns? ==> r == Returns(FinalOps(Consume(msgs, tables, bb).value))
  {
    var w := new GpkgWriter<B>();
    var i := 0;
    while i < |msgs|
      invariant 0 <= i <= |msgs|
      invariant Consume(msgs[..i], tables, bb) == Returns(w.State())
    {
      assert msgs[..i + 1][..i] == msgs[..i];
      var panicked := w.Receive(msgs[i].0, msgs[i].1, tables, bb);
      if panicked {
        ConsumePanicsPersist(msgs, tables, bb, i + 1);
        return Panics;
      }
      i := i + 1;
    }
    assert msgs[..|msgs|] == msgs;
    w.UpdateBboxesAndCommit();
    return Returns(w.ops);
  }

  /** Once a prefix of the records panics, the whole sequence does. */
  lemma {:induction false} ConsumePanicsPersist<B>(msgs: seq<(string, Record<B>)>, tables: set<string>,
                                                   bb: BboxOps<B>, i: nat)
    requires i <= |msgs| && Consume(msgs[..i], tables, bb).Panics?
    ensures Consume(msgs, tables, bb).Panics?
  {
    if i < |msgs| {
      var n := |msgs|;
      ConsumePanicsPersist(msgs[..n - 1], tables, bb, i) by {
        assert msgs[..n - 1][..i] == msgs[..i];
      }
    } else {
      assert msgs[..i] == msgs;
    }
  }

  /** What `run_async` returns once the transaction is committed: the first
      half's success or cancellation is success, any other error is passed
      on. */
  function RunResult(producers: Result<(), PipelineError>): (r: Result<(), PipelineError>)
    ensures r.Ok? <==> producers.Ok? || producers == Err(Canceled)
    ensures r.Err? ==> r == producers
  {
    match producers
    case Ok(_) => Ok(())
    case Err(Canceled) => Ok(())
    case Err(e) => Err(e)
  }
}
