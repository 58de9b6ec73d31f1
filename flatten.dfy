/** The attribute-tree flattening transformer: features selected by the
    feature-flattening option are cut out of their parent's attribute tree
    and emitted as entities of their own, with a back reference to the
    parent; arrays that end up empty disappear. */
module Flatten {
  import opened Common
  import opened IndexMaps
  import opened Geometry
  import opened CityObjects
  import S = Schemas

  /** Flattening option for the "feature" stereotype. */
  datatype FeatureFlatteningOption = NoFeatures | AllExceptThematicSurfaces | AllFeatures

  /** Flattening option for the "data" stereotype (stored, not yet used). */
  datatype DataFlatteningOption = NoData | TopLevelOnly | AllData

  /** Flattening option for the "object" stereotype (stored, not yet used). */
  datatype ObjectFlatteningOption = NoObjects | AllObjects

  /** Typenames that name thematic surfaces and openings, which the
      `AllExceptThematicSurfaces` option keeps inside their parent. */
  predicate IsThematicSurfaceName(typename: string) {
    EndsWith(typename, "Surface") || EndsWith(typename, ":Window") ||
    EndsWith(typename, ":Door") || EndsWith(typename, "TrafficArea")
  }

  /** `is_split_target`: whether `obj` becomes an entity of its own. */
  function IsSplitTarget(option: FeatureFlatteningOption, obj: Obj): (r: bool)
    ensures !obj.stereotype.Feature? ==> !r
    ensures option.NoFeatures? ==> !r
    ensures option.AllFeatures? ==> (r <==> obj.stereotype.Feature?)
    ensures option.AllExceptThematicSurfaces? ==>
      (r <==> obj.stereotype.Feature? && !IsThematicSurfaceName(obj.typename))
  {
    if obj.stereotype.Feature? then
      match option
      case NoFeatures => false
      case AllFeatures => true
      case AllExceptThematicSurfaces =>
        !EndsWith(obj.typename, "Surface") && !EndsWith(obj.typename, ":Window") &&
        !EndsWith(obj.typename, ":Door") && !EndsWith(obj.typename, "TrafficArea")
    else false
  }

  /** Concrete typenames under `AllExceptThematicSurfaces`: surfaces,
      windows, doors and traffic areas stay inside their parent. */
  lemma {:induction false} ThematicSurfaceExamples(id: string)
    ensures var f := Feature(id, []);
      !IsSplitTarget(AllExceptThematicSurfaces, Obj("bldg:WallSurface", [], f)) &&
      !IsSplitTarget(AllExceptThematicSurfaces, Obj("bldg:Window", [], f)) &&
      !IsSplitTarget(AllExceptThematicSurfaces, Obj("bldg:Door", [], f)) &&
      !IsSplitTarget(AllExceptThematicSurfaces, Obj("tran:TrafficArea", [], f)) &&
      !IsSplitTarget(AllExceptThematicSurfaces, Obj("tran:AuxiliaryTrafficArea", [], f))
  {
    assert "bldg:WallSurface"[16 - 7..] == "Surface";
    assert "bldg:Window"[11 - 7..] == ":Window";
    assert "bldg:Door"[9 - 5..] == ":Door";
    assert "tran:TrafficArea"[16 - 11..] == "TrafficArea";
    assert "tran:AuxiliaryTrafficArea"[25 - 11..] == "TrafficArea";
  }

  /** Buildings are split out under `AllExceptThematicSurfaces`; the suffix
      test is case-sensitive and needs the colon, so a lower-case `surface`
      or a bare `Door` is split out too. */
  lemma {:induction false} SplitTargetExamples(id: string)
    ensures var f := Feature(id, []);
      IsSplitTarget(AllExceptThematicSurfaces, Obj("bldg:Building", [], f)) &&
      IsSplitTarget(AllExceptThematicSurfaces, Obj("bldg:surface", [], f)) &&
      IsSplitTarget(AllExceptThematicSurfaces, Obj("Door", [], f))
  {
    assert "bldg:Building"[13 - 7..] == "uilding";
    assert "bldg:surface"[12 - 7..] == "surface";
  }

  /** The id and typename of the object whose attributes are being flattened. */
  datatype Parent = Parent(id: string, typename: string)

  /** The parent handed to an object's attributes: the object itself when its
      stereotype has an id. */
  function NewParent(obj: Obj): (r: Option<Parent>)
    ensures r.Some? <==> !obj.stereotype.Data?
    ensures r.Some? ==> r.value == Parent(obj.stereotype.id, obj.typename)
  {
    match StereotypeId(obj.stereotype)
    case Some(id) => Some(Parent(id, obj.typename))
    case None => None
  }

  /** The attributes of a split feature: `parentId` and `parentType` are
      added when there is a parent. */
  function WithParent(attrs: seq<Entry<Value>>, parent: Option<Parent>): seq<Entry<Value>> {
    match parent
    case Some(p) => Insert(Insert(attrs, "parentId", Value.String(p.id)), "parentType", Value.String(p.typename))
    case None => attrs
  }

  /** `flatten_feature` as a function: the value left in place (None when it
      was removed) and the roots pushed to `out`, in push order. */
  function FlattenValue(option: FeatureFlatteningOption, v: Value, parent: Option<Parent>): (Option<Value>, seq<Value>)
    decreases v
  {
    match v
    case Object(obj) =>
      var (attrs, pushed) := FlattenAttrs(option, obj.attributes, NewParent(obj));
      var o := Obj(obj.typename, attrs, obj.stereotype);
      if IsSplitTarget(option, o) then
        (None, pushed + [Value.Object(Obj(obj.typename, WithParent(attrs, parent), obj.stereotype))])
      else (Some(Value.Object(o)), pushed)
    case Array(items) =>
      var (kept, pushed) := FlattenItems(option, items, parent);
      if kept == [] then (None, pushed) else (Some(Value.Array(kept)), pushed)
    case _ => (Some(v), [])
  }

  /** The attribute loop: each value is flattened in order and re-inserted
      under its key unless it was removed. */
  function FlattenAttrs(option: FeatureFlatteningOption, attrs: seq<Entry<Value>>, parent: Option<Parent>)
    : (seq<Entry<Value>>, seq<Value>)
    decreases attrs
  {
    if attrs == [] then ([], [])
    else
      var (m, pushed) := FlattenAttrs(option, attrs[..|attrs| - 1], parent);
      var e := attrs[|attrs| - 1];
      var (r, more) := FlattenValue(option, e.value, parent);
      (if r.Some? then Insert(m, e.key, r.value) else m, pushed + more)
  }

  /** The array loop: each element is flattened in order and kept unless it
      was removed. */
  function FlattenItems(option: FeatureFlatteningOption, items: seq<Value>, parent: Option<Parent>)
    : (seq<Value>, seq<Value>)
    decreases items
  {
    if items == [] then ([], [])
    else
      var (kept, pushed) := FlattenItems(option, items[..|items| - 1], parent);
      var (r, more) := FlattenValue(option, items[|items| - 1], parent);
      (if r.Some? then kept + [r.value] else kept, pushed + more)
  }

  // ---------------------------------------------------------------------
  // What flattening guarantees

  /** A flattened tree: no split target left anywhere and no empty array. */
  ghost predicate Flat(option: FeatureFlatteningOption, v: Value)
    decreases v
  {
    match v
    case Array(items) => |items| > 0 && forall i :: 0 <= i < |items| ==> Flat(option, items[i])
    case Object(obj) => !IsSplitTarget(option, obj) && AllFlat(option, obj.attributes)
    case _ => true
  }

  ghost predicate AllFlat(option: FeatureFlatteningOption, attrs: seq<Entry<Value>>)
    decreases attrs
  {
    forall i :: 0 <= i < |attrs| ==> Flat(option, attrs[i].value)
  }

  /** An emitted root: a split-target object whose own attributes are flat. */
  ghost predicate SplitRoot(option: FeatureFlatteningOption, v: Value) {
    v.Object? && IsSplitTarget(option, v.obj) && AllFlat(option, v.obj.attributes)
  }

  ghost predicate AllSplitRoots(option: FeatureFlatteningOption, pushed: seq<Value>) {
    forall i :: 0 <= i < |pushed| ==> SplitRoot(option, pushed[i])
  }

  lemma {:induction false} InsertFlat(option: FeatureFlatteningOption, m: seq<Entry<Value>>, key: string, v: Value)
    requires AllFlat(option, m) && Flat(option, v)
    ensures AllFlat(option, Insert(m, key, v))
  {
    InsertEntries(m, key, v);
    var r := Insert(m, key, v);
    forall i | 0 <= i < |r| ensures Flat(option, r[i].value) {
      if r[i] != Entry(key, v) {
        var j :| 0 <= j < |m| && m[j] == r[i];
      }
    }
  }

  lemma {:induction false} WithParentFlat(option: FeatureFlatteningOption, attrs: seq<Entry<Value>>, parent: Option<Parent>)
    requires AllFlat(option, attrs)
    ensures AllFlat(option, WithParent(attrs, parent))
  {
    if parent.Some? {
      InsertFlat(option, attrs, "parentId", Value.String(parent.value.id));
      InsertFlat(option, Insert(attrs, "parentId", Value.String(parent.value.id)), "parentType",
        Value.String(parent.value.typename));
    }
  }

  lemma {:induction false} AllSplitRootsAppend(option: FeatureFlatteningOption, a: seq<Value>, b: seq<Value>)
    requires AllSplitRoots(option, a) && AllSplitRoots(option, b)
    ensures AllSplitRoots(option, a + b)
  {
    forall i | 0 <= i < |a + b| ensures SplitRoot(option, (a + b)[i]) {
      if i >= |a| { assert (a + b)[i] == b[i - |a|]; }
    }
  }

  /** Whatever the option and the parent: what stays in place is flat, and
      everything pushed is a split target whose attributes are flat. */
  lemma {:induction false} FlattenValueFlat(option: FeatureFlatteningOption, v: Value, parent: Option<Parent>)
    ensures FlattenValue(option, v, parent).0.Some? ==> Flat(option, FlattenValue(option, v, parent).0.value)
    ensures AllSplitRoots(option, FlattenValue(option, v, parent).1)
    decreases v
  {
    match v
    case Object(obj) =>
      FlattenAttrsFlat(option, obj.attributes, NewParent(obj));
      var (attrs, pushed) := FlattenAttrs(option, obj.attributes, NewParent(obj));
      var o := Obj(obj.typename, attrs, obj.stereotype);
      if IsSplitTarget(option, o) {
        var root := Value.Object(Obj(obj.typename, WithParent(attrs, parent), obj.stereotype));
        WithParentFlat(option, attrs, parent);
        assert SplitRoot(option, root);
        AllSplitRootsAppend(option, pushed, [root]);
      }
    case Array(items) =>
      FlattenItemsFlat(option, items, parent);
    case _ =>
  }

  lemma {:induction false} FlattenAttrsFlat(option: FeatureFlatteningOption, attrs: seq<Entry<Value>>, parent: Option<Parent>)
    ensures AllFlat(option, FlattenAttrs(option, attrs, parent).0)
    ensures AllSplitRoots(option, FlattenAttrs(option, attrs, parent).1)
    decreases attrs
  {
    if attrs != [] {
      var pre := attrs[..|attrs| - 1];
      var e := attrs[|attrs| - 1];
      FlattenAttrsFlat(option, pre, parent);
      FlattenValueFlat(option, e.value, parent);
      var (m, pushed) := FlattenAttrs(option, pre, parent);
      var (r, more) := FlattenValue(option, e.value, parent);
      if r.Some? {
        InsertFlat(option, m, e.key, r.value);
      }
      AllSplitRootsAppend(option, pushed, more);
    }
  }

  lemma {:induction false} FlattenItemsFlat(option: FeatureFlatteningOption, items: seq<Value>, parent: Option<Parent>)
    ensures forall i :: 0 <= i < |FlattenItems(option, items, parent).0| ==>
      Flat(option, FlattenItems(option, items, parent).0[i])
    ensures AllSplitRoots(option, FlattenItems(option, items, parent).1)
    decreases items
  {
    if items != [] {
      var pre := items[..|items| - 1];
      FlattenItemsFlat(option, pre, parent);
      FlattenValueFlat(option, items[|items| - 1], parent);
      var (kept, pushed) := FlattenItems(option, pre, parent);
      var (r, more) := FlattenValue(option, items[|items| - 1], parent);
      AllSplitRootsAppend(option, pushed, more);
    }
  }

  /** With feature flattening off nothing is ever emitted. */
  lemma {:induction false} NoFeaturesPushesNothing(v: Value, parent: Option<Parent>)
    ensures FlattenValue(NoFeatures, v, parent).1 == []
  {
    FlattenValueFlat(NoFeatures, v, parent);
    var pushed := FlattenValue(NoFeatures, v, parent).1;
    assert |pushed| > 0 ==> SplitRoot(NoFeatures, pushed[0]);
  }

  /** Scalars are returned unchanged and push nothing. */
  lemma {:induction false} FlattenScalar(option: FeatureFlatteningOption, v: Value, parent: Option<Parent>)
    requires IsScalar(v)
    ensures FlattenValue(option, v, parent) == (Some(v), [])
  {
  }

  /** A split feature is removed from its place and pushed last, after all
      the features split out of its own attributes; with a parent it gains
      `parentId` and `parentType` strings naming that parent, and every
      other key keeps its flattened value. */
  lemma {:induction false} SplitFeature(option: FeatureFlatteningOption, obj: Obj, parent: Option<Parent>)
    requires IsSplitTarget(option, obj)
    ensures var (r, pushed) := FlattenValue(option, Value.Object(obj), parent);
      var (attrs, children) := FlattenAttrs(option, obj.attributes, NewParent(obj));
      r.None? && |pushed| == |children| + 1 && pushed[..|children|] == children &&
      pushed[|children|].Object? && pushed[|children|].obj.typename == obj.typename &&
      pushed[|children|].obj.stereotype == obj.stereotype &&
      (parent.None? ==> pushed[|children|].obj.attributes == attrs) &&
      (parent.Some? ==>
         Get(pushed[|children|].obj.attributes, "parentId") == Some(Value.String(parent.value.id)) &&
         Get(pushed[|children|].obj.attributes, "parentType") == Some(Value.String(parent.value.typename)) &&
         forall k :: k != "parentId" && k != "parentType" ==>
           Get(pushed[|children|].obj.attributes, k) == Get(attrs, k))
  {
    var (attrs, children) := FlattenAttrs(option, obj.attributes, NewParent(obj));
    assert IsSplitTarget(option, Obj(obj.typename, attrs, obj.stereotype));
    var pushed := FlattenValue(option, Value.Object(obj), parent).1;
    assert pushed[..|children|] == children;
    if parent.Some? {
      var m1 := Insert(attrs, "parentId", Value.String(parent.value.id));
      InsertSpec(attrs, "parentId", Value.String(parent.value.id));
      InsertSpec(m1, "parentType", Value.String(parent.value.typename));
    }
  }

  /** The parent an object receives matters only when the object itself is
      split out, and then only for its two back-reference attributes: its
      descendants see the object, never the grandparent. */
  lemma {:induction false} ParentNotInherited(option: FeatureFlatteningOption, obj: Obj, p1: Option<Parent>, p2: Option<Parent>)
    ensures FlattenValue(option, Value.Object(obj), p1).0 == FlattenValue(option, Value.Object(obj), p2).0
    ensures var a := FlattenValue(option, Value.Object(obj), p1).1;
      var b := FlattenValue(option, Value.Object(obj), p2).1;
      |a| == |b| && (|a| > 0 ==> a[..|a| - 1] == b[..|b| - 1])
    ensures !IsSplitTarget(option, obj) ==>
      FlattenValue(option, Value.Object(obj), p1) == FlattenValue(option, Value.Object(obj), p2)
  {
    var (attrs, children) := FlattenAttrs(option, obj.attributes, NewParent(obj));
    if IsSplitTarget(option, Obj(obj.typename, attrs, obj.stereotype)) {
      assert (children + [Value.Object(Obj(obj.typename, WithParent(attrs, p1), obj.stereotype))])[..|children|] == children;
      assert (children + [Value.Object(Obj(obj.typename, WithParent(attrs, p2), obj.stereotype))])[..|children|] == children;
    }
  }

  /** An array flattens to None exactly when every element does; otherwise
      the surviving elements are kept in their order. */
  lemma {:induction false} FlattenItemsKept(option: FeatureFlatteningOption, items: seq<Value>, parent: Option<Parent>)
    ensures FlattenItems(option, items, parent).0 == [] <==>
      forall i :: 0 <= i < |items| ==> FlattenValue(option, items[i], parent).0.None?
    ensures |FlattenItems(option, items, parent).0| <= |items|
    decreases items
  {
    if items != [] {
      var pre := items[..|items| - 1];
      FlattenItemsKept(option, pre, parent);
      assert forall i :: 0 <= i < |pre| ==> items[i] == pre[i];
    }
  }

  // ---------------------------------------------------------------------
  // One pushed entity per split target, in post-order

  /** The split-target objects of a tree in post-order: those inside an
      object's attributes (in attribute order) before the object itself,
      array elements in order. */
  function SplitTargets(option: FeatureFlatteningOption, v: Value): seq<Obj>
    decreases v
  {
    match v
    case Object(obj) => SplitTargetsAttrs(option, obj.attributes) + (if IsSplitTarget(option, obj) then [obj] else [])
    case Array(items) => SplitTargetsItems(option, items)
    case _ => []
  }

  function SplitTargetsAttrs(option: FeatureFlatteningOption, attrs: seq<Entry<Value>>): seq<Obj>
    decreases attrs
  {
    if attrs == [] then []
    else SplitTargetsAttrs(option, attrs[..|attrs| - 1]) + SplitTargets(option, attrs[|attrs| - 1].value)
  }

  function SplitTargetsItems(option: FeatureFlatteningOption, items: seq<Value>): seq<Obj>
    decreases items
  {
    if items == [] then []
    else SplitTargetsItems(option, items[..|items| - 1]) + SplitTargets(option, items[|items| - 1])
  }

  /** The entity pushed for `obj`: an object of the same typename and
      stereotype (its attributes are flattened and may gain a parent). */
  predicate EmittedFor(root: Value, obj: Obj) {
    root.Object? && root.obj.typename == obj.typename && root.obj.stereotype == obj.stereotype
  }

  ghost predicate EmittedInOrder(pushed: seq<Value>, targets: seq<Obj>) {
    |pushed| == |targets| && forall i :: 0 <= i < |pushed| ==> EmittedFor(pushed[i], targets[i])
  }

  lemma {:induction false} EmittedInOrderAppend(a: seq<Value>, ta: seq<Obj>, b: seq<Value>, tb: seq<Obj>)
    requires EmittedInOrder(a, ta) && EmittedInOrder(b, tb)
    ensures EmittedInOrder(a + b, ta + tb)
  {
    forall i | 0 <= i < |a + b| ensures EmittedFor((a + b)[i], (ta + tb)[i]) {
      if i >= |a| {
        assert (a + b)[i] == b[i - |a|] && (ta + tb)[i] == tb[i - |a|];
      } else {
        assert (a + b)[i] == a[i] && (ta + tb)[i] == ta[i];
      }
    }
  }

  /** Every split-target object of the input tree, however deep, is emitted
      exactly once, in post-order: the entities pushed correspond one to one,
      in order, to `SplitTargets`. */
  lemma {:induction false} FlattenValueOrder(option: FeatureFlatteningOption, v: Value, parent: Option<Parent>)
    ensures EmittedInOrder(FlattenValue(option, v, parent).1, SplitTargets(option, v))
    decreases v
  {
    match v
    case Object(obj) =>
      FlattenAttrsOrder(option, obj.attributes, NewParent(obj));
      var (attrs, pushed) := FlattenAttrs(option, obj.attributes, NewParent(obj));
      assert IsSplitTarget(option, Obj(obj.typename, attrs, obj.stereotype)) == IsSplitTarget(option, obj);
      if IsSplitTarget(option, obj) {
        var root := Value.Object(Obj(obj.typename, WithParent(attrs, parent), obj.stereotype));
        EmittedInOrderAppend(pushed, SplitTargetsAttrs(option, obj.attributes), [root], [obj]);
      } else {
        assert SplitTargets(option, v) == SplitTargetsAttrs(option, obj.attributes) + [];
      }
    case Array(items) =>
      FlattenItemsOrder(option, items, parent);
    case _ =>
  }

  lemma {:induction false} FlattenAttrsOrder(option: FeatureFlatteningOption, attrs: seq<Entry<Value>>, parent: Option<Parent>)
    ensures EmittedInOrder(FlattenAttrs(option, attrs, parent).1, SplitTargetsAttrs(option, attrs))
    decreases attrs
  {
    if attrs != [] {
      var pre := attrs[..|attrs| - 1];
      var e := attrs[|attrs| - 1];
      FlattenAttrsOrder(option, pre, parent);
      FlattenValueOrder(option, e.value, parent);
      EmittedInOrderAppend(FlattenAttrs(option, pre, parent).1, SplitTargetsAttrs(option, pre),
        FlattenValue(option, e.value, parent).1, SplitTargets(option, e.value));
    }
  }

  lemma {:induction false} FlattenItemsOrder(option: FeatureFlatteningOption, items: seq<Value>, parent: Option<Parent>)
    ensures EmittedInOrder(FlattenItems(option, items, parent).1, SplitTargetsItems(option, items))
    decreases items
  {
    if items != [] {
      var pre := items[..|items| - 1];
      var last := items[|items| - 1];
      FlattenItemsOrder(option, pre, parent);
      FlattenValueOrder(option, last, parent);
      EmittedInOrderAppend(FlattenItems(option, pre, parent).1, SplitTargetsItems(option, pre),
        FlattenValue(option, last, parent).1, SplitTargets(option, last));
    }
  }

  // ---------------------------------------------------------------------
  // The transformer

  /** The entities `flatten_feature` pushes for the roots `pushed`: each
      shares the geometry and appearance stores of the input entity. */
  function Emitted(pushed: seq<Value>, geometryStore: GeometryStore, appearanceStore: nat): (r: seq<Entity>)
    ensures |r| == |pushed|
    ensures forall i :: 0 <= i < |pushed| ==>
      r[i] == Entity(pushed[i], "file:///dummy", geometryStore, appearanceStore)
  {
    seq(|pushed|, i requires 0 <= i < |pushed| => Entity(pushed[i], "file:///dummy", geometryStore, appearanceStore))
  }

  /** One more element of the array loop. */
  lemma {:induction false} FlattenItemsStep(option: FeatureFlatteningOption, arr: seq<Value>, k: nat, parent: Option<Parent>)
    requires k < |arr|
    ensures var pre := FlattenItems(option, arr[..k], parent);
      var step := FlattenValue(option, arr[k], parent);
      FlattenItems(option, arr[..k + 1], parent) ==
        (if step.0.Some? then pre.0 + [step.0.value] else pre.0, pre.1 + step.1)
  {
    assert arr[..k + 1][..k] == arr[..k];
  }

  /** One more attribute of the attribute loop. */
  lemma {:induction false} FlattenAttrsStep(option: FeatureFlatteningOption, attrs: seq<Entry<Value>>, k: nat, parent: Option<Parent>)
    requires k < |attrs|
    ensures var pre := FlattenAttrs(option, attrs[..k], parent);
      var step := FlattenValue(option, attrs[k].value, parent);
      FlattenAttrs(option, attrs[..k + 1], parent) ==
        (if step.0.Some? then Insert(pre.0, attrs[k].key, step.0.value) else pre.0, pre.1 + step.1)
  {
    assert attrs[..k + 1][..k] == attrs[..k];
  }

  /** The entities of more pushed roots follow those already emitted. */
  lemma {:induction false} EmittedSnoc(out0: seq<Entity>, pushed: seq<Value>, more: seq<Value>, g: GeometryStore, h: nat)
    ensures out0 + Emitted(pushed + more, g, h) == (out0 + Emitted(pushed, g, h)) + Emitted(more, g, h)
  {
    EmittedAppend(pushed, more, g, h);
  }

  lemma {:induction false} EmittedAppend(a: seq<Value>, b: seq<Value>, g: GeometryStore, h: nat)
    ensures Emitted(a + b, g, h) == Emitted(a, g, h) + Emitted(b, g, h)
  {
  }

  /** The two string attributes `transform_schema` adds to each feature type. */
  const PARENT_ATTRIBUTE := S.Attribute(S.TypeRef.String, 0, Some(1))

  /** `transform_schema` on one type definition. */
  function WithParentAttributes(ty: S.TypeDef): S.TypeDef {
    match ty
    case Feature(attrs) => S.TypeDef.Feature(Insert(Insert(attrs, "parentId", PARENT_ATTRIBUTE), "parentType", PARENT_ATTRIBUTE))
    case _ => ty
  }

  /** Every feature type gains optional single `parentId`/`parentType`
      strings and keeps its other attributes; data and property types are
      unchanged. */
  lemma {:induction false} WithParentAttributesSpec(ty: S.TypeDef)
    ensures !ty.Feature? ==> WithParentAttributes(ty) == ty
    ensures ty.Feature? ==> WithParentAttributes(ty).Feature?
    ensures ty.Feature? ==> Get(WithParentAttributes(ty).attributes, "parentId") == Some(PARENT_ATTRIBUTE)
    ensures ty.Feature? ==> Get(WithParentAttributes(ty).attributes, "parentType") == Some(PARENT_ATTRIBUTE)
    ensures ty.Feature? ==> forall name :: name != "parentId" && name != "parentType" ==>
      Get(WithParentAttributes(ty).attributes, name) == Get(ty.attributes, name)
    ensures ty.Feature? && UniqueKeys(ty.attributes) ==> UniqueKeys(WithParentAttributes(ty).attributes)
  {
    if ty.Feature? {
      InsertSpec(ty.attributes, "parentId", PARENT_ATTRIBUTE);
      InsertSpec(Insert(ty.attributes, "parentId", PARENT_ATTRIBUTE), "parentType", PARENT_ATTRIBUTE);
    }
  }

  class FlattenTreeTransform {
    var featureOption: FeatureFlatteningOption
    var dataOption: DataFlatteningOption
    var objectOption: ObjectFlatteningOption

    /** `new()` / `default()`: no flattening at all. */
    constructor ()
      ensures featureOption == NoFeatures && dataOption == NoData && objectOption == NoObjects
    {
      featureOption := NoFeatures;
      dataOption := NoData;
      objectOption := NoObjects;
    }

    constructor WithOptions(feature: FeatureFlatteningOption, data: DataFlatteningOption, obj: ObjectFlatteningOption)
      ensures featureOption == feature && dataOption == data && objectOption == obj
    {
      featureOption := feature;
      dataOption := data;
      objectOption := obj;
    }

    method SetFeatureOption(option: FeatureFlatteningOption)
      modifies this
      ensures featureOption == option && dataOption == old(dataOption) && objectOption == old(objectOption)
    {
      featureOption := option;
    }

    method SetDataOption(option: DataFlatteningOption)
      modifies this
      ensures dataOption == option && featureOption == old(featureOption) && objectOption == old(objectOption)
    {
      dataOption := option;
    }

    method SetObjectOption(option: ObjectFlatteningOption)
      modifies this
      ensures objectOption == option && featureOption == old(featureOption) && dataOption == old(dataOption)
    {
      objectOption := option;
    }

    /** `transform`: flattens the root with no parent, pushes what was split
        out, and drops whatever remains of the root. */
    method Transform(entity: Entity, out: EntityVec)
      modifies out
      ensures out.entities == old(out.entities) +
        Emitted(FlattenValue(featureOption, entity.root, None).1, entity.geometryStore, entity.appearanceStore)
    {
      var _ := FlattenFeature(entity.root, entity.geometryStore, entity.appearanceStore, out, None);
    }

    /** `flatten_feature`. */
    method FlattenFeature(value: Value, geometryStore: GeometryStore, appearanceStore: nat, out: EntityVec,
                          parent: Option<Parent>) returns (r: Option<Value>)
      modifies out
      ensures r == FlattenValue(featureOption, value, parent).0
      ensures out.entities == old(out.entities) +
        Emitted(FlattenValue(featureOption, value, parent).1, geometryStore, appearanceStore)
      decreases value, 3
    {
      match value {
        case Object(obj) =>
          r := FlattenObject(obj, geometryStore, appearanceStore, out, parent);
        case Array(arr) =>
          r := FlattenArray(arr, geometryStore, appearanceStore, out, parent);
        case _ =>
          r := Some(value);
      }
    }

    /** The object arm of `flatten_feature`. */
    method FlattenObject(obj: Obj, geometryStore: GeometryStore, appearanceStore: nat, out: EntityVec,
                         parent: Option<Parent>) returns (r: Option<Value>)
      modifies out
      ensures r == FlattenValue(featureOption, Value.Object(obj), parent).0
      ensures out.entities == old(out.entities) +
        Emitted(FlattenValue(featureOption, Value.Object(obj), parent).1, geometryStore, appearanceStore)
      decreases obj, 2
    {
      var newParent := NewParent(obj);
      var newAttribs := FlattenAttributes(obj, geometryStore, appearanceStore, out, newParent);
      var o := Obj(obj.typename, newAttribs, obj.stereotype);
      if IsSplitTarget(featureOption, o) {
        var attrs := WithParent(newAttribs, parent);
        ghost var children := FlattenAttrs(featureOption, obj.attributes, newParent).1;
        var root := Value.Object(Obj(obj.typename, attrs, obj.stereotype));
        out.Push(Entity(root, "file:///dummy", geometryStore, appearanceStore));
        EmittedAppend(children, [root], geometryStore, appearanceStore);
        r := None;
      } else {
        r := Some(Value.Object(o));
      }
    }

    /** The attribute loop of the object arm: every attribute flattened in
        order, the kept ones re-inserted under their keys. */
    method FlattenAttributes(obj: Obj, geometryStore: GeometryStore, appearanceStore: nat, out: EntityVec,
                             parent: Option<Parent>) returns (newAttribs: seq<Entry<Value>>)
      modifies out
      ensures newAttribs == FlattenAttrs(featureOption, obj.attributes, parent).0
      ensures out.entities == old(out.entities) +
        Emitted(FlattenAttrs(featureOption, obj.attributes, parent).1, geometryStore, appearanceStore)
      decreases obj, 0
    {
      ghost var out0 := out.entities;
      ghost var pushed: seq<Value> := [];
      newAttribs := [];
      var k := 0;
      while k < |obj.attributes|
        invariant 0 <= k <= |obj.attributes|
        invariant (newAttribs, pushed) == FlattenAttrs(featureOption, obj.attributes[..k], parent)
        invariant out.entities == out0 + Emitted(pushed, geometryStore, appearanceStore)
      {
        var e := obj.attributes[k];
        FlattenAttrsStep(featureOption, obj.attributes, k, parent);
        ghost var more := FlattenValue(featureOption, e.value, parent).1;
        var v := FlattenFeature(e.value, geometryStore, appearanceStore, out, parent);
        if v.Some? {
          newAttribs := Insert(newAttribs, e.key, v.value);
        }
        EmittedSnoc(out0, pushed, more, geometryStore, appearanceStore);
        pushed := pushed + more;
        k := k + 1;
      }
      assert obj.attributes[..k] == obj.attributes;
    }

    /** The array arm of `flatten_feature`. */
    method FlattenArray(arr: seq<Value>, geometryStore: GeometryStore, appearanceStore: nat, out: EntityVec,
                        parent: Option<Parent>) returns (r: Option<Value>)
      modifies out
      ensures r == FlattenValue(featureOption, Value.Array(arr), parent).0
      ensures out.entities == old(out.entities) +
        Emitted(FlattenValue(featureOption, Value.Array(arr), parent).1, geometryStore, appearanceStore)
      decreases arr, 2
    {
      var newArr := FlattenElements(arr, geometryStore, appearanceStore, out, parent);
      if newArr == [] {
        r := None;
      } else {
        r := Some(Value.Array(newArr));
      }
    }

    /** The loop of the array arm: every element flattened in order, the
        kept ones collected. */
    method FlattenElements(arr: seq<Value>, geometryStore: GeometryStore, appearanceStore: nat, out: EntityVec,
                           parent: Option<Parent>) returns (newArr: seq<Value>)
      modifies out
      ensures newArr == FlattenItems(featureOption, arr, parent).0
      ensures out.entities == old(out.entities) +
        Emitted(FlattenItems(featureOption, arr, parent).1, geometryStore, appearanceStore)
      decreases arr, 0
    {
      ghost var out0 := out.entities;
      ghost var pushed: seq<Value> := [];
      newArr := [];
      var k := 0;
      while k < |arr|
        invariant 0 <= k <= |arr|
        invariant (newArr, pushed) == FlattenItems(featureOption, arr[..k], parent)
        invariant out.entities == out0 + Emitted(pushed, geometryStore, appearanceStore)
      {
        var x := arr[k];
        FlattenItemsStep(featureOption, arr, k, parent);
        ghost var more := FlattenValue(featureOption, x, parent).1;
        var v := FlattenFeature(x, geometryStore, appearanceStore, out, parent);
        if v.Some? {
          newArr := newArr + [v.value];
        }
        EmittedSnoc(out0, pushed, more, geometryStore, appearanceStore);
        pushed := pushed + more;
        k := k + 1;
      }
      assert arr[..k] == arr;
    }

    /** `transform_schema`: every feature type gains the two back-reference
        attributes; the order and names of the types are unchanged. */
    method TransformSchema(schema: S.Schema)
      modifies schema
      ensures |schema.types| == |old(schema.types)|
      ensures forall i :: 0 <= i < |schema.types| ==>
        schema.types[i] == Entry(old(schema.types)[i].key, WithParentAttributes(old(schema.types)[i].value))
      ensures schema.epsg == old(schema.epsg)
    {
      var i := 0;
      while i < |schema.types|
        invariant 0 <= i <= |schema.types| == |old(schema.types)|
        invariant forall j :: 0 <= j < i ==>
          schema.types[j] == Entry(old(schema.types)[j].key, WithParentAttributes(old(schema.types)[j].value))
        invariant forall j :: i <= j < |schema.types| ==> schema.types[j] == old(schema.types)[j]
        invariant schema.epsg == old(schema.epsg)
      {
        var ty := schema.types[i].value;
        if ty.Feature? {
          var attrs := Insert(ty.attributes, "parentId", PARENT_ATTRIBUTE);
          attrs := Insert(attrs, "parentType", PARENT_ATTRIBUTE);
          schema.types := schema.types[i := Entry(schema.types[i].key, S.TypeDef.Feature(attrs))];
        }
        i := i + 1;
      }
    }
  }
}
