/** Assembly of the transform pipeline: the user's requirements become a
    request, and the builder turns a request into a fixed-order sequence of
    transform steps. */
module Builder {
  import opened Common
  import F = Flatten

  /** `LodMask`: the set of levels of detail to keep; `LodMask::all()` keeps
      every CityGML level, 0 to 4. */
  datatype LodMask = LodMask(lods: set<nat>)

  /** `LodMask::all()`, taken as the CityGML levels 0 to 4. */
  const ALL_LODS: LodMask := LodMask({0, 1, 2, 3, 4})

  /** `LodFilterMode`: only `Highest` is named by the builder; every other
      mode is kept by its name only. */
  datatype LodFilterMode = Highest | OtherMode(name: string)

  datatype LodFilterSpec = LodFilterSpec(mask: LodMask, mode: LodFilterMode)

  /** `TreeFlatteningSpec` (its `None` is `NoFlattening` here). */
  datatype TreeFlatteningSpec =
    | NoFlattening
    | Flatten(feature: F.FeatureFlatteningOption, data: F.DataFlatteningOption, obj: F.ObjectFlatteningOption)

  datatype MergedownSpec = NoMergedown | RetainDescendantFeatures | RemoveDescendantFeatures

  /** `KeyValueSpec` (its `None` is `NoKeyValue` here). */
  datatype KeyValueSpec = NoKeyValue | Jsonify | DotNotation

  /** `MappingRules`: the user's field renames, old name to new name. */
  datatype MappingRules = MappingRules(rename: map<string, string>)

  datatype Requirements = Requirements(
    shortenNamesForShapefile: bool,
    mappingRules: Option<MappingRules>,
    treeFlattening: TreeFlatteningSpec,
    resolveAppearance: bool,
    mergedown: MergedownSpec,
    keyValue: KeyValueSpec,
    lodFilter: LodFilterSpec)

  datatype Request = Request(
    shortenNamesForShapefile: bool,
    mappingRules: Option<MappingRules>,
    treeFlattening: TreeFlatteningSpec,
    applyAppearance: bool,
    mergedown: MergedownSpec,
    keyValue: KeyValueSpec,
    lodFilter: LodFilterSpec)

  /** `LodFilterSpec::default`: every level, keeping the highest. */
  function DefaultLodFilter(): (r: LodFilterSpec)
    ensures r.mode == Highest && r.mask == ALL_LODS
  {
    LodFilterSpec(ALL_LODS, Highest)
  }

  /** `Requirements::default`. */
  function DefaultRequirements(): (r: Requirements)
    ensures !r.shortenNamesForShapefile && r.mappingRules == None
    ensures r.treeFlattening == NoFlattening && !r.resolveAppearance
    ensures r.mergedown == RemoveDescendantFeatures && r.keyValue == Jsonify
    ensures r.lodFilter == DefaultLodFilter()
  {
    Requirements(false, None, NoFlattening, false, RemoveDescendantFeatures, Jsonify, DefaultLodFilter())
  }

  /** `From<Requirements> for Request`: the fields carry over, and
      `resolve_appearance` becomes `apply_appearance`. */
  function RequestOf(req: Requirements): (r: Request)
    ensures r.shortenNamesForShapefile == req.shortenNamesForShapefile
    ensures r.mappingRules == req.mappingRules && r.treeFlattening == req.treeFlattening
    ensures r.applyAppearance == req.resolveAppearance
    ensures r.mergedown == req.mergedown && r.keyValue == req.keyValue && r.lodFilter == req.lodFilter
  {
    Request(req.shortenNamesForShapefile, req.mappingRules, req.treeFlattening,
      req.resolveAppearance, req.mergedown, req.keyValue, req.lodFilter)
  }

  /** The conversion loses nothing: the requirements can be read back from
      the request. */
  lemma {:induction false} RequestOfInjective(a: Requirements, b: Requirements)
    ensures RequestOf(a) == RequestOf(b) ==> a == b
  {
  }

  /** One transform of the pipeline. `Projection` is built from the shared
      JGD2011-to-WGS84 converter alone; `GeometricMergedown`'s flag is the
      argument of `GeometricMergedownTransform::new`. */
  datatype Step =
    | Projection
    | ApplyAppearance
    | EditFieldNames(rename: map<string, string>)
    | FilterLod(mask: LodMask, mode: LodFilterMode)
    | FlattenTree(feature: F.FeatureFlatteningOption, data: F.DataFlatteningOption, obj: F.ObjectFlatteningOption)
    | GeometricMergedown(keepDescendants: bool)
    | JsonifyStep
    | DotNotationStep

  /** `SerialTransform`: the steps pushed so far, run in order. */
  class SerialTransform {
    var transforms: seq<Step>

    constructor ()
      ensures transforms == []
    {
      transforms := [];
    }

    method Push(step: Step)
      modifies this
      ensures transforms == old(transforms) + [step]
    {
      transforms := transforms + [step];
    }
  }

  /** `EditFieldNamesTransform`: its rename map. */
  class FieldRenamer {
    var renameMap: map<string, string>

    constructor ()
      ensures renameMap == map[]
    {
      renameMap := map[];
    }

    /** `load_default_map_for_shape`: the default shapefile renames (their
        table is not part of this model, so it is a parameter). */
    method LoadDefaultMapForShape(shapeDefaults: map<string, string>)
      modifies this
      ensures renameMap == old(renameMap) + shapeDefaults
    {
      renameMap := renameMap + shapeDefaults;
    }

    /** `extend_rename_map`: later entries replace earlier ones with the same
        key. */
    method ExtendRenameMap(rename: map<string, string>)
      modifies this
      ensures renameMap == old(renameMap) + rename
    {
      renameMap := renameMap + rename;
    }
  }

  /** The rename map of the `EditFieldNames` step: the shapefile defaults
      when asked for, then the user's rules over them. */
  function RenameMap(request: Request, shapeDefaults: map<string, string>): map<string, string> {
    var base := if request.shortenNamesForShapefile then shapeDefaults else map[];
    match request.mappingRules
    case None => base
    case Some(rules) => base + rules.rename
  }

  /** A user rule wins over a shapefile default; a default survives where
      the user says nothing; no other name is renamed. */
  lemma {:induction false} RenameMapSpec(request: Request, shapeDefaults: map<string, string>, name: string)
    ensures var m := RenameMap(request, shapeDefaults);
      (request.mappingRules.Some? && name in request.mappingRules.value.rename ==>
        name in m && m[name] == request.mappingRules.value.rename[name]) &&
      (request.shortenNamesForShapefile && name in shapeDefaults &&
        (request.mappingRules.None? || name !in request.mappingRules.value.rename) ==>
        name in m && m[name] == shapeDefaults[name]) &&
      (name in m ==>
        (request.shortenNamesForShapefile && name in shapeDefaults) ||
        (request.mappingRules.Some? && name in request.mappingRules.value.rename))
  {
  }

  function FlatteningSteps(spec: TreeFlatteningSpec): seq<Step> {
    match spec
    case NoFlattening => []
    case Flatten(feature, data, obj) => [FlattenTree(feature, data, obj)]
  }

  function MergedownSteps(spec: MergedownSpec): seq<Step> {
    match spec
    case NoMergedown => []
    case RemoveDescendantFeatures => [GeometricMergedown(false)]
    case RetainDescendantFeatures => [GeometricMergedown(true)]
  }

  function KeyValueSteps(spec: KeyValueSpec): seq<Step> {
    match spec
    case Jsonify => [JsonifyStep]
    case DotNotation => [DotNotationStep]
    case NoKeyValue => []
  }

  /** The pipeline `build` assembles for a request. */
  function Pipeline(request: Request, shapeDefaults: map<string, string>): seq<Step> {
    [Projection]
    + (if request.applyAppearance then [ApplyAppearance] else [])
    + [EditFieldNames(RenameMap(request, shapeDefaults))]
    + [FilterLod(request.lodFilter.mask, request.lodFilter.mode)]
    + FlatteningSteps(request.treeFlattening)
    + MergedownSteps(request.mergedown)
    + KeyValueSteps(request.keyValue)
  }

  /** The renamer of `build`: the shapefile defaults when asked for, then
      the user's rules. */
  method MakeRenamer(request: Request, shapeDefaults: map<string, string>) returns (renamer: FieldRenamer)
    ensures fresh(renamer)
    ensures renamer.renameMap == RenameMap(request, shapeDefaults)
  {
    renamer := new FieldRenamer();
    if request.shortenNamesForShapefile {
      renamer.LoadDefaultMapForShape(shapeDefaults);
    }
    if request.mappingRules.Some? {
      renamer.ExtendRenameMap(request.mappingRules.value.rename);
    }
  }

  /** The steps `build` pushes after the LOD filter. */
  method PushTail(t: SerialTransform, request: Request)
    modifies t
    ensures t.transforms == old(t.transforms) + FlatteningSteps(request.treeFlattening)
      + MergedownSteps(request.mergedown) + KeyValueSteps(request.keyValue)
  {
    ghost var t0 := t.transforms;
    match request.treeFlattening {
      case NoFlattening =>
      case Flatten(feature, data, obj) =>
        t.Push(FlattenTree(feature, data, obj));
    }
    ghost var t1 := t.transforms;
    assert t1 == t0 + FlatteningSteps(request.treeFlattening);
    match request.mergedown {
      case NoMergedown =>
      case RemoveDescendantFeatures =>
        t.Push(GeometricMergedown(false));
      case RetainDescendantFeatures =>
        t.Push(GeometricMergedown(true));
    }
    ghost var t2 := t.transforms;
    assert t2 == t1 + MergedownSteps(request.mergedown);
    match request.keyValue {
      case Jsonify =>
        t.Push(JsonifyStep);
      case DotNotation =>
        t.Push(DotNotationStep);
      case NoKeyValue =>
    }
  }

  /** `NusamaiTransformBuilder::build`. */
  method Build(request: Request, shapeDefaults: map<string, string>) returns (t: SerialTransform)
    ensures fresh(t)
    ensures t.transforms == Pipeline(request, shapeDefaults)
  {
    t := new SerialTransform();
    t.Push(Projection);
    if request.applyAppearance {
      t.Push(ApplyAppearance);
    }
    var renamer := MakeRenamer(request, shapeDefaults);
    t.Push(EditFieldNames(renamer.renameMap));
    t.Push(FilterLod(request.lodFilter.mask, request.lodFilter.mode));
    PushTail(t, request);
  }

  /** The stage of each kind of step in the fixed order of the pipeline. */
  function Stage(step: Step): nat {
    match step
    case Projection => 0
    case ApplyAppearance => 1
    case EditFieldNames(_) => 2
    case FilterLod(_, _) => 3
    case FlattenTree(_, _, _) => 4
    case GeometricMergedown(_) => 5
    case JsonifyStep => 6
    case DotNotationStep => 6
  }

  predicate StagesIncrease(steps: seq<Step>) {
    forall i, j :: 0 <= i < j < |steps| ==> Stage(steps[i]) < Stage(steps[j])
  }

  /** Every step of `steps` belongs to a stage below `bound`. */
  predicate StagesBelow(steps: seq<Step>, bound: nat) {
    forall i :: 0 <= i < |steps| ==> Stage(steps[i]) < bound
  }

  /** Appending at most one step of stage `bound` keeps the stages
      increasing and below `bound + 1`. */
  lemma {:induction false} StagesIncreaseAppend(a: seq<Step>, b: seq<Step>, bound: nat)
    requires StagesIncrease(a) && StagesBelow(a, bound)
    requires |b| <= 1 && forall j :: 0 <= j < |b| ==> Stage(b[j]) == bound
    ensures StagesIncrease(a + b) && StagesBelow(a + b, bound + 1)
  {
    var t := a + b;
    forall i | 0 <= i < |t| ensures Stage(t[i]) < bound + 1 {
      if i < |a| {
        assert t[i] == a[i];
      } else {
        assert t[i] == b[i - |a|];
      }
    }
    forall i, j | 0 <= i < j < |t| ensures Stage(t[i]) < Stage(t[j]) {
      if j < |a| {
        assert t[i] == a[i] && t[j] == a[j];
      } else {
        assert t[i] == a[i] && t[j] == b[j - |a|];
      }
    }
  }

  /** Steps come in the fixed order projection, appearance, renaming, LOD
      filter, flattening, mergedown, key-value, each kind at most once, and
      the projection always comes first. */
  lemma {:induction false} PipelineOrder(request: Request, shapeDefaults: map<string, string>)
    ensures var p := Pipeline(request, shapeDefaults);
      StagesIncrease(p) && |p| >= 3 && p[0] == Projection
  {
    var rename := EditFieldNames(RenameMap(request, shapeDefaults));
    var lod := FilterLod(request.lodFilter.mask, request.lodFilter.mode);
    var s0 := [Projection];
    var s1 := s0 + (if request.applyAppearance then [ApplyAppearance] else []);
    var s2 := s1 + [rename];
    var s3 := s2 + [lod];
    var s4 := s3 + FlatteningSteps(request.treeFlattening);
    var s5 := s4 + MergedownSteps(request.mergedown);
    var s6 := s5 + KeyValueSteps(request.keyValue);
    StagesIncreaseAppend(s0, if request.applyAppearance then [ApplyAppearance] else [], 1);
    StagesIncreaseAppend(s1, [rename], 2);
    StagesIncreaseAppend(s2, [lod], 3);
    StagesIncreaseAppend(s3, FlatteningSteps(request.treeFlattening), 4);
    StagesIncreaseAppend(s4, MergedownSteps(request.mergedown), 5);
    StagesIncreaseAppend(s5, KeyValueSteps(request.keyValue), 6);
    assert s6 == Pipeline(request, shapeDefaults);
    assert s6[0] == Projection;
  }

  /** Which optional steps appear: appearance exactly when requested,
      flattening exactly for `Flatten` with its options, mergedown unless
      `NoMergedown` (removing descendants builds `new(false)`, retaining
      them `new(true)`), and a key-value step unless `None`. */
  lemma {:induction false} PipelineContents(request: Request, shapeDefaults: map<string, string>)
    ensures var p := Pipeline(request, shapeDefaults);
      (ApplyAppearance in p <==> request.applyAppearance) &&
      EditFieldNames(RenameMap(request, shapeDefaults)) in p &&
      FilterLod(request.lodFilter.mask, request.lodFilter.mode) in p &&
      (forall f, d, o :: FlattenTree(f, d, o) in p <==> request.treeFlattening == Flatten(f, d, o)) &&
      (GeometricMergedown(false) in p <==> request.mergedown == RemoveDescendantFeatures) &&
      (GeometricMergedown(true) in p <==> request.mergedown == RetainDescendantFeatures) &&
      (JsonifyStep in p <==> request.keyValue == Jsonify) &&
      (DotNotationStep in p <==> request.keyValue == DotNotation)
  {
    PipelineHead(request, shapeDefaults);
    PipelineFlattening(request, shapeDefaults);
    PipelineMergedown(request, shapeDefaults);
    PipelineKeyValue(request, shapeDefaults);
  }

  /** The steps before the optional ones. */
  lemma {:induction false} PipelineHead(request: Request, shapeDefaults: map<string, string>)
    ensures var p := Pipeline(request, shapeDefaults);
      (ApplyAppearance in p <==> request.applyAppearance) &&
      EditFieldNames(RenameMap(request, shapeDefaults)) in p &&
      FilterLod(request.lodFilter.mask, request.lodFilter.mode) in p
  {
  }

  lemma {:induction false} PipelineFlattening(request: Request, shapeDefaults: map<string, string>)
    ensures var p := Pipeline(request, shapeDefaults);
      forall f, d, o :: FlattenTree(f, d, o) in p <==> request.treeFlattening == Flatten(f, d, o)
  {
  }

  lemma {:induction false} PipelineMergedown(request: Request, shapeDefaults: map<string, string>)
    ensures var p := Pipeline(request, shapeDefaults);
      (GeometricMergedown(false) in p <==> request.mergedown == RemoveDescendantFeatures) &&
      (GeometricMergedown(true) in p <==> request.mergedown == RetainDescendantFeatures)
  {
  }

  lemma {:induction false} PipelineKeyValue(request: Request, shapeDefaults: map<string, string>)
    ensures var p := Pipeline(request, shapeDefaults);
      (JsonifyStep in p <==> request.keyValue == Jsonify) &&
      (DotNotationStep in p <==> request.keyValue == DotNotation)
  {
  }

  /** The default requirements give projection, renaming with no renames,
      the all-levels highest-LOD filter, mergedown removing descendants, and
      JSON-ification. */
  lemma {:induction false} DefaultPipeline(shapeDefaults: map<string, string>)
    ensures Pipeline(RequestOf(DefaultRequirements()), shapeDefaults) ==
      [Projection, EditFieldNames(map[]), FilterLod(ALL_LODS, Highest), GeometricMergedown(false), JsonifyStep]
  {
  }
}
