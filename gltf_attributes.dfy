/** Feature metadata of the glTF sink in the terms of the structural
    metadata extension: the class property type of each schema type, the
    class of a feature type, and the property table that numbers the buffer
    views of its properties. */
module GltfAttributes {
  import opened Common
  import opened IndexMaps
  import S = Schemas

  datatype ClassPropertyType = Scalar | Vec3 | String | Boolean
  datatype ComponentType = Int64 | UInt64 | Float64

  /** `GltfPropertyType`; the names stay empty until the caller sets them. */
  datatype GltfPropertyType = GltfPropertyType(
    className: string, propertyName: string,
    classPropertyType: ClassPropertyType, componentType: Option<ComponentType>)

  /** The schema types stored as text. */
  predicate IsTextual(t: S.TypeRef) {
    t.String? || t.Code? || t.JsonString? || t.Named? || t.Uri? || t.Date? || t.DateTime?
  }

  /** `to_gltf_schema`: panics on `Unknown`, otherwise gives a property type
      with empty names. */
  function ToGltfSchema(t: S.TypeRef): (r: Outcome<GltfPropertyType>)
    ensures r.Panics? <==> t.Unknown?
    ensures r.Returns? ==> r.value.className == "" && r.value.propertyName == ""
    ensures r.Returns? ==> (r.value.classPropertyType == String <==> IsTextual(t))
    ensures r.Returns? ==> (r.value.classPropertyType == Scalar <==>
      t.Integer? || t.NonNegativeInteger? || t.Double? || t.Measure?)
    ensures r.Returns? ==> (r.value.classPropertyType == Boolean <==> t.Boolean?)
    ensures r.Returns? ==> (r.value.classPropertyType == Vec3 <==> t.Point?)
    ensures r.Returns? ==> (r.value.componentType == Some(Int64) <==> t.Integer?)
    ensures r.Returns? ==> (r.value.componentType == Some(UInt64) <==> t.NonNegativeInteger?)
    ensures r.Returns? ==> (r.value.componentType == Some(Float64) <==> t.Double? || t.Measure? || t.Point?)
    ensures r.Returns? ==> (r.value.componentType.None? <==> IsTextual(t) || t.Boolean?)
  {
    match t
    case String => Returns(GltfPropertyType("", "", String, None))
    case Integer => Returns(GltfPropertyType("", "", Scalar, Some(Int64)))
    case Double => Returns(GltfPropertyType("", "", Scalar, Some(Float64)))
    case Boolean => Returns(GltfPropertyType("", "", Boolean, None))
    case Measure => Returns(GltfPropertyType("", "", Scalar, Some(Float64)))
    case Code => Returns(GltfPropertyType("", "", String, None))
    case NonNegativeInteger => Returns(GltfPropertyType("", "", Scalar, Some(UInt64)))
    case JsonString => Returns(GltfPropertyType("", "", String, None))
    case Point => Returns(GltfPropertyType("", "", Vec3, Some(Float64)))
    case Named(_) => Returns(GltfPropertyType("", "", String, None))
    case Uri => Returns(GltfPropertyType("", "", String, None))
    case Date => Returns(GltfPropertyType("", "", String, None))
    case DateTime => Returns(GltfPropertyType("", "", String, None))
    case Unknown => Panics
  }

  datatype ClassProperty = ClassProperty(
    description: Option<string>, propertyType: ClassPropertyType, componentType: Option<ComponentType>)

  datatype Class = Class(name: Option<string>, description: Option<string>, properties: map<string, ClassProperty>)

  /** No attribute of the feature type has the `Unknown` type. */
  predicate AllKnown(attrs: seq<Entry<S.Attribute>>) {
    forall i :: 0 <= i < |attrs| ==> !attrs[i].value.typeRef.Unknown?
  }

  /** `to_gltf_class`: for a feature type, one class keyed and named by
      `className` whose properties are the attributes, each described by its
      own name and typed by `to_gltf_schema`; other type definitions and
      unknown attribute types panic. */
  method ToGltfClass(className: string, typeDef: S.TypeDef) returns (r: Outcome<map<string, Class>>)
    requires typeDef.Feature? ==> UniqueKeys(typeDef.attributes)
    ensures r.Returns? <==> typeDef.Feature? && AllKnown(typeDef.attributes)
    ensures r.Returns? ==> r.value.Keys == {className}
    ensures r.Returns? ==> r.value[className].name == Some(className) && r.value[className].description.None?
    ensures r.Returns? ==> r.value[className].properties.Keys == set e | e in typeDef.attributes :: e.key
    ensures r.Returns? ==> forall i :: 0 <= i < |typeDef.attributes| ==>
      r.value[className].properties[typeDef.attributes[i].key] == ClassPropertyOf(typeDef.attributes[i])
  {
    if !typeDef.Feature? {
      return Panics;
    }
    var gltfPropertyTypes := PropertyTypesOf(className, typeDef.attributes);
    if gltfPropertyTypes.Panics? {
      return Panics;
    }
    var classProperties := ClassProperties(typeDef.attributes, gltfPropertyTypes.value);
    r := Returns(map[className := Class(Some(className), None, classProperties)]);
  }

  /** The class property of one attribute. */
  function ClassPropertyOf(e: Entry<S.Attribute>): ClassProperty
    requires !e.value.typeRef.Unknown?
  {
    var t := ToGltfSchema(e.value.typeRef).value;
    ClassProperty(Some(e.key), t.classPropertyType, t.componentType)
  }

  /** The first loop of `to_gltf_class`: a property type per attribute,
      named after the class and the attribute. */
  method PropertyTypesOf(className: string, attrs: seq<Entry<S.Attribute>>)
      returns (r: Outcome<seq<GltfPropertyType>>)
    ensures r.Returns? <==> AllKnown(attrs)
    ensures r.Returns? ==> |r.value| == |attrs|
    ensures r.Returns? ==> forall j :: 0 <= j < |attrs| ==>
      r.value[j] == ToGltfSchema(attrs[j].value.typeRef).value.(className := className, propertyName := attrs[j].key)
  {
    var gltfPropertyTypes: seq<GltfPropertyType> := [];
    var i := 0;
    while i < |attrs|
      invariant 0 <= i <= |attrs| && |gltfPropertyTypes| == i
      invariant AllKnown(attrs[..i])
      invariant forall j :: 0 <= j < i ==>
        gltfPropertyTypes[j] ==
        ToGltfSchema(attrs[j].value.typeRef).value.(className := className, propertyName := attrs[j].key)
    {
      var propertyType := ToGltfSchema(attrs[i].value.typeRef);
      if propertyType.Panics? {
        assert !AllKnown(attrs) by { assert attrs[i].value.typeRef.Unknown?; }
        return Panics;
      }
      assert attrs[..i + 1][..i] == attrs[..i];
      gltfPropertyTypes := gltfPropertyTypes + [propertyType.value.(className := className, propertyName := attrs[i].key)];
      i := i + 1;
    }
    assert attrs[..i] == attrs;
    r := Returns(gltfPropertyTypes);
  }

  /** The second loop of `to_gltf_class`: the property map. */
  method ClassProperties(attrs: seq<Entry<S.Attribute>>, types: seq<GltfPropertyType>)
      returns (classProperties: map<string, ClassProperty>)
    requires UniqueKeys(attrs) && AllKnown(attrs) && |types| == |attrs|
    requires forall j :: 0 <= j < |attrs| ==>
      types[j].propertyName == attrs[j].key &&
      types[j].classPropertyType == ToGltfSchema(attrs[j].value.typeRef).value.classPropertyType &&
      types[j].componentType == ToGltfSchema(attrs[j].value.typeRef).value.componentType
    ensures classProperties.Keys == set e | e in attrs :: e.key
    ensures forall j :: 0 <= j < |attrs| ==> classProperties[attrs[j].key] == ClassPropertyOf(attrs[j])
  {
    classProperties := map[];
    var k := 0;
    while k < |types|
      invariant 0 <= k <= |types|
      invariant classProperties.Keys == set j | 0 <= j < k :: attrs[j].key
      invariant forall j :: 0 <= j < k ==> classProperties[attrs[j].key] == ClassPropertyOf(attrs[j])
    {
      var g := types[k];
      assert forall j :: 0 <= j < k ==> attrs[j].key != attrs[k].key;
      classProperties := classProperties[g.propertyName := ClassProperty(Some(g.propertyName), g.classPropertyType, g.componentType)];
      k := k + 1;
    }
    KeysByIndex(attrs);
  }

  lemma {:induction false} KeysByIndex<V>(attrs: seq<Entry<V>>)
    ensures (set j | 0 <= j < |attrs| :: attrs[j].key) == set e | e in attrs :: e.key
  {
    forall e | e in attrs ensures e.key in set j | 0 <= j < |attrs| :: attrs[j].key {
      var j :| 0 <= j < |attrs| && attrs[j] == e;
    }
  }

  // ---------------------------------------------------------------------
  // Property tables

  datatype PropertyTableProperty = PropertyTableProperty(values: u32, stringOffsets: Option<u32>)

  datatype PropertyTable = PropertyTable(className: string, properties: map<string, PropertyTableProperty>, count: u32)

  /** The buffer views a property of type `t` occupies: values and string
      offsets for text, values only for scalars and booleans. */
  function BufferViewsOf(t: S.TypeRef): nat {
    if IsTextual(t) then 2 else 1
  }

  /** Attribute types a property table can hold (no unknown, no points). */
  predicate AllTabulable(attrs: seq<Entry<S.Attribute>>) {
    forall i :: 0 <= i < |attrs| ==> !attrs[i].value.typeRef.Unknown? && !attrs[i].value.typeRef.Point?
  }

  /** The buffer views taken by the first attributes. */
  function ViewsBefore(attrs: seq<Entry<S.Attribute>>): nat {
    if attrs == [] then 0 else ViewsBefore(attrs[..|attrs| - 1]) + BufferViewsOf(attrs[|attrs| - 1].value.typeRef)
  }

  /** The counter as the wrapping u32 of a release build holds it. */
  function Wrap(n: nat): u32 { n % TWO_32 }

  lemma {:induction false} WrapAdd(a: nat, k: nat)
    ensures Wrap(Wrap(a) as nat + k) == Wrap(a + k)
  {
    var q := a / TWO_32;
    assert a == q * TWO_32 + Wrap(a);
    assert a + k == q * TWO_32 + (Wrap(a) + k);
    LemmaModMultiple(q, Wrap(a) + k);
  }

  lemma {:induction false} LemmaModMultiple(q: nat, r: nat)
    ensures (q * TWO_32 + r) % TWO_32 == r % TWO_32
  {
    if q > 0 {
      assert q * TWO_32 + r == (q - 1) * TWO_32 + (r + TWO_32);
      LemmaModMultiple(q - 1, r + TWO_32);
    }
  }

  /** The first buffer view of attribute `i` when numbering starts at `start`. */
  function Slot(start: u32, attrs: seq<Entry<S.Attribute>>, i: nat): u32
    requires i <= |attrs|
  {
    Wrap(start as nat + ViewsBefore(attrs[..i]))
  }

  /** The table entry of a property whose first buffer view is `n`. */
  function TablePropertyAt(n: u32, t: S.TypeRef): PropertyTableProperty {
    PropertyTableProperty(n, if IsTextual(t) then Some(Wrap(n as nat + 1)) else None)
  }

  /** `to_gltf_property_table`: the table of a feature type's properties,
      each given consecutive buffer view numbers from `bufferViewLength`
      on, and the next free number. Other type definitions, unknown types
      and point (Vec3) properties panic. */
  method ToGltfPropertyTable(className: string, schema: S.TypeDef, bufferViewLength: u32, featureCount: u32)
      returns (r: Outcome<(PropertyTable, u32)>)
    requires schema.Feature? ==> UniqueKeys(schema.attributes)
    ensures r.Returns? <==> schema.Feature? && AllTabulable(schema.attributes)
    ensures r.Returns? ==> r.value.0.className == className && r.value.0.count == featureCount
    ensures r.Returns? ==> r.value.1 == Slot(bufferViewLength, schema.attributes, |schema.attributes|)
    ensures r.Returns? ==> r.value.0.properties.Keys == set e | e in schema.attributes :: e.key
    ensures r.Returns? ==> forall i :: 0 <= i < |schema.attributes| ==>
      r.value.0.properties[schema.attributes[i].key] ==
      TablePropertyAt(Slot(bufferViewLength, schema.attributes, i), schema.attributes[i].value.typeRef)
  {
    if !schema.Feature? {
      return Panics;
    }
    var t := TableProperties(schema.attributes, bufferViewLength);
    if t.Panics? {
      return Panics;
    }
    r := Returns((PropertyTable(className, t.value.0, featureCount), t.value.1));
  }

  /** The loop of `to_gltf_property_table` over the attributes. */
  method TableProperties(attrs: seq<Entry<S.Attribute>>, bufferViewLength: u32)
      returns (r: Outcome<(map<string, PropertyTableProperty>, u32)>)
    requires UniqueKeys(attrs)
    ensures r.Returns? <==> AllTabulable(attrs)
    ensures r.Returns? ==> r.value.1 == Slot(bufferViewLength, attrs, |attrs|)
    ensures r.Returns? ==> r.value.0.Keys == set e | e in attrs :: e.key
    ensures r.Returns? ==> forall i :: 0 <= i < |attrs| ==>
      r.value.0[attrs[i].key] == TablePropertyAt(Slot(bufferViewLength, attrs, i), attrs[i].value.typeRef)
  {
    var properties: map<string, PropertyTableProperty> := map[];
    var counter := bufferViewLength;
    var i := 0;
    while i < |attrs|
      invariant i <= |attrs|
      invariant TableStateAt(properties, counter, attrs, bufferViewLength, i)
    {
      ghost var properties0, counter0 := properties, counter;
      var ok;
      properties, counter, ok := AddTableProperty(properties, counter, attrs[i].key, attrs[i].value.typeRef);
      if !ok {
        assert !AllTabulable(attrs) by { assert attrs[i].value.typeRef.Unknown? || attrs[i].value.typeRef.Point?; }
        return Panics;
      }
      TableStateStep(properties0, counter0, properties, counter, attrs, bufferViewLength, i);
      i := i + 1;
    }
    KeysByIndex(attrs);
    assert attrs[..i] == attrs;
    r := Returns((properties, counter));
  }

  /** The loop state after the first `i` attributes: all of them tabulable,
      the counter past their buffer views and one entry for each. */
  ghost predicate TableStateAt(properties: map<string, PropertyTableProperty>, counter: u32,
                               attrs: seq<Entry<S.Attribute>>, start: u32, i: nat)
    requires i <= |attrs|
  {
    AllTabulable(attrs[..i]) && counter == Slot(start, attrs, i) &&
    properties.Keys == (set j | 0 <= j < i :: attrs[j].key) &&
    forall j :: 0 <= j < i ==> properties[attrs[j].key] == TablePropertyAt(Slot(start, attrs, j), attrs[j].value.typeRef)
  }

  lemma {:induction false} TableStateStep(properties: map<string, PropertyTableProperty>, counter: u32,
                       properties': map<string, PropertyTableProperty>, counter': u32,
                       attrs: seq<Entry<S.Attribute>>, start: u32, i: nat)
    requires i < |attrs| && UniqueKeys(attrs) && TableStateAt(properties, counter, attrs, start, i)
    requires !attrs[i].value.typeRef.Unknown? && !attrs[i].value.typeRef.Point?
    requires properties' == properties[attrs[i].key := TablePropertyAt(counter, attrs[i].value.typeRef)]
    requires counter' == Wrap(counter as nat + BufferViewsOf(attrs[i].value.typeRef))
    ensures TableStateAt(properties', counter', attrs, start, i + 1)
  {
    TabulableStep(attrs, i);
    CounterStep(counter, counter', attrs, start, i);
    EntriesStep(properties, properties', attrs, start, i);
  }

  lemma {:induction false} TabulableStep(attrs: seq<Entry<S.Attribute>>, i: nat)
    requires i < |attrs| && AllTabulable(attrs[..i])
    requires !attrs[i].value.typeRef.Unknown? && !attrs[i].value.typeRef.Point?
    ensures AllTabulable(attrs[..i + 1])
  {
    forall j | 0 <= j < i + 1
      ensures !attrs[j].value.typeRef.Unknown? && !attrs[j].value.typeRef.Point?
    {
      if j < i { assert attrs[..i][j] == attrs[j]; }
    }
  }

  lemma {:induction false} CounterStep(counter: u32, counter': u32, attrs: seq<Entry<S.Attribute>>, start: u32, i: nat)
    requires i < |attrs| && counter == Slot(start, attrs, i)
    requires counter' == Wrap(counter as nat + BufferViewsOf(attrs[i].value.typeRef))
    ensures counter' == Slot(start, attrs, i + 1)
  {
    var a := start as nat + ViewsBefore(attrs[..i]);
    var k := BufferViewsOf(attrs[i].value.typeRef);
    ViewsBeforeStep(attrs, i);
    WrapAdd(a, k);
    assert Slot(start, attrs, i + 1) == Wrap(a + k);
  }

  lemma {:induction false} EntriesStep(properties: map<string, PropertyTableProperty>, properties': map<string, PropertyTableProperty>,
                    attrs: seq<Entry<S.Attribute>>, start: u32, i: nat)
    requires i < |attrs| && UniqueKeys(attrs)
    requires properties.Keys == (set j | 0 <= j < i :: attrs[j].key)
    requires forall j :: 0 <= j < i ==>
      properties[attrs[j].key] == TablePropertyAt(Slot(start, attrs, j), attrs[j].value.typeRef)
    requires properties' == properties[attrs[i].key := TablePropertyAt(Slot(start, attrs, i), attrs[i].value.typeRef)]
    ensures properties'.Keys == (set j | 0 <= j < i + 1 :: attrs[j].key)
    ensures forall j :: 0 <= j < i + 1 ==>
      properties'[attrs[j].key] == TablePropertyAt(Slot(start, attrs, j), attrs[j].value.typeRef)
  {
    var key := attrs[i].key;
    assert properties'.Keys == properties.Keys + {key};
    forall j | 0 <= j < i + 1
      ensures properties'[attrs[j].key] == TablePropertyAt(Slot(start, attrs, j), attrs[j].value.typeRef)
    {
      if j < i {
        assert attrs[j].key != key;
      }
    }
  }

  /** The body of the loop of `to_gltf_property_table` for one attribute:
      a text property takes two buffer views (values and string offsets),
      a scalar or boolean one; anything else panics. */
  method AddTableProperty(properties: map<string, PropertyTableProperty>, counter: u32, name: string, t: S.TypeRef)
      returns (properties': map<string, PropertyTableProperty>, counter': u32, ok: bool)
    ensures ok <==> !t.Unknown? && !t.Point?
    ensures ok ==> properties' == properties[name := TablePropertyAt(counter, t)]
    ensures ok ==> counter' == Wrap(counter as nat + BufferViewsOf(t))
  {
    properties', counter' := properties, counter;
    var propertyType := ToGltfSchema(t);
    if propertyType.Panics? {
      return properties', counter', false;
    }
    match propertyType.value.classPropertyType {
      case String =>
        properties' := properties[name := PropertyTableProperty(counter, Some(Wrap(counter as nat + 1)))];
        counter' := Wrap(counter as nat + 2);
      case Scalar =>
        properties' := properties[name := PropertyTableProperty(counter, None)];
        counter' := Wrap(counter as nat + 1);
      case Boolean =>
        properties' := properties[name := PropertyTableProperty(counter, None)];
        counter' := Wrap(counter as nat + 1);
      case Vec3 =>
        return properties', counter', false;
    }
    ok := true;
  }

  lemma {:induction false} ViewsBeforeStep(attrs: seq<Entry<S.Attribute>>, i: nat)
    requires i < |attrs|
    ensures ViewsBefore(attrs[..i + 1]) == ViewsBefore(attrs[..i]) + BufferViewsOf(attrs[i].value.typeRef)
  {
    assert attrs[..i + 1][..i] == attrs[..i];
  }

  /** Without wrap-around the buffer view numbers handed out never collide:
      each property's views lie in its own interval, the intervals follow
      the attribute order, and all lie below the returned counter. */
  lemma {:induction false} ViewsAreDisjoint(attrs: seq<Entry<S.Attribute>>, i: nat, j: nat)
    requires i < j < |attrs|
    ensures ViewsBefore(attrs[..i]) + BufferViewsOf(attrs[i].value.typeRef) <= ViewsBefore(attrs[..j])
    ensures ViewsBefore(attrs[..j]) + BufferViewsOf(attrs[j].value.typeRef) <= ViewsBefore(attrs)
  {
    ViewsBeforeStep(attrs, i);
    ViewsBeforeStep(attrs, j);
    ViewsBeforeMonotone(attrs, i + 1, j);
    ViewsBeforeMonotone(attrs, j + 1, |attrs|);
    assert attrs[..|attrs|] == attrs;
  }

  lemma {:induction false} ViewsBeforeMonotone(attrs: seq<Entry<S.Attribute>>, a: nat, b: nat)
    requires a <= b <= |attrs|
    ensures ViewsBefore(attrs[..a]) <= ViewsBefore(attrs[..b])
    decreases b - a
  {
    if a < b {
      ViewsBeforeStep(attrs, b - 1);
      ViewsBeforeMonotone(attrs, a, b - 1);
    }
  }
}
