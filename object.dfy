/** City objects as the transformers and sinks see them: a tree of attribute
    values whose inner nodes are objects (with a typename, an ordered
    attribute map and a stereotype) and arrays. */
module CityObjects {
  import opened Common
  import opened IndexMaps
  import opened Geometry

  /** What kind of object a node is; features and plain objects carry an id,
      features also their references into the geometry store. */
  datatype ObjectStereotype =
    | Feature(id: string, geometries: seq<GeometryRefEntry>)
    | Data
    | Object(id: string)

  /** `ObjectStereotype::id()`. */
  function StereotypeId(st: ObjectStereotype): (r: Option<string>)
    ensures r.None? <==> st.Data?
    ensures r.Some? ==> r.value == st.id
  {
    match st
    case Feature(id, _) => Some(id)
    case Data => None
    case Object(id) => Some(id)
  }

  /** An attribute value. The scalar variants are carried as uninterpreted payloads;
      only objects and arrays have structure the converter looks into. */
  datatype Value =
    | String(s: string)
    | Code(code: string)
    | Integer(i: int)
    | NonNegativeInteger(n: nat)
    | Double(d: F64)
    | Measure(m: F64)
    | Boolean(b: bool)
    | Uri(uri: string)
    | Date(date: string)
    | Point(p: Coord3)
    | Array(items: seq<Value>)
    | Object(obj: Obj)

  datatype Obj = Obj(typename: string, attributes: seq<Entry<Value>>, stereotype: ObjectStereotype)

  predicate IsScalar(v: Value) {
    !v.Array? && !v.Object?
  }

  /** One unit of work flowing through the pipeline: the root value of a
      top-level city object and the stores it shares with its descendants.
      The appearance store is only identified by a handle here. */
  datatype Entity = Entity(root: Value, baseUrl: string, geometryStore: GeometryStore, appearanceStore: nat)

  /** The `out: &mut Vec<Entity>` a transformer pushes its results onto. */
  class EntityVec {
    var entities: seq<Entity>

    constructor ()
      ensures entities == []
    {
      entities := [];
    }

    method Push(e: Entity)
      modifies this
      ensures entities == old(entities) + [e]
    {
      entities := entities + [e];
    }
  }
}

/** The schema of the object types a source can produce. */
module Schemas {
  import opened Common
  import opened IndexMaps

  /** The type of an attribute. */
  datatype TypeRef =
    | String | Code | Integer | NonNegativeInteger | Double | Boolean | JsonString
    | Measure | Point | Named(name: string) | Uri | Date | DateTime | Unknown

  datatype Attribute = Attribute(typeRef: TypeRef, minOccurs: nat, maxOccurs: Option<nat>)

  /** A type definition: features and data types have ordered attribute
      maps; property types are not looked into by the model. */
  datatype TypeDef =
    | Feature(attributes: seq<Entry<Attribute>>)
    | Data(attributes: seq<Entry<Attribute>>)
    | Property(members: seq<TypeRef>)

  /** The schema: type definitions by typename, and the CRS once a
      transformer has fixed it. Transformers update it in place. */
  class Schema {
    var types: seq<Entry<TypeDef>>
    var epsg: Option<nat>

    constructor (types: seq<Entry<TypeDef>>, epsg: Option<nat>)
      ensures this.types == types && this.epsg == epsg
    {
      this.types := types;
      this.epsg := epsg;
    }
  }
}
