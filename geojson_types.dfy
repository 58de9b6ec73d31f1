/** The values of the `geojson` and `serde_json` crates the GeoJSON
    conversion builds (RFC 7946). */
module GeoJsonTypes {
  import opened Common

  /** A JSON value; objects keep their members in order. */
  datatype JsonValue =
    | JNull
    | JBool(b: bool)
    | JNumber(n: F64)
    | JString(s: string)
    | JArray(items: seq<JsonValue>)
    | JObject(members: seq<(string, JsonValue)>)

  /** `geojson::JsonObject`. */
  type JsonObject = seq<(string, JsonValue)>

  /** A position: two or three coordinates (section 3.1.1 of RFC 7946). */
  type Position = seq<F64>

  /** `geojson::Value`, the coordinates of a geometry object by its type. */
  datatype GeoValue =
    | Point(position: Position)
    | MultiPoint(positions: seq<Position>)
    | LineString(line: seq<Position>)
    | MultiLineString(lines: seq<seq<Position>>)
    | Polygon(rings: seq<seq<Position>>)
    | MultiPolygon(polygons: seq<seq<seq<Position>>>)

  /** `geojson::Geometry`. */
  datatype GeoGeometry = GeoGeometry(bbox: Option<seq<F64>>, value: GeoValue, foreignMembers: Option<JsonObject>)

  /** `geojson::Geometry::new`: no bounding box, no foreign members. */
  function NewGeometry(value: GeoValue): (g: GeoGeometry)
    ensures g.value == value && g.bbox.None? && g.foreignMembers.None?
  {
    GeoGeometry(None, value, None)
  }

  /** `geojson::feature::Id`. */
  datatype FeatureId = IdString(s: string) | IdNumber(n: F64)

  /** `geojson::Feature`. */
  datatype Feature = Feature(
    bbox: Option<seq<F64>>,
    geometry: Option<GeoGeometry>,
    id: Option<FeatureId>,
    properties: Option<JsonObject>,
    foreignMembers: Option<JsonObject>)
}
