/** `nusamai_geojson`: a GeoJSON geometry wrapped as a feature. */
module GeoJsonLib {
  import opened Common
  import opened GeoJsonTypes

  /** `geojson_geometry_to_feature`: the geometry as given, no id, no
      properties, no bounding box and no foreign members. */
  function GeoJsonGeometryToFeature(geom: GeoGeometry): (f: Feature)
    ensures f.geometry == Some(geom)
    ensures f.id.None? && f.properties.None?
    ensures f.bbox.None? && f.foreignMembers.None?
  {
    Feature(None, Some(geom), None, None, None)
  }
}
